/** What channels deliver over whole runs: in every interleaving of the kernel's threads the receivers
    of a channel take what was sent, in the order in which it was sent, and nothing is lost or
    repeated; and the ring buffer does over any sequence of calls what a bounded queue does. */
module Delivery {
  import opened Basics
  import opened Sched
  import opened Blocking
  import opened KernelRuns
  import Channel

  // ---- all threads -------------------------------------------------------------------------

  function Msgs(k: K, ch: int): seq<Slot> {
    if ch in k.chans then k.chans[ch].msgs else []
  }

  /** The operation that the step brings to an end, if any: not one that sleeps, fails or is refused. */
  function Completes(k: K, ev: Event): Option<Op>
    requires Enabled(k, ev)
  {
    if (ev.Enter? || ev.Retry? || ev.Try?) && Avail(k, QueueOf(OpOf(k, ev))) > 0 && !Refuses(k, OpOf(k, ev))
    then Some(OpOf(k, ev)) else None
  }

  /** What the step puts into the channel. */
  function SentBy(k: K, ev: Event, ch: int): seq<Slot>
    requires Enabled(k, ev)
  {
    match Completes(k, ev)
    case Some(Send(c, slot)) => if c == ch then [slot] else []
    case _ => []
  }

  /** What the step hands to a receiver: the slot that the peek looks at. */
  function TakenBy(k: K, ev: Event, ch: int): seq<Slot>
    requires Enabled(k, ev)
  {
    match Completes(k, ev)
    case Some(Recv(c, _)) => if c == ch && Msgs(k, ch) != [] then [Msgs(k, ch)[0]] else []
    case _ => []
  }

  ghost function Sent(k: K, evs: seq<Event>, ch: int): seq<Slot>
    requires Legal(k, evs)
    decreases |evs|
  {
    if evs == [] then [] else SentBy(k, evs[0], ch) + Sent(Next(k, evs[0]), evs[1..], ch)
  }

  ghost function Taken(k: K, evs: seq<Event>, ch: int): seq<Slot>
    requires Legal(k, evs)
    decreases |evs|
  {
    if evs == [] then [] else TakenBy(k, evs[0], ch) + Taken(Next(k, evs[0]), evs[1..], ch)
  }

  lemma {:induction false} WakeAllChans(k: K, q: Queue)
    ensures WakeAll(k, q).chans == k.chans
    decreases |Q(k, q)|
  {
    if Q(k, q) != [] { WakeAllChans(Wake(k, q), q); }
  }

  lemma TakeMsgs(k: K, op: Op, ch: int)
    requires Exists(k, op) && Avail(k, QueueOf(op)) > 0
    ensures Take(k, op).chans == Effect(k, op).chans
    ensures op.Send? && op.ch == ch ==> Msgs(Take(k, op), ch) == Msgs(k, ch) + [op.slot]
    ensures op.Recv? && op.ch == ch ==> Msgs(k, ch) != [] && Msgs(Take(k, op), ch) == Msgs(k, ch)[1..]
    ensures (op.Send? || op.Recv? ==> op.ch != ch) ==> Msgs(Take(k, op), ch) == Msgs(k, ch)
  {
  }

  /** A step that completes no operation leaves every channel alone. */
  lemma IdleMsgs(k: K, ev: Event)
    requires Enabled(k, ev) && !Panics(k, ev) && Completes(k, ev) == None
    ensures Next(k, ev).chans == k.chans
  {
    if ev.Broadcast? { WakeAllChans(k, CondQ(ev.c)); }
  }

  lemma StepDelivers(k: K, ev: Event, ch: int)
    requires Enabled(k, ev) && !Panics(k, ev)
    ensures Msgs(k, ch) + SentBy(k, ev, ch) == TakenBy(k, ev, ch) + Msgs(Next(k, ev), ch)
  {
    if Completes(k, ev).Some? {
      TakeMsgs(k, OpOf(k, ev), ch);
    } else {
      IdleMsgs(k, ev);
    }
  }

  lemma {:induction false} Conserved(k: K, evs: seq<Event>, ch: int)
    requires Legal(k, evs)
    ensures Msgs(k, ch) + Sent(k, evs, ch) == Taken(k, evs, ch) + Msgs(After(k, evs), ch)
    decreases |evs|
  {
    if evs != [] {
      StepDelivers(k, evs[0], ch);
      Conserved(Next(k, evs[0]), evs[1..], ch);
      Chained(Msgs(k, ch), SentBy(k, evs[0], ch), TakenBy(k, evs[0], ch), Msgs(Next(k, evs[0]), ch),
              Sent(Next(k, evs[0]), evs[1..], ch), Taken(Next(k, evs[0]), evs[1..], ch), Msgs(After(k, evs), ch));
    }
  }

  lemma Chained<T>(q: seq<T>, s: seq<T>, t: seq<T>, q1: seq<T>, ss: seq<T>, ts: seq<T>, q2: seq<T>)
    requires q + s == t + q1 && q1 + ss == ts + q2
    ensures q + (s + ss) == (t + ts) + q2
  {
    assert q + (s + ss) == (q + s) + ss;
    assert (t + q1) + ss == t + (q1 + ss);
    assert (t + ts) + q2 == t + (ts + q2);
  }

  /** In every run of the kernel, whatever the threads do: what the receivers of a channel have taken is
      a prefix of what was there and what was sent, in that order; the rest is in the channel, and it
      never holds more than its capacity. */
  lemma DeliveredInOrder(k: K, evs: seq<Event>, ch: int)
    requires Init(k) && Legal(k, evs) && ch in k.chans
    ensures Taken(k, evs, ch) <= Msgs(k, ch) + Sent(k, evs, ch)
    ensures Msgs(After(k, evs), ch) == (Msgs(k, ch) + Sent(k, evs, ch))[|Taken(k, evs, ch)|..]
    ensures |Msgs(k, ch)| + |Sent(k, evs, ch)| - |Taken(k, evs, ch)| <= k.chans[ch].capacity
  {
    Conserved(k, evs, ch);
    InitInv(k);
    RunSound(k, evs);
    SameCapacity(k, evs, ch);
  }

  lemma {:induction false} SameCapacity(k: K, evs: seq<Event>, ch: int)
    requires Legal(k, evs) && ch in k.chans
    ensures ch in After(k, evs).chans && After(k, evs).chans[ch].capacity == k.chans[ch].capacity
    decreases |evs|
  {
    if evs != [] {
      if Completes(k, evs[0]).Some? {
        TakeMsgs(k, OpOf(k, evs[0]), ch);
      } else {
        IdleMsgs(k, evs[0]);
      }
      SameCapacity(Next(k, evs[0]), evs[1..], ch);
    }
  }

  // ---- the ring ------------------------------------------------------------------------------

  /** One call that does not sleep. */
  datatype Call = SendItem(item: Channel.Item) | RecvPlain | RecvAny

  /** A bounded queue, and what has gone through it. */
  datatype Log = Log(queue: seq<Channel.Item>, sent: seq<Channel.Item>, taken: seq<Channel.Item>)

  /** The specification: a full queue refuses, and a plain receive refuses a capability. */
  function Serve(l: Log, capacity: nat, c: Call): Log {
    match c
    case SendItem(i) =>
      if |l.queue| < capacity then l.(queue := l.queue + [i], sent := l.sent + [i]) else l
    case RecvPlain =>
      if l.queue != [] && l.queue[0].cap == None
      then l.(queue := l.queue[1..], taken := l.taken + [l.queue[0]]) else l
    case RecvAny =>
      if l.queue != [] then l.(queue := l.queue[1..], taken := l.taken + [l.queue[0]]) else l
  }

  /** A send is refused exactly when the queue is full, a receive when there is nothing, or nothing that it
      may take; otherwise the message goes in at one end or comes out at the other. */
  lemma ServesExactly(l: Log, capacity: nat, c: Call)
    ensures var r := Serve(l, capacity, c);
            match c
            case SendItem(i) =>
              if |l.queue| >= capacity then r == l
              else r.queue == l.queue + [i] && r.sent == l.sent + [i] && r.taken == l.taken
            case _ =>
              if l.queue == [] || (c == RecvPlain && l.queue[0].cap != None) then r == l
              else l.queue == [l.queue[0]] + r.queue && r.taken == l.taken + [l.queue[0]] && r.sent == l.sent
  {
  }

  function ServeAll(l: Log, capacity: nat, cs: seq<Call>): Log {
    if cs == [] then l else Serve(ServeAll(l, capacity, cs[..|cs| - 1]), capacity, cs[|cs| - 1])
  }

  /** Through the bounded queue too, taken messages are a prefix of the sent ones. */
  lemma {:induction false} QueueInOrder(l: Log, capacity: nat, cs: seq<Call>)
    requires l.sent == l.taken + l.queue && |l.queue| <= capacity
    ensures var r := ServeAll(l, capacity, cs); r.sent == r.taken + r.queue && |r.queue| <= capacity
  {
    if cs != [] { QueueInOrder(l, capacity, cs[..|cs| - 1]); }
  }

  /** The ring buffer, through any sequence of calls, holds what the bounded queue holds, and its
      receivers get what the queue's get: bytes and capability of each message together. */
  method RingServes(ring: Channel.Ring, cs: seq<Call>) returns (taken: seq<Channel.Item>)
    requires ring.Valid() && forall c :: c in cs && c.SendItem? ==> |c.item.msg| == ring.msgSize
    modifies ring, ring.buffer, ring.caps
    ensures ring.Valid()
    ensures var r := ServeAll(Log(old(ring.Contents()), [], []), ring.capacity, cs);
            ring.Contents() == r.queue && taken == r.taken
  {
    taken := [];
    ghost var l0 := Log(ring.Contents(), [], []);
    var i := 0;
    assert cs[..0] == [];
    while i < |cs|
      invariant 0 <= i <= |cs| && ring.Valid()
      invariant ring.Contents() == ServeAll(l0, ring.capacity, cs[..i]).queue
      invariant taken == ServeAll(l0, ring.capacity, cs[..i]).taken
    {
      assert cs[..i + 1][..i] == cs[..i] && cs[i] in cs;
      var got := RingCall(ring, cs[i]);
      taken := taken + got;
      i := i + 1;
    }
    assert cs[..i] == cs;
  }

  method RingCall(ring: Channel.Ring, c: Call) returns (got: seq<Channel.Item>)
    requires ring.Valid() && (c.SendItem? ==> |c.item.msg| == ring.msgSize)
    modifies ring, ring.buffer, ring.caps
    ensures ring.Valid()
    ensures forall s, t :: var r := Serve(Log(old(ring.Contents()), s, t), ring.capacity, c);
                           ring.Contents() == r.queue && t + got == r.taken
  {
    got := [];
    match c
    case SendItem(item) =>
      if ring.count < ring.capacity {
        ring.Enqueue(item.msg, item.cap);
      }
    case RecvPlain =>
      var r := ring.TryRecv();
      if r.Some? {
        got := [Channel.Item(r.value, None)];
      }
    case RecvAny =>
      var r := ring.TryRecvCap();
      if r.Some? {
        got := [r.value];
      }
  }
}
