/** The in-kernel message channel (src/kernel/core/channel.c): a ring of fixed-size messages in
    one flat buffer with a parallel ring of capability slots, refining a bounded FIFO. */
module Channel {
  import opened Basics

  newtype Byte = x: int | 0 <= x < 256

  datatype Cap = Cap(kind: int, rights: int, obj: int, owns: bool)

  /** One message of the abstract queue. */
  datatype Item = Item(msg: seq<Byte>, cap: Option<Cap>)

  /** Slot `i` of a flat buffer of `m`-byte slots. */
  function SlotBytes(b: seq<Byte>, m: nat, i: nat): seq<Byte>
    requires i * m + m <= |b|
  {
    b[i * m..i * m + m]
  }

  lemma SlotFits(i: nat, m: nat, capacity: nat)
    requires i < capacity
    ensures i * m + m <= capacity * m
  {
    assert (i + 1) * m <= capacity * m;
    assert (i + 1) * m == i * m + m;
  }

  lemma SlotsDisjoint(i: nat, j: nat, m: nat)
    requires i < j
    ensures i * m + m <= j * m
  {
    SlotFits(i, m, j);
  }

  /** Position of the `i`-th queued message in a ring of `n` slots. */
  function Pos(head: nat, i: nat, n: nat): (p: nat)
    requires head < n && i <= n
    ensures p < n
  {
    (head + i) % n
  }

  lemma PosCases(head: nat, i: nat, n: nat)
    requires head < n && i <= n
    ensures Pos(head, i, n) == if head + i < n then head + i else head + i - n
  {
    if head + i >= n {
      ModOnce(head + i - n, n);
      assert head + i - n + n == head + i;
    } else {
      ModNone(head + i, n);
    }
  }

  lemma ModNone(a: nat, n: nat)
    requires a < n
    ensures a % n == a
  {
  }

  lemma ModOnce(a: nat, n: nat)
    requires a < n
    ensures (a + n) % n == a
  {
  }

  lemma PosInjective(head: nat, i: nat, j: nat, n: nat)
    requires head < n && i < j < n
    ensures Pos(head, i, n) != Pos(head, j, n)
  {
    PosCases(head, i, n);
    PosCases(head, j, n);
  }

  lemma PosShift(head: nat, i: nat, n: nat)
    requires head < n && i < n
    ensures Pos((head + 1) % n, i, n) == Pos(head, i + 1, n)
  {
    PosCases(head, 1, n);
    PosCases(head, i + 1, n);
    PosCases((head + 1) % n, i, n);
  }

  /** The buffer with slot `p` overwritten. */
  function WriteSlot(b: seq<Byte>, m: nat, p: nat, msg: seq<Byte>): seq<Byte>
    requires p * m + m <= |b|
  {
    b[..p * m] + msg + b[p * m + m..]
  }

  /** Writing one slot leaves every other slot alone. */
  lemma SlotAfterWrite(b: seq<Byte>, m: nat, n: nat, p: nat, msg: seq<Byte>, r: nat)
    requires |b| == n * m && p < n && r < n && |msg| == m && p * m + m <= |b| && r * m + m <= |b|
    ensures |WriteSlot(b, m, p, msg)| == |b|
    ensures SlotBytes(WriteSlot(b, m, p, msg), m, r) == if r == p then msg else SlotBytes(b, m, r)
  {
    var b' := WriteSlot(b, m, p, msg);
    if r < p {
      SlotsDisjoint(r, p, m);
      CutBefore(b[..p * m], msg, b[p * m + m..], b, r * m, r * m + m);
    } else if r > p {
      SlotsDisjoint(p, r, m);
      CutAfter(b, p * m, p * m + m, msg, r * m, r * m + m);
    } else {
      assert b'[p * m..p * m + m] == msg;
    }
  }

  lemma CutBefore(x: seq<Byte>, msg: seq<Byte>, y: seq<Byte>, b: seq<Byte>, lo: nat, hi: nat)
    requires lo <= hi <= |x| && x <= b
    ensures (x + msg + y)[lo..hi] == b[lo..hi]
  {
  }

  lemma CutAfter(b: seq<Byte>, from: nat, to: nat, msg: seq<Byte>, lo: nat, hi: nat)
    requires from <= to <= lo <= hi <= |b| && |msg| == to - from
    ensures (b[..from] + msg + b[to..])[lo..hi] == b[lo..hi]
  {
  }

  /** What is in slot `p`. */
  function ItemAt(b: seq<Byte>, caps: seq<Option<Cap>>, m: nat, p: nat): Item
    requires |b| == |caps| * m && p < |caps|
  {
    SlotFits(p, m, |caps|);
    Item(SlotBytes(b, m, p), caps[p])
  }

  /** The queue a ring stands for, oldest message first. */
  function View(b: seq<Byte>, caps: seq<Option<Cap>>, m: nat, head: nat, count: nat): (q: seq<Item>)
    requires |b| == |caps| * m && head < |caps| && count <= |caps|
    ensures |q| == count
    ensures forall i :: 0 <= i < count ==> q[i] == ItemAt(b, caps, m, Pos(head, i, |caps|))
  {
    seq(count, i requires 0 <= i < count => ItemAt(b, caps, m, Pos(head, i, |caps|)))
  }

  lemma EnqueueView(b: seq<Byte>, caps: seq<Option<Cap>>, m: nat, head: nat, count: nat, msg: seq<Byte>,
                    cap: Option<Cap>)
    requires |b| == |caps| * m && head < |caps| && count < |caps| && |msg| == m
    ensures var p := Pos(head, count, |caps|);
            && p * m + m <= |b| && |WriteSlot(b, m, p, msg)| == |b|
            && View(WriteSlot(b, m, p, msg), caps[p := cap], m, head, count + 1)
               == View(b, caps, m, head, count) + [Item(msg, cap)]
  {
    var n, p := |caps|, Pos(head, count, |caps|);
    SlotFits(p, m, n);
    SlotAfterWrite(b, m, n, p, msg, p);
    var b', caps' := WriteSlot(b, m, p, msg), caps[p := cap];
    forall i | 0 <= i < count
      ensures ItemAt(b', caps', m, Pos(head, i, n)) == ItemAt(b, caps, m, Pos(head, i, n))
    {
      PosInjective(head, i, count, n);
      SlotFits(Pos(head, i, n), m, n);
      SlotAfterWrite(b, m, n, p, msg, Pos(head, i, n));
    }
    assert ItemAt(b', caps', m, p) == Item(msg, cap);
  }

  lemma CommitView(b: seq<Byte>, caps: seq<Option<Cap>>, m: nat, head: nat, count: nat)
    requires |b| == |caps| * m && head < |caps| && 0 < count <= |caps|
    ensures View(b, caps[head := None], m, (head + 1) % |caps|, count - 1) == View(b, caps, m, head, count)[1..]
  {
    var n := |caps|;
    var q, q' := View(b, caps, m, head, count), View(b, caps[head := None], m, (head + 1) % n, count - 1);
    forall i | 0 <= i < count - 1
      ensures q'[i] == q[1..][i]
    {
      PosShift(head, i, n);
      PosCases(head, 0, n);
      PosInjective(head, 0, i + 1, n);
    }
  }

  class Ring {
    const capacity: nat
    const msgSize: nat
    const buffer: array<Byte>
    const caps: array<Option<Cap>>
    var count: nat
    var head: nat
    var tail: nat

    ghost predicate Valid()
      reads this, buffer, caps
    {
      && 0 < capacity && 0 < msgSize
      && buffer.Length == capacity * msgSize
      && caps.Length == capacity && buffer as object != caps
      && count <= capacity && head < capacity
      && tail == Pos(head, count, capacity)
    }

    /** The queue the ring stands for. */
    ghost function Contents(): (q: seq<Item>)
      reads this, buffer, caps
      requires Valid()
    {
      View(buffer[..], caps[..], msgSize, head, count)
    }

    constructor (capacity: nat, msgSize: nat)
      requires 0 < capacity && 0 < msgSize
      ensures Valid() && Contents() == [] && fresh(buffer) && fresh(caps)
      ensures this.capacity == capacity && this.msgSize == msgSize
    {
      this.capacity, this.msgSize := capacity, msgSize;
      buffer := new Byte[capacity * msgSize](_ => 0);
      caps := new Option<Cap>[capacity](_ => None);
      count, head, tail := 0, 0, 0;
    }

    /** copy_bytes into slot `p`. */
    method CopyIn(p: nat, msg: seq<Byte>)
      requires Valid() && p < capacity && |msg| == msgSize && p * msgSize + msgSize <= buffer.Length
      modifies buffer
      ensures buffer[..] == WriteSlot(old(buffer[..]), msgSize, p, msg)
    {
      var off := p * msgSize;
      var i := 0;
      while i < msgSize
        invariant 0 <= i <= msgSize
        invariant buffer[..] == old(buffer[..])[..off] + msg[..i] + old(buffer[..])[off + i..]
      {
        buffer[off + i] := msg[i];
        i := i + 1;
      }
      assert msg[..i] == msg;
    }

    /** enqueue: append one message with its own capability, or none. */
    method Enqueue(msg: seq<Byte>, cap: Option<Cap>)
      requires Valid() && |msg| == msgSize && count < capacity
      modifies this`count, this`tail, buffer, caps
      ensures Valid() && Contents() == old(Contents()) + [Item(msg, cap)]
    {
      EnqueueView(buffer[..], caps[..], msgSize, head, count, msg, cap);
      TailMoves(head, count, capacity);
      CopyIn(tail, msg);
      caps[tail] := cap;
      assert caps[..] == old(caps[..])[tail := cap];
      tail := (tail + 1) % capacity;
      count := count + 1;
    }

    /** channel_peek_try: the oldest message, not consumed. */
    method PeekTry() returns (r: Option<Item>)
      requires Valid()
      ensures r == if count == 0 then None else Some(Contents()[0])
    {
      if count == 0 {
        return None;
      }
      PosCases(head, 0, capacity);
      SlotFits(head, msgSize, capacity);
      r := Some(Item(buffer[head * msgSize..head * msgSize + msgSize], caps[head]));
      assert buffer[head * msgSize..head * msgSize + msgSize] == SlotBytes(buffer[..], msgSize, head);
    }

    /** channel_commit: drop the oldest message and clear its capability slot. */
    method Commit()
      requires Valid() && count > 0
      modifies this`count, this`head, caps
      ensures Valid() && Contents() == old(Contents())[1..]
    {
      CommitView(buffer[..], caps[..], msgSize, head, count);
      HeadMoves(head, count, capacity);
      caps[head] := None;
      assert caps[..] == old(caps[..])[head := None];
      head := (head + 1) % capacity;
      count := count - 1;
    }

    method TrySend(msg: seq<Byte>) returns (ok: bool)
      requires Valid() && |msg| == msgSize
      modifies this`count, this`tail, buffer, caps
      ensures Valid()
      ensures ok <==> |old(Contents())| < capacity
      ensures Contents() == if ok then old(Contents()) + [Item(msg, None)] else old(Contents())
    {
      if count == capacity {
        return false;
      }
      Enqueue(msg, None);
      return true;
    }

    /** A plain receive takes the oldest message only if it carries no capability. */
    method TryRecv() returns (r: Option<seq<Byte>>)
      requires Valid()
      modifies this`count, this`head, caps
      ensures Valid()
      ensures r.Some? <==> old(Contents()) != [] && old(Contents())[0].cap == None
      ensures r.Some? ==> old(Contents()) == [Item(r.value, None)] + Contents()
      ensures r.None? ==> Contents() == old(Contents())
    {
      var slot := PeekTry();
      if slot == None || slot.value.cap != None {
        return None;
      }
      Commit();
      return Some(slot.value.msg);
    }

    /** A capability receive takes the oldest message together with its own capability. */
    method TryRecvCap() returns (r: Option<Item>)
      requires Valid()
      modifies this`count, this`head, caps
      ensures Valid()
      ensures r.Some? <==> old(Contents()) != []
      ensures r.Some? ==> old(Contents()) == [r.value] + Contents()
      ensures r.None? ==> Contents() == old(Contents())
    {
      r := PeekTry();
      if r != None {
        Commit();
      }
    }
  }

  lemma TailMoves(head: nat, count: nat, n: nat)
    requires head < n && count < n
    ensures (Pos(head, count, n) + 1) % n == Pos(head, count + 1, n)
  {
    PosCases(head, count, n);
    PosCases(head, count + 1, n);
    PosCases(Pos(head, count, n), 1, n);
  }

  lemma HeadMoves(head: nat, count: nat, n: nat)
    requires head < n && 0 < count <= n
    ensures Pos((head + 1) % n, count - 1, n) == Pos(head, count, n)
  {
    PosShift(head, count - 1, n);
  }

  /** channel_create; `heapOk` says whether its three allocations succeed. */
  method Create(capacity: nat, msgSize: nat, heapOk: bool) returns (r: Ring?)
    ensures r == null <==> capacity == 0 || msgSize == 0 || !heapOk
    ensures r != null ==> fresh(r) && r.Valid() && r.Contents() == [] && r.capacity == capacity && r.msgSize == msgSize
  {
    if capacity == 0 || msgSize == 0 || !heapOk {
      return null;
    }
    r := new Ring(capacity, msgSize);
  }
}
