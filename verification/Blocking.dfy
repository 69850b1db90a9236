/** The blocking primitives (src/kernel/core/mutex.c, semaphore.c, condvar.c, channel.c) as one
    transition system over the scheduler.  A step is what the running thread does in one region
    with interrupts off.  Wakeups are Mesa style: a waiter is popped, made ready, and tests its
    condition again when it runs. */
module Blocking {
  import opened Basics
  import opened Sched

  datatype Queue = MutexQ(m: int) | CondQ(c: int) | SemQ(x: int) | SendQ(ch: int) | RecvQ(ch: int)

  datatype Slot = Slot(msg: int, hasCap: bool)

  /** `takesCap`: the receiver can accept a message that carries a capability. */
  datatype Op = Lock(m: int) | SemWait(x: int) | Send(ch: int, slot: Slot) | Recv(ch: int, takesCap: bool)

  /** Where a thread is: not started, outside the primitives, or inside the retry loop of `op`
      having been pushed on `q`. */
  datatype Pc = New | Idle | Waiting(q: Queue, op: Op)

  datatype Chan = Chan(capacity: int, msgs: seq<Slot>)

  datatype K = K(s: S, waitq: map<Queue, seq<Tid>>, pc: map<Tid, Pc>,
                 mutexes: map<int, Option<Tid>>, sems: map<int, int>, chans: map<int, Chan>)

  function Q(k: K, q: Queue): seq<Tid> {
    if q in k.waitq then k.waitq[q] else []
  }

  function QueueOf(op: Op): Queue {
    match op
    case Lock(m) => MutexQ(m)
    case SemWait(x) => SemQ(x)
    case Send(ch, _) => SendQ(ch)
    case Recv(ch, _) => RecvQ(ch)
  }

  predicate Exists(k: K, op: Op) {
    match op
    case Lock(m) => m in k.mutexes
    case SemWait(x) => x in k.sems
    case Send(ch, _) => ch in k.chans
    case Recv(ch, _) => ch in k.chans
  }

  /** How many waiters of `q` could go on right now. */
  function Avail(k: K, q: Queue): int {
    match q
    case MutexQ(m) => if m in k.mutexes && k.mutexes[m] == None then 1 else 0
    case SemQ(x) => if x in k.sems then k.sems[x] else 0
    case SendQ(ch) => if ch in k.chans then k.chans[ch].capacity - |k.chans[ch].msgs| else 0
    case RecvQ(ch) => if ch in k.chans then |k.chans[ch].msgs| else 0
    case CondQ(_) => 0
  }

  predicate WaitsOn(k: K, t: Tid, q: Queue) {
    t in k.pc && k.pc[t].Waiting? && k.pc[t].q == q
  }

  predicate IsBlocked(k: K, t: Tid) {
    t in k.s.status && k.s.status[t] == Blocked
  }

  /** Threads popped from `q` that have not tested their condition again. */
  ghost function Popped(k: K, q: Queue): set<Tid> {
    set t | t in k.pc && WaitsOn(k, t, q) && !IsBlocked(k, t)
  }

  /** No lost wakeup on `q`: while somebody sleeps there, everything available has been promised
      to a thread that is already awake. */
  ghost predicate Kept(k: K, q: Queue) {
    Q(k, q) != [] ==> Avail(k, q) <= |Popped(k, q)|
  }

  ghost predicate QueueOk(k: K, q: Queue) {
    && NoDup(Q(k, q))
    && (forall t :: t in Q(k, q) <==> IsBlocked(k, t) && WaitsOn(k, t, q))
  }

  ghost predicate PcOk(k: K, t: Tid)
    requires t in k.pc && t in k.s.status
  {
    match k.pc[t]
    case New => k.s.status[t] != Blocked && k.s.status[t] != Dead
    case Idle => k.s.status[t] != Blocked
    case Waiting(q, op) =>
      k.s.status[t] != Dead && Exists(k, op) && (q == QueueOf(op) || (q.CondQ? && op.Lock?))
  }

  ghost predicate ChanOk(c: Chan) {
    1 <= c.capacity && |c.msgs| <= c.capacity
  }

  /** Every thread is in exactly one place: on the CPU, in the ready list, in the one wait queue
      its program counter names, or in the zombie list. */
  ghost predicate Shape(k: K) {
    && Placed(k.s)
    && k.pc.Keys == k.s.status.Keys
    && (forall q :: QueueOk(k, q))
    && (forall t :: t in k.pc ==> PcOk(k, t))
    && (forall ch :: ch in k.chans ==> ChanOk(k.chans[ch]))
  }

  ghost predicate Inv(k: K) {
    && Shape(k)
    && k.s.status[k.s.current] == Running
    && (forall q :: Kept(k, q))
  }

  // ---- building blocks ------------------------------------------------------------

  /** waitq_pop followed by sched_unblock. */
  function Wake(k: K, q: Queue): K {
    if Q(k, q) == [] then k
    else k.(waitq := k.waitq[q := Q(k, q)[1..]], s := Unblock(k.s, Q(k, q)[0]))
  }

  /** waitq_push, and the state change of sched_block. */
  function Sleep(k: K, q: Queue, op: Op): K {
    k.(waitq := k.waitq[q := Q(k, q) + [k.s.current]],
       pc := k.pc[k.s.current := Waiting(q, op)],
       s := SetStatus(k.s, Blocked))
  }

  function SwitchThreads(k: K): K
    requires k.s.ready != [] && k.s.current in k.s.status
  {
    k.(s := Switch(k.s))
  }

  function ReapThreads(k: K): K {
    k.(s := Reap(k.s), pc := k.pc - (set t | t in k.s.zombies))
  }

  /** The current thread is past its retry loop, or starts to run. */
  function Finish(k: K): K {
    k.(pc := k.pc[k.s.current := Idle])
  }

  /** sched_schedule: a thread that was switched out before reaps; a new one starts. */
  function Dispatch(k: K): K
    requires k.s.ready != [] && k.s.current in k.s.status
  {
    var k1 := SwitchThreads(k);
    if k1.s.current in k.pc && k.pc[k1.s.current] == New then Finish(k1) else ReapThreads(k1)
  }

  /** The popped waiter is blocked, so sched_unblock cannot drop it. */
  lemma WakeShape(k: K, q: Queue)
    requires Shape(k)
    ensures Shape(Wake(k, q))
    ensures forall r :: r != q ==> Q(Wake(k, q), r) == Q(k, r) && Popped(Wake(k, q), r) == Popped(k, r)
    ensures Q(k, q) != [] ==>
              && Q(Wake(k, q), q) == Q(k, q)[1..]
              && Q(k, q)[0] in Wake(k, q).s.ready && Q(k, q)[0] !in Popped(k, q)
              && Popped(Wake(k, q), q) == Popped(k, q) + {Q(k, q)[0]}
    ensures Wake(k, q).s.current == k.s.current
    ensures k.s.status[k.s.current] == Running ==> Wake(k, q).s.status[k.s.current] == Running
  {
    if Q(k, q) != [] {
      var w, k' := Q(k, q)[0], Wake(k, q);
      assert QueueOk(k, q) && w in Q(k, q);
      assert IsBlocked(k, w) && WaitsOn(k, w, q) && PcOk(k, w);
      UnblockPlaced(k.s, w);
      assert forall t :: IsBlocked(k', t) <==> IsBlocked(k, t) && t != w;
      assert forall t, r :: WaitsOn(k', t, r) == WaitsOn(k, t, r);
      forall r ensures QueueOk(k', r) {
        assert QueueOk(k, r);
        if r == q {
          assert Q(k, q) == [w] + Q(k', q);
        } else {
          assert !WaitsOn(k, w, r);
        }
      }
      forall t | t in k'.pc ensures PcOk(k', t) {
        assert PcOk(k, t);
      }
    }
  }

  lemma SleepShape(k: K, q: Queue, op: Op)
    requires Shape(k) && k.s.status[k.s.current] == Running && Exists(k, op)
    requires q == QueueOf(op) || (q.CondQ? && op.Lock?)
    ensures Shape(Sleep(k, q, op)) && Sleep(k, q, op).s.status[k.s.current] == Blocked
    ensures forall r :: Q(Sleep(k, q, op), r) == if r == q then Q(k, q) + [k.s.current] else Q(k, r)
    ensures forall r :: Popped(Sleep(k, q, op), r) == Popped(k, r) - {k.s.current}
  {
    var t, k' := k.s.current, Sleep(k, q, op);
    forall r ensures t !in Q(k, r) { assert QueueOk(k, r); }
    AppendNoDup(Q(k, q), t) by { assert QueueOk(k, q); }
    assert forall u :: IsBlocked(k', u) <==> IsBlocked(k, u) || u == t;
    assert forall u, r :: u != t ==> WaitsOn(k', u, r) == WaitsOn(k, u, r);
    forall r ensures QueueOk(k', r) {
      assert QueueOk(k, r);
      assert forall u :: u in Q(k', r) <==> u in Q(k, r) || (r == q && u == t);
    }
    forall u | u in k'.pc ensures PcOk(k', u) {
      assert PcOk(k, u);
    }
  }

  lemma SwitchShape(k: K)
    requires Shape(k) && k.s.ready != [] && k.s.status[k.s.current] != Ready
    ensures Shape(SwitchThreads(k)) && SwitchThreads(k).s.status[SwitchThreads(k).s.current] == Running
    ensures forall r :: Popped(SwitchThreads(k), r) == Popped(k, r)
  {
    var k' := SwitchThreads(k);
    SwitchPlaced(k.s);
    assert forall t :: IsBlocked(k', t) == IsBlocked(k, t);
    assert forall t, r :: WaitsOn(k', t, r) == WaitsOn(k, t, r);
    forall r ensures QueueOk(k', r) {
      assert QueueOk(k, r);
    }
    forall t | t in k'.pc ensures PcOk(k', t) {
      assert PcOk(k, t);
    }
  }

  lemma ReapShape(k: K)
    requires Shape(k) && k.s.status[k.s.current] == Running
    ensures Shape(ReapThreads(k)) && ReapThreads(k).s.status[k.s.current] == Running
    ensures forall r :: Popped(ReapThreads(k), r) == Popped(k, r)
  {
    var k' := ReapThreads(k);
    ReapPlaced(k.s);
    forall t ensures IsBlocked(k', t) == IsBlocked(k, t) && forall r :: WaitsOn(k', t, r) == WaitsOn(k, t, r) {
      if t in k.pc { assert PcOk(k, t); }
    }
    forall r ensures QueueOk(k', r) {
      assert QueueOk(k, r);
    }
    forall t | t in k'.pc ensures PcOk(k', t) {
      assert PcOk(k, t);
    }
  }

  lemma FinishShape(k: K)
    requires Shape(k) && k.s.status[k.s.current] == Running
    ensures Shape(Finish(k))
    ensures forall r :: Q(Finish(k), r) == Q(k, r) && Popped(Finish(k), r) == Popped(k, r) - {k.s.current}
  {
    var k' := Finish(k);
    assert forall t :: IsBlocked(k', t) == IsBlocked(k, t);
    assert forall t, r :: t != k.s.current ==> WaitsOn(k', t, r) == WaitsOn(k, t, r);
    forall r ensures QueueOk(k', r) {
      assert QueueOk(k, r);
    }
    forall t | t in k'.pc ensures PcOk(k', t) {
      assert PcOk(k, t);
    }
  }

  // ---- effects --------------------------------------------------------------------

  /** What the current thread does to the object once its condition holds. */
  function Effect(k: K, op: Op): K
    requires Exists(k, op) && Avail(k, QueueOf(op)) > 0
  {
    match op
    case Lock(m) => k.(mutexes := k.mutexes[m := Some(k.s.current)])
    case SemWait(x) => k.(sems := k.sems[x := k.sems[x] - 1])
    case Send(ch, slot) => k.(chans := k.chans[ch := k.chans[ch].(msgs := k.chans[ch].msgs + [slot])])
    case Recv(ch, _) => k.(chans := k.chans[ch := k.chans[ch].(msgs := k.chans[ch].msgs[1..])])
  }

  /** The queue whose waiters the effect helps, if any. */
  function Partner(op: Op): Option<Queue> {
    match op
    case Send(ch, _) => Some(RecvQ(ch))
    case Recv(ch, _) => Some(SendQ(ch))
    case _ => None
  }

  lemma EffectShape(k: K, op: Op)
    requires Shape(k) && Exists(k, op) && Avail(k, QueueOf(op)) > 0
    ensures Shape(Effect(k, op))
    ensures forall r :: Q(Effect(k, op), r) == Q(k, r) && Popped(Effect(k, op), r) == Popped(k, r)
    ensures forall r :: Avail(Effect(k, op), r) ==
                        Avail(k, r) - (if r == QueueOf(op) then 1 else 0) + (if Partner(op) == Some(r) then 1 else 0)
  {
    var k' := Effect(k, op);
    assert forall t :: IsBlocked(k', t) == IsBlocked(k, t);
    assert forall t, r :: WaitsOn(k', t, r) == WaitsOn(k, t, r);
    forall r ensures QueueOk(k', r) {
      assert QueueOk(k, r);
    }
    forall t | t in k'.pc ensures PcOk(k', t) {
      assert PcOk(k, t);
    }
  }

  /** One turn of a successful operation: the retry loop ends, the object changes, and one waiter
      of the other side is woken. */
  function Take(k: K, op: Op): K
    requires Exists(k, op) && Avail(k, QueueOf(op)) > 0
  {
    var k1 := Effect(Finish(k), op);
    match Partner(op)
    case Some(q) => Wake(k1, q)
    case None => k1
  }

  /** A receiver that may not accept the capability at the head leaves the message there. */
  predicate Refuses(k: K, op: Op)
    requires Exists(k, op) && Avail(k, QueueOf(op)) > 0
  {
    op.Recv? && !op.takesCap && k.chans[op.ch].msgs[0].hasCap
  }

  /** The current thread may run `op`: it starts it, or comes back into its loop. */
  predicate MayRun(k: K, op: Op) {
    && k.s.current in k.pc && Exists(k, op)
    && (k.pc[k.s.current] == Idle || (k.pc[k.s.current].Waiting? && k.pc[k.s.current].op == op))
  }

  lemma TakeShape(k: K, op: Op)
    requires Inv(k) && MayRun(k, op) && Avail(k, QueueOf(op)) > 0
    ensures Shape(Take(k, op)) && Take(k, op).s.status[Take(k, op).s.current] == Running
  {
    FinishShape(k);
    EffectShape(Finish(k), op);
    if Partner(op).Some? {
      WakeShape(Effect(Finish(k), op), Partner(op).value);
    }
  }

  /** A wake on `q` makes up for one more unit made available there. */
  lemma WakeKept(k: K, q: Queue, r: Queue)
    requires Shape(k)
    requires Q(k, r) != [] ==> Avail(k, r) <= |Popped(k, r)| + (if r == q then 1 else 0)
    ensures Kept(Wake(k, q), r)
  {
    WakeShape(k, q);
  }

  lemma TakeFacts(k: K, op: Op, r: Queue)
    requires Inv(k) && MayRun(k, op) && Avail(k, QueueOf(op)) > 0
    ensures var k1 := Effect(Finish(k), op);
            && Shape(k1) && Q(k1, r) == Q(k, r)
            && Popped(k1, r) == Popped(k, r) - {k.s.current}
            && Avail(k1, r) == Avail(k, r) - (if r == QueueOf(op) then 1 else 0)
                               + (if Partner(op) == Some(r) then 1 else 0)
    ensures k.s.current in Popped(k, r) ==> r == QueueOf(op) || r.CondQ?
  {
    FinishShape(k);
    EffectShape(Finish(k), op);
    assert PcOk(k, k.s.current);
    assert Avail(Finish(k), r) == Avail(k, r);
  }

  lemma TakeKept(k: K, op: Op, r: Queue)
    requires Inv(k) && MayRun(k, op) && Avail(k, QueueOf(op)) > 0
    ensures Kept(Take(k, op), r)
  {
    TakeFacts(k, op, r);
    assert Kept(k, r);
    if Partner(op).Some? {
      WakeKept(Effect(Finish(k), op), Partner(op).value, r);
    }
  }

  lemma TakeKeeps(k: K, op: Op)
    requires Inv(k) && MayRun(k, op) && Avail(k, QueueOf(op)) > 0
    ensures Inv(Take(k, op))
  {
    TakeShape(k, op);
    forall r ensures Kept(Take(k, op), r) {
      TakeKept(k, op, r);
    }
  }

  lemma SleepKeeps(k: K, q: Queue, op: Op)
    requires Shape(k) && k.s.status[k.s.current] == Running && Exists(k, op) && (forall r :: Kept(k, r))
    requires q == QueueOf(op) || (q.CondQ? && op.Lock?)
    requires Avail(k, q) <= 0
    requires forall r :: k.s.current in Popped(k, r) ==> Avail(k, r) <= 0
    ensures Shape(Sleep(k, q, op)) && forall r :: Kept(Sleep(k, q, op), r)
  {
    SleepShape(k, q, op);
    forall r ensures Kept(Sleep(k, q, op), r) {
      assert Kept(k, r);
      assert Avail(Sleep(k, q, op), r) == Avail(k, r);
    }
  }

  lemma DispatchShape(k: K)
    requires Shape(k) && k.s.ready != [] && k.s.status[k.s.current] != Ready
    ensures Shape(Dispatch(k)) && Dispatch(k).s.status[Dispatch(k).s.current] == Running
    ensures forall r :: Popped(Dispatch(k), r) == Popped(k, r)
  {
    SwitchShape(k);
    var k1 := SwitchThreads(k);
    if k1.s.current in k.pc && k.pc[k1.s.current] == New {
      FinishShape(k1);
    } else {
      ReapShape(k1);
    }
  }

  lemma DispatchKeeps(k: K)
    requires Shape(k) && k.s.ready != [] && k.s.status[k.s.current] != Ready && (forall r :: Kept(k, r))
    ensures Inv(Dispatch(k))
  {
    DispatchShape(k);
    DispatchObjects(k);
    forall r ensures Kept(Dispatch(k), r) {
      SameAvail(k, Dispatch(k), r);
      assert Kept(k, r);
    }
  }

  predicate SameObjects(k: K, k': K) {
    k'.waitq == k.waitq && k'.mutexes == k.mutexes && k'.sems == k.sems && k'.chans == k.chans
  }

  lemma SameAvail(k: K, k': K, r: Queue)
    requires SameObjects(k, k')
    ensures Avail(k', r) == Avail(k, r) && Q(k', r) == Q(k, r)
  {
  }

  lemma DispatchObjects(k: K)
    requires k.s.ready != [] && k.s.current in k.s.status
    ensures SameObjects(k, Dispatch(k))
  {
  }

  // ---- steps ----------------------------------------------------------------------

  /** What the running thread can do: enter a blocking operation, go round its loop again after
      a wakeup, try an operation without blocking, unlock, post, wait on a condition, signal,
      broadcast, yield or be preempted, exit, or create a thread. */
  datatype Event =
    | Enter(op: Op) | Retry | Try(op: Op)
    | Release(m: int) | Post(x: int)
    | CondWait(c: int, m: int) | Signal(c: int) | Broadcast(c: int)
    | YieldCpu | Terminate | Spawn(t: Tid)

  predicate Enabled(k: K, ev: Event) {
    && k.s.current in k.pc && k.s.current in k.s.status && k.s.status[k.s.current] == Running
    && match ev
       case Retry => k.pc[k.s.current].Waiting? && Exists(k, k.pc[k.s.current].op)
       case Enter(op) => k.pc[k.s.current] == Idle && Exists(k, op)
       case Try(op) => k.pc[k.s.current] == Idle && Exists(k, op)
       case Release(m) => k.pc[k.s.current] == Idle && m in k.mutexes && k.mutexes[m] == Some(k.s.current)
       case Post(x) => k.pc[k.s.current] == Idle && x in k.sems
       case CondWait(_, m) => k.pc[k.s.current] == Idle && m in k.mutexes && k.mutexes[m] == Some(k.s.current)
       case Spawn(t) => k.pc[k.s.current] == Idle && t !in k.s.status && t !in k.pc
       case _ => k.pc[k.s.current] == Idle
  }

  /** The operation of an Enter, Retry or Try. */
  function OpOf(k: K, ev: Event): Op
    requires Enabled(k, ev) && (ev.Enter? || ev.Retry? || ev.Try?)
  {
    if ev.Retry? then k.pc[k.s.current].op else ev.op
  }

  function Unlocked(k: K, m: int): K {
    Wake(k.(mutexes := k.mutexes[m := None]), MutexQ(m))
  }

  function Posted(k: K, x: int): K
    requires x in k.sems
  {
    Wake(k.(sems := k.sems[x := k.sems[x] + 1]), SemQ(x))
  }

  /** The step ends in sched_schedule with the current thread blocked or dead. */
  predicate GivesUp(k: K, ev: Event)
    requires Enabled(k, ev)
  {
    match ev
    case Enter(op) => Avail(k, QueueOf(op)) <= 0
    case Retry => Avail(k, QueueOf(OpOf(k, ev))) <= 0
    case CondWait(_, _) => true
    case Terminate => true
    case _ => false
  }

  /** The state in which such a step calls sched_schedule. */
  function Before(k: K, ev: Event): K
    requires Enabled(k, ev) && GivesUp(k, ev)
  {
    if ev.CondWait? then Sleep(Unlocked(k, ev.m), CondQ(ev.c), Lock(ev.m))
    else if ev.Terminate? then k.(s := Exit(k.s))
    else Sleep(k, QueueOf(OpOf(k, ev)), OpOf(k, ev))
  }

  /** "no runnable thread" */
  predicate Panics(k: K, ev: Event)
    requires Enabled(k, ev)
  {
    GivesUp(k, ev) && (Before(k, ev).s.ready == [] || k.s.current !in Before(k, ev).s.status)
  }

  function WakeAll(k: K, q: Queue): K
    decreases |Q(k, q)|
  {
    if Q(k, q) == [] then k else WakeAll(Wake(k, q), q)
  }

  /** An operation that does not sleep: it fails, is refused, or succeeds. */
  function Attempt(k: K, op: Op): K
    requires Exists(k, op)
  {
    if Avail(k, QueueOf(op)) <= 0 then k
    else if Refuses(k, op) then Finish(k)
    else Take(k, op)
  }

  function Next(k: K, ev: Event): K
    requires Enabled(k, ev) && !Panics(k, ev)
  {
    if GivesUp(k, ev) then
      assert Before(k, ev).s.current == k.s.current;
      Dispatch(Before(k, ev))
    else if ev.Enter? || ev.Retry? || ev.Try? then
      Attempt(k, OpOf(k, ev))
    else
      match ev
      case Release(m) => Unlocked(k, m)
      case Post(x) => Posted(k, x)
      case Signal(c) => Wake(k, CondQ(c))
      case Broadcast(c) => WakeAll(k, CondQ(c))
      case YieldCpu => if k.s.ready == [] then k else Dispatch(k)
      case Spawn(t) => k.(s := k.s.(ready := k.s.ready + [t], status := k.s.status[t := Ready]), pc := k.pc[t := New])
      case _ => k
  }

  /** A woken receiver finds a capability it may not take and leaves without the message. */
  predicate WastesWakeup(k: K, ev: Event)
    requires Enabled(k, ev)
  {
    ev.Retry? && Avail(k, QueueOf(OpOf(k, ev))) > 0 && Refuses(k, OpOf(k, ev))
  }

  // ---- every step keeps the invariant ----------------------------------------------

  lemma AttemptKeeps(k: K, op: Op)
    requires Inv(k) && MayRun(k, op)
    requires Avail(k, QueueOf(op)) > 0 && Refuses(k, op) ==> k.pc[k.s.current] == Idle
    ensures Inv(Attempt(k, op))
  {
    if Avail(k, QueueOf(op)) > 0 {
      if Refuses(k, op) {
        assert Finish(k) == k;
      } else {
        TakeKeeps(k, op);
      }
    }
  }

  lemma BlockKeeps(k: K, ev: Event)
    requires Inv(k) && Enabled(k, ev) && (ev.Enter? || ev.Retry?) && GivesUp(k, ev)
    ensures Shape(Before(k, ev)) && forall r :: Kept(Before(k, ev), r)
  {
    var op := OpOf(k, ev);
    assert PcOk(k, k.s.current);
    SleepKeeps(k, QueueOf(op), op);
  }

  /** Objects other than the threads may change as long as the queues keep their promises. */
  lemma ObjectsShape(k: K, k': K)
    requires Shape(k) && k'.s == k.s && k'.waitq == k.waitq && k'.pc == k.pc
    requires k'.mutexes.Keys == k.mutexes.Keys && k'.sems.Keys == k.sems.Keys && k'.chans == k.chans
    ensures Shape(k') && forall r :: Q(k', r) == Q(k, r) && Popped(k', r) == Popped(k, r)
  {
    assert forall t :: IsBlocked(k', t) == IsBlocked(k, t);
    assert forall t, r :: WaitsOn(k', t, r) == WaitsOn(k, t, r);
    forall r ensures QueueOk(k', r) { assert QueueOk(k, r); }
    forall t | t in k'.pc ensures PcOk(k', t) { assert PcOk(k, t); }
  }

  lemma UnlockKeeps(k: K, m: int)
    requires Inv(k) && m in k.mutexes && k.mutexes[m] != None
    ensures Inv(Unlocked(k, m))
    ensures Unlocked(k, m).s.current == k.s.current && Unlocked(k, m).pc == k.pc
  {
    var k1 := k.(mutexes := k.mutexes[m := None]);
    ObjectsShape(k, k1);
    WakeShape(k1, MutexQ(m));
    forall r ensures Kept(Unlocked(k, m), r) {
      assert Kept(k, r);
      WakeKept(k1, MutexQ(m), r);
    }
  }

  lemma PostKeeps(k: K, x: int)
    requires Inv(k) && x in k.sems
    ensures Inv(Posted(k, x))
  {
    var k1 := k.(sems := k.sems[x := k.sems[x] + 1]);
    ObjectsShape(k, k1);
    WakeShape(k1, SemQ(x));
    forall r ensures Kept(Wake(k1, SemQ(x)), r) {
      assert Kept(k, r);
      WakeKept(k1, SemQ(x), r);
    }
  }

  lemma WakeKeeps(k: K, q: Queue)
    requires Inv(k)
    ensures Inv(Wake(k, q))
  {
    WakeShape(k, q);
    forall r ensures Kept(Wake(k, q), r) {
      assert Kept(k, r);
      WakeKept(k, q, r);
    }
  }

  lemma {:induction false} WakeAllKeeps(k: K, q: Queue)
    requires Inv(k)
    ensures Inv(WakeAll(k, q)) && Q(WakeAll(k, q), q) == []
    decreases |Q(k, q)|
  {
    if Q(k, q) != [] {
      WakeKeeps(k, q);
      WakeAllKeeps(Wake(k, q), q);
    }
  }

  lemma CondWaitKeeps(k: K, ev: Event)
    requires Inv(k) && ev.CondWait? && Enabled(k, ev)
    ensures Shape(Before(k, ev)) && forall r :: Kept(Before(k, ev), r)
  {
    UnlockKeeps(k, ev.m);
    SleepKeeps(Unlocked(k, ev.m), CondQ(ev.c), Lock(ev.m));
  }

  lemma ExitShape(k: K)
    requires Shape(k) && k.s.status[k.s.current] == Running && k.pc[k.s.current] == Idle
    ensures Shape(k.(s := Exit(k.s))) && forall r :: Popped(k.(s := Exit(k.s)), r) == Popped(k, r)
  {
    var k' := k.(s := Exit(k.s));
    ExitPlaced(k.s);
    assert forall t :: IsBlocked(k', t) == IsBlocked(k, t);
    assert forall t, r :: WaitsOn(k', t, r) == WaitsOn(k, t, r);
    forall r ensures QueueOk(k', r) { assert QueueOk(k, r); }
    forall t | t in k'.pc ensures PcOk(k', t) { assert PcOk(k, t); }
  }

  lemma SpawnShape(k: K, t: Tid)
    requires Shape(k) && Enabled(k, Spawn(t)) && !Panics(k, Spawn(t))
    ensures Shape(Next(k, Spawn(t))) && forall r :: Popped(Next(k, Spawn(t)), r) == Popped(k, r)
  {
    var k' := Next(k, Spawn(t));
    AppendNoDup(k.s.ready, t);
    assert forall u :: u in k'.s.ready <==> u in k.s.ready || u == t;
    assert forall u :: IsBlocked(k', u) == IsBlocked(k, u);
    assert forall u, r :: WaitsOn(k', u, r) == WaitsOn(k, u, r);
    forall r ensures QueueOk(k', r) {
      assert QueueOk(k, r);
    }
    forall u | u in k'.pc ensures PcOk(k', u) {
      if u != t { assert PcOk(k, u); }
    }
  }

  lemma SpawnKeeps(k: K, t: Tid)
    requires Inv(k) && Enabled(k, Spawn(t)) && !Panics(k, Spawn(t))
    ensures Inv(Next(k, Spawn(t)))
  {
    SpawnShape(k, t);
    forall r ensures Kept(Next(k, Spawn(t)), r) {
      assert Kept(k, r);
      SameAvail(k, Next(k, Spawn(t)), r);
    }
  }

  lemma TerminateKeeps(k: K)
    requires Inv(k) && k.pc[k.s.current] == Idle
    ensures Shape(k.(s := Exit(k.s))) && forall r :: Kept(k.(s := Exit(k.s)), r)
  {
    ExitShape(k);
    var k' := k.(s := Exit(k.s));
    forall r ensures Kept(k', r) {
      assert Kept(k, r);
      SameAvail(k, k', r);
    }
  }

  lemma GiveUpKeeps(k: K, ev: Event)
    requires Inv(k) && Enabled(k, ev) && GivesUp(k, ev) && !Panics(k, ev)
    ensures Inv(Next(k, ev))
  {
    if ev.CondWait? {
      CondWaitKeeps(k, ev);
    } else if ev.Terminate? {
      TerminateKeeps(k);
    } else {
      BlockKeeps(k, ev);
    }
    DispatchKeeps(Before(k, ev));
  }

  lemma ReleaseStep(k: K, ev: Event)
    requires Inv(k) && Enabled(k, ev) && !Panics(k, ev) && ev.Release?
    ensures Inv(Next(k, ev))
  {
    UnlockKeeps(k, ev.m);
    assert Next(k, ev) == Unlocked(k, ev.m);
  }

  lemma PostStep(k: K, ev: Event)
    requires Inv(k) && Enabled(k, ev) && !Panics(k, ev) && ev.Post?
    ensures Inv(Next(k, ev))
  {
    PostKeeps(k, ev.x);
    assert Next(k, ev) == Posted(k, ev.x);
  }

  lemma SignalStep(k: K, ev: Event)
    requires Inv(k) && Enabled(k, ev) && !Panics(k, ev) && ev.Signal?
    ensures Inv(Next(k, ev))
  {
    WakeKeeps(k, CondQ(ev.c));
  }

  lemma BroadcastStep(k: K, ev: Event)
    requires Inv(k) && Enabled(k, ev) && !Panics(k, ev) && ev.Broadcast?
    ensures Inv(Next(k, ev))
  {
    WakeAllKeeps(k, CondQ(ev.c));
  }

  lemma YieldStep(k: K, ev: Event)
    requires Inv(k) && Enabled(k, ev) && !Panics(k, ev) && ev.YieldCpu?
    ensures Inv(Next(k, ev))
  {
    if k.s.ready != [] { DispatchKeeps(k); }
  }

  lemma SpawnStep(k: K, ev: Event)
    requires Inv(k) && Enabled(k, ev) && !Panics(k, ev) && ev.Spawn?
    ensures Inv(Next(k, ev))
  {
    SpawnKeeps(k, ev.t);
  }

  lemma TryStep(k: K, ev: Event)
    requires Inv(k) && Enabled(k, ev) && !Panics(k, ev) && (ev.Enter? || ev.Retry? || ev.Try?) && !GivesUp(k, ev)
             && !WastesWakeup(k, ev)
    ensures Inv(Next(k, ev))
  {
    AttemptKeeps(k, OpOf(k, ev));
    assert Next(k, ev) == Attempt(k, OpOf(k, ev));
  }

  /** Every step of every thread keeps the invariant, unless it wastes a wakeup. */
  lemma StepKeeps(k: K, ev: Event)
    requires Inv(k) && Enabled(k, ev) && !Panics(k, ev) && !WastesWakeup(k, ev)
    ensures Inv(Next(k, ev))
  {
    if GivesUp(k, ev) {
      GiveUpKeeps(k, ev);
    } else {
      match ev
      case Release(_) => ReleaseStep(k, ev);
      case Post(_) => PostStep(k, ev);
      case Signal(_) => SignalStep(k, ev);
      case Broadcast(_) => BroadcastStep(k, ev);
      case YieldCpu => YieldStep(k, ev);
      case Spawn(_) => SpawnStep(k, ev);
      case Enter(_) => TryStep(k, ev);
      case Retry => TryStep(k, ev);
      case Try(_) => TryStep(k, ev);
    }
  }

  /** A wasted wakeup is harmless exactly when nobody else sleeps on the channel or another
      thread is already awake for every message in it. */
  lemma WasteIsHarmlessIff(k: K, ev: Event)
    requires Inv(k) && Enabled(k, ev) && !Panics(k, ev) && WastesWakeup(k, ev)
    ensures var q := QueueOf(OpOf(k, ev));
            Inv(Next(k, ev)) <==> Q(k, q) == [] || Avail(k, q) < |Popped(k, q)|
  {
    var q, k' := QueueOf(OpOf(k, ev)), Next(k, ev);
    assert k' == Finish(k);
    FinishShape(k);
    assert PcOk(k, k.s.current) && k.s.current in Popped(k, q);
    forall r ensures r != q ==> Kept(k', r) {
      assert Kept(k, r);
      SameAvail(k, k', r);
      if r != q { assert k.s.current !in Popped(k, r); }
    }
    SameAvail(k, k', q);
    assert |Popped(k', q)| == |Popped(k, q)| - 1;
    assert Inv(k') ==> Kept(k', q);
  }
}
