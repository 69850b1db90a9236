/** What every step of a kernel thread does, in the terms of the kernel's own state: who sleeps where,
    who is ready in which order, who holds which mutex, what semaphores count.  From it follow mutual
    exclusion and the conservation of semaphores over whole runs. */
module KernelLaws {
  import opened Basics
  import opened Sched
  import opened Blocking
  import opened KernelRuns

  // ---- the vocabulary ------------------------------------------------------------------------

  ghost predicate SameObjects(k: K, k': K) {
    k'.mutexes == k.mutexes && k'.sems == k.sems && k'.chans == k.chans
  }

  ghost predicate SameQueuesBut(k: K, k': K, q: Queue) {
    forall r :: r != q ==> Q(k', r) == Q(k, r)
  }

  ghost predicate SameThreads(k: K, k': K) {
    k'.s == k.s
  }

  /** The first sleeper on `q`, if there is one, is off the queue and last in the ready list; nobody else
      has moved. */
  ghost predicate WokeFirst(k: K, k': K, q: Queue) {
    && SameQueuesBut(k, k', q) && k'.s.current == k.s.current && k'.s.zombies == k.s.zombies
    && if Q(k, q) == [] then Q(k', q) == [] && SameThreads(k, k')
       else
         var t := Q(k, q)[0];
         && Q(k', q) == Q(k, q)[1..] && k'.s.ready == k.s.ready + [t]
         && t in k.s.status && k'.s.status == k.s.status[t := Ready]
  }

  /** Everybody who slept on `q` is ready now, in the order of the queue. */
  ghost predicate WokeAll(k: K, k': K, q: Queue) {
    && SameQueuesBut(k, k', q) && Q(k', q) == [] && k'.s.current == k.s.current && k'.s.zombies == k.s.zombies
    && k'.s.ready == k.s.ready + Q(k, q) && k'.s.status.Keys == k.s.status.Keys
    && forall t :: t in k.s.status ==> k'.s.status[t] == if t in Q(k, q) then Ready else k.s.status[t]
  }

  /** The CPU went from a thread whose state is now in `st` to the first of `ready`, which runs for the
      first time or, if it has run before, frees the zombies. */
  ghost predicate HandedOver(k: K, k': K, ready: seq<Tid>, zombies: seq<Tid>, st: map<Tid, Status>) {
    && ready != [] && ready[0] in k.pc
    && var next, starts := ready[0], k.pc[ready[0]] == New;
       && k'.s.current == next && k'.s.ready == ready[1..]
       && k'.s.zombies == (if starts then zombies else [])
       && (forall t :: t in k'.s.status <==> t in st && (starts || t !in zombies))
       && (forall t :: t in k'.s.status ==> k'.s.status[t] == if t == next then Running else st[t])
  }

  /** The operation can go on: a free mutex, a positive count, room in the channel, or a message that the
      receiver may take. */
  predicate CanFinish(k: K, op: Op)
    requires Exists(k, op)
  {
    match op
    case Lock(m) => k.mutexes[m] == None
    case SemWait(x) => k.sems[x] > 0
    case Send(ch, _) => |k.chans[ch].msgs| < k.chans[ch].capacity
    case Recv(ch, takesCap) => k.chans[ch].msgs != [] && (takesCap || !k.chans[ch].msgs[0].hasCap)
  }

  /** A message is there, but the receiver may not take its capability. */
  predicate MustRefuse(k: K, op: Op)
    requires Exists(k, op)
  {
    op.Recv? && k.chans[op.ch].msgs != [] && !op.takesCap && k.chans[op.ch].msgs[0].hasCap
  }

  /** The thread has its mutex, has counted down, or has put in or taken out its message, and one thread
      that waits for that is awake. */
  ghost predicate Finished(k: K, k': K, op: Op)
    requires Exists(k, op)
  {
    match op
    case Lock(m) =>
      && k'.mutexes == k.mutexes[m := Some(k.s.current)] && k'.sems == k.sems && k'.chans == k.chans
      && SameThreads(k, k') && forall q :: Q(k', q) == Q(k, q)
    case SemWait(x) =>
      && k'.sems == k.sems[x := k.sems[x] - 1] && k'.mutexes == k.mutexes && k'.chans == k.chans
      && SameThreads(k, k') && forall q :: Q(k', q) == Q(k, q)
    case Send(ch, slot) =>
      && k'.chans == k.chans[ch := Chan(k.chans[ch].capacity, k.chans[ch].msgs + [slot])]
      && k'.mutexes == k.mutexes && k'.sems == k.sems && WokeFirst(k, k', RecvQ(ch))
    case Recv(ch, _) =>
      && k.chans[ch].msgs != [] && k'.chans == k.chans[ch := Chan(k.chans[ch].capacity, k.chans[ch].msgs[1..])]
      && k'.mutexes == k.mutexes && k'.sems == k.sems && WokeFirst(k, k', SendQ(ch))
  }

  predicate SleepsOn(op: Op, q: Queue) {
    match op
    case Lock(m) => q == MutexQ(m)
    case SemWait(x) => q == SemQ(x)
    case Send(ch, _) => q == SendQ(ch)
    case Recv(ch, _) => q == RecvQ(ch)
  }

  /** The caller is last on `q` and off the CPU, and no object has changed. */
  ghost predicate FellAsleep(k: K, k': K, q: Queue) {
    && SameObjects(k, k') && SameQueuesBut(k, k', q) && Q(k', q) == Q(k, q) + [k.s.current]
    && HandedOver(k, k', k.s.ready, k.s.zombies, k.s.status[k.s.current := Blocked])
  }

  /** The three cases are the ones that the retry loops tell apart. */
  lemma Decides(k: K, op: Op)
    requires Shape(k) && Exists(k, op)
    ensures CanFinish(k, op) <==> Avail(k, QueueOf(op)) > 0 && !Refuses(k, op)
    ensures MustRefuse(k, op) <==> Avail(k, QueueOf(op)) > 0 && Refuses(k, op)
    ensures SleepsOn(op, QueueOf(op))
  {
    if op.Send? || op.Recv? { assert ChanOk(k.chans[op.ch]); }
  }

  // ---- the laws --------------------------------------------------------------------------------

  lemma WakeIsFirst(k: K, k1: K, q: Queue)
    requires Shape(k) && k1.s == k.s && k1.waitq == k.waitq
    ensures WokeFirst(k, Wake(k1, q), q)
    ensures Wake(k1, q).mutexes == k1.mutexes && Wake(k1, q).sems == k1.sems && Wake(k1, q).chans == k1.chans
  {
    assert QueueOk(k, q);
    if Q(k, q) != [] { assert Q(k, q)[0] in Q(k, q) && IsBlocked(k, Q(k, q)[0]); }
  }

  /** cond_signal wakes exactly the thread that has waited longest. */
  lemma SignalLaw(k: K, c: int)
    requires Sound(k) && Enabled(k, Signal(c))
    ensures var k' := Next(k, Signal(c)); WokeFirst(k, k', CondQ(c)) && SameObjects(k, k') && k'.pc == k.pc
  {
    WakeIsFirst(k, k, CondQ(c));
  }

  lemma {:induction false} WakeAllIs(k: K, q: Queue)
    requires Shape(k)
    ensures WokeAll(k, WakeAll(k, q), q) && SameObjects(k, WakeAll(k, q)) && WakeAll(k, q).pc == k.pc
    decreases |Q(k, q)|
  {
    if Q(k, q) != [] {
      WakeIsFirst(k, k, q);
      WakeShape(k, q);
      WakeAllIs(Wake(k, q), q);
      FirstThenRest(k, Wake(k, q), WakeAll(k, q), q);
    }
  }

  lemma FirstThenRest(k: K, k1: K, k2: K, q: Queue)
    requires Q(k, q) != [] && WokeFirst(k, k1, q) && WokeAll(k1, k2, q)
    ensures WokeAll(k, k2, q)
  {
    var ts := Q(k, q);
    assert ts == [ts[0]] + ts[1..];
    assert k.s.ready + [ts[0]] + ts[1..] == k.s.ready + ts;
    assert forall t :: t in ts <==> t == ts[0] || t in ts[1..];
  }

  /** cond_broadcast wakes all of them, in the order in which they came. */
  lemma BroadcastLaw(k: K, c: int)
    requires Sound(k) && Enabled(k, Broadcast(c))
    ensures var k' := Next(k, Broadcast(c)); WokeAll(k, k', CondQ(c)) && SameObjects(k, k') && k'.pc == k.pc
  {
    WakeAllIs(k, CondQ(c));
  }

  /** mutex_unlock frees the mutex and wakes the first waiter. */
  lemma ReleaseLaw(k: K, m: int)
    requires Sound(k) && Enabled(k, Release(m))
    ensures var k' := Next(k, Release(m));
            && WokeFirst(k, k', MutexQ(m)) && k'.mutexes == k.mutexes[m := None]
            && k'.sems == k.sems && k'.chans == k.chans && k'.pc == k.pc
  {
    WakeIsFirst(k, k.(mutexes := k.mutexes[m := None]), MutexQ(m));
  }

  /** sem_post counts up and wakes the first waiter. */
  lemma PostLaw(k: K, x: int)
    requires Sound(k) && Enabled(k, Post(x))
    ensures var k' := Next(k, Post(x));
            && WokeFirst(k, k', SemQ(x)) && k'.sems == k.sems[x := k.sems[x] + 1]
            && k'.mutexes == k.mutexes && k'.chans == k.chans && k'.pc == k.pc
  {
    WakeIsFirst(k, k.(sems := k.sems[x := k.sems[x] + 1]), SemQ(x));
  }

  /** A new thread is ready, behind all others. */
  lemma SpawnLaw(k: K, t: Tid)
    requires Sound(k) && Enabled(k, Spawn(t))
    ensures var k' := Next(k, Spawn(t));
            && SameObjects(k, k') && (forall q :: Q(k', q) == Q(k, q)) && k'.pc == k.pc[t := New]
            && k'.s == S(k.s.current, k.s.ready + [t], k.s.zombies, k.s.status[t := Ready])
  {
  }

  /** An operation that can go on does, whether it was just started, woken, or only tried. */
  lemma FinishLaw(k: K, ev: Event)
    requires Sound(k) && Enabled(k, ev) && (ev.Enter? || ev.Retry? || ev.Try?) && CanFinish(k, OpOf(k, ev))
    ensures !Panics(k, ev)
    ensures Finished(k, Next(k, ev), OpOf(k, ev)) && Next(k, ev).pc == k.pc[k.s.current := Idle]
  {
    var op := OpOf(k, ev);
    Decides(k, op);
    TakeIs(k, op);
    assert Next(k, ev) == Take(k, op);
  }

  lemma TakeIs(k: K, op: Op)
    requires Shape(k) && Exists(k, op) && Avail(k, QueueOf(op)) > 0
    ensures Finished(k, Take(k, op), op) && Take(k, op).pc == k.pc[k.s.current := Idle]
  {
    var k1 := Effect(Finish(k), op);
    if op.Send? { WakeIsFirst(k, k1, RecvQ(op.ch)); }
    if op.Recv? { WakeIsFirst(k, k1, SendQ(op.ch)); }
  }

  /** A receiver that may not take the capability leaves the message where it is and goes on. */
  lemma RefuseLaw(k: K, ev: Event)
    requires Sound(k) && Enabled(k, ev) && (ev.Enter? || ev.Retry? || ev.Try?) && MustRefuse(k, OpOf(k, ev))
    ensures !Panics(k, ev)
    ensures var k' := Next(k, ev);
            && SameObjects(k, k') && SameThreads(k, k') && (forall q :: Q(k', q) == Q(k, q))
            && k'.pc == k.pc[k.s.current := Idle]
  {
    Decides(k, OpOf(k, ev));
  }

  /** A try that cannot go on changes nothing. */
  lemma TryLaw(k: K, op: Op)
    requires Sound(k) && Enabled(k, Try(op)) && !CanFinish(k, op) && !MustRefuse(k, op)
    ensures Next(k, Try(op)) == k
  {
    Decides(k, op);
  }

  lemma DispatchIs(k: K, k1: K)
    requires k1.s.current in k1.s.status && k1.s.ready != [] && k1.s.status[k1.s.current] != Running
    requires k1.s.ready[0] in k1.pc && k1.s.ready[0] in k.pc
    requires k1.pc[k1.s.ready[0]] == New <==> k.pc[k1.s.ready[0]] == New
    requires k1.s.ready[0] in k1.s.status && k1.s.ready[0] !in k1.s.zombies
    ensures var k' := Dispatch(k1);
            && HandedOver(k, k', k1.s.ready, k1.s.zombies, k1.s.status)
            && SameObjects(k1, k') && k'.waitq == k1.waitq
  {
  }

  lemma ReadyIsAlive(k: K)
    requires Shape(k) && k.s.ready != []
    ensures k.s.ready[0] in k.pc && k.s.ready[0] in k.s.status && k.s.status[k.s.ready[0]] == Ready
    ensures k.s.ready[0] !in k.s.zombies
  {
    var t := k.s.ready[0];
    assert t in k.s.ready && ListHolds(k.s, k.s.ready, Ready) && ListHolds(k.s, k.s.zombies, Dead);
    assert t in k.s.status.Keys && t in k.pc.Keys;
  }

  /** An operation that cannot go on puts its caller last on the queue of the object. */
  lemma SleepLaw(k: K, ev: Event)
    requires Sound(k) && Enabled(k, ev) && (ev.Enter? || ev.Retry?) && !Panics(k, ev)
    requires !CanFinish(k, OpOf(k, ev)) && !MustRefuse(k, OpOf(k, ev))
    ensures exists q :: SleepsOn(OpOf(k, ev), q) && FellAsleep(k, Next(k, ev), q)
    ensures k.s.current in Next(k, ev).pc && Next(k, ev).pc[k.s.current].Waiting?
            && Next(k, ev).pc[k.s.current].op == OpOf(k, ev)
  {
    var op := OpOf(k, ev);
    Decides(k, op);
    Slept(k, QueueOf(op), op);
    assert Next(k, ev) == Dispatch(Sleep(k, QueueOf(op), op));
  }

  lemma Slept(k: K, q: Queue, op: Op)
    requires Sound(k) && k.s.ready != [] && k.s.current in k.pc
    ensures var k' := Dispatch(Sleep(k, q, op));
            FellAsleep(k, k', q) && k.s.current in k'.pc && k'.pc[k.s.current] == Waiting(q, op)
  {
    var k1 := Sleep(k, q, op);
    ReadyIsAlive(k);
    DispatchIs(k, k1);
    assert k.s.current !in k.s.zombies;
  }

  /** cond_wait frees the mutex, wakes the first thread that waits for it, and puts the caller last on the
      queue of the condition, in one step. */
  lemma CondWaitLaw(k: K, c: int, m: int)
    requires Sound(k) && Enabled(k, CondWait(c, m)) && !Panics(k, CondWait(c, m))
    ensures var k', w, t := Next(k, CondWait(c, m)), Q(k, MutexQ(m)), k.s.current;
            && k'.mutexes == k.mutexes[m := None] && k'.sems == k.sems && k'.chans == k.chans
            && Q(k', CondQ(c)) == Q(k, CondQ(c)) + [t] && Q(k', MutexQ(m)) == (if w == [] then [] else w[1..])
            && (forall r :: r != CondQ(c) && r != MutexQ(m) ==> Q(k', r) == Q(k, r))
            && HandedOver(k, k', k.s.ready + (if w == [] then [] else [w[0]]), k.s.zombies,
                          (if w == [] then k.s.status else k.s.status[w[0] := Ready])[t := Blocked])
  {
    var k0 := k.(mutexes := k.mutexes[m := None]);
    WakeIsFirst(k, k0, MutexQ(m));
    UnlockSound(k, m);
    Slept(Unlocked(k, m), CondQ(c), Lock(m));
    WokeThenSlept(k, Unlocked(k, m), Next(k, CondWait(c, m)), MutexQ(m), CondQ(c));
  }

  lemma WokeThenSlept(k: K, k1: K, k': K, p: Queue, q: Queue)
    requires p != q && WokeFirst(k, k1, p) && FellAsleep(k1, k', q) && k1.pc == k.pc
    ensures var w, t := Q(k, p), k.s.current;
            && Q(k', q) == Q(k, q) + [t] && Q(k', p) == (if w == [] then [] else w[1..])
            && (forall r :: r != p && r != q ==> Q(k', r) == Q(k, r))
            && HandedOver(k, k', k.s.ready + (if w == [] then [] else [w[0]]), k.s.zombies,
                          (if w == [] then k.s.status else k.s.status[w[0] := Ready])[t := Blocked])
  {
    assert Q(k, p) == [] ==> k.s.ready + [] == k.s.ready;
  }

  /** thread_exit: dead, on the zombie list, and gone as soon as a thread that ran before takes over. */
  lemma TerminateLaw(k: K)
    requires Sound(k) && Enabled(k, Terminate) && !Panics(k, Terminate)
    ensures var k' := Next(k, Terminate);
            && SameObjects(k, k') && (forall q :: Q(k', q) == Q(k, q))
            && HandedOver(k, k', k.s.ready, k.s.zombies + [k.s.current], k.s.status[k.s.current := Dead])
  {
    ReadyIsAlive(k);
    DispatchIs(k, k.(s := Exit(k.s)));
  }

  /** A yield goes behind everybody who is ready. */
  lemma YieldLaw(k: K)
    requires Sound(k) && Enabled(k, YieldCpu)
    ensures var k' := Next(k, YieldCpu);
            && SameObjects(k, k') && (forall q :: Q(k', q) == Q(k, q))
            && if k.s.ready == [] then k' == k
               else HandedOver(k, k', k.s.ready + [k.s.current], k.s.zombies, k.s.status[k.s.current := Ready])
  {
    if k.s.ready != [] { ReadyIsAlive(k); }
  }

  // ---- whole runs ------------------------------------------------------------------------------

  /** Mutual exclusion: a mutex that a thread holds stays with it through every step, until that very
      thread unlocks it or waits on a condition with it; and nobody gets one that is held. */
  lemma MutexStays(k: K, ev: Event, m: int, t: Tid)
    requires Sound(k) && Enabled(k, ev) && !Panics(k, ev) && m in k.mutexes && k.mutexes[m] == Some(t)
    ensures var k' := Next(k, ev);
            && m in k'.mutexes
            && k'.mutexes[m] == if k.s.current == t && (ev == Release(m) || (ev.CondWait? && ev.m == m)) then None
                                else Some(t)
  {
    match ev
    case Release(n) => ReleaseLaw(k, n);
    case Post(x) => PostLaw(k, x);
    case CondWait(c, n) => CondWaitLaw(k, c, n);
    case Signal(c) => SignalLaw(k, c);
    case Broadcast(c) => BroadcastLaw(k, c);
    case YieldCpu => YieldLaw(k);
    case Terminate => TerminateLaw(k);
    case Spawn(u) => SpawnLaw(k, u);
    case _ => MutexStaysIn(k, ev, m, t);
  }

  lemma MutexStaysIn(k: K, ev: Event, m: int, t: Tid)
    requires Sound(k) && Enabled(k, ev) && !Panics(k, ev) && m in k.mutexes && k.mutexes[m] == Some(t)
    requires ev.Enter? || ev.Retry? || ev.Try?
    ensures m in Next(k, ev).mutexes && Next(k, ev).mutexes[m] == Some(t)
  {
    var op := OpOf(k, ev);
    if CanFinish(k, op) {
      FinishLaw(k, ev);
    } else if MustRefuse(k, op) {
      RefuseLaw(k, ev);
    } else if !ev.Try? {
      SleepLaw(k, ev);
    }
  }

  /** Thread `t` neither unlocks `m` nor waits on a condition with it. */
  ghost predicate KeepsHold(k: K, evs: seq<Event>, m: int, t: Tid)
    requires Legal(k, evs)
    decreases |evs|
  {
    evs == [] || (!(k.s.current == t && (evs[0] == Release(m) || (evs[0].CondWait? && evs[0].m == m)))
                  && KeepsHold(Next(k, evs[0]), evs[1..], m, t))
  }

  /** Some thread gets `m` in the course of the run. */
  ghost predicate Locked(k: K, evs: seq<Event>, m: int)
    requires Legal(k, evs)
    decreases |evs|
  {
    evs != [] && (((evs[0].Enter? || evs[0].Retry? || evs[0].Try?) && OpOf(k, evs[0]) == Lock(m)
                   && Next(k, evs[0]).mutexes != k.mutexes)
                  || Locked(Next(k, evs[0]), evs[1..], m))
  }

  /** In every run, from the moment a thread has a mutex until it gives it up, nobody else gets it. */
  lemma {:induction false} MutualExclusion(k: K, evs: seq<Event>, m: int, t: Tid)
    requires Sound(k) && Legal(k, evs) && m in k.mutexes && k.mutexes[m] == Some(t) && KeepsHold(k, evs, m, t)
    ensures m in After(k, evs).mutexes && After(k, evs).mutexes[m] == Some(t) && !Locked(k, evs, m)
    decreases |evs|
  {
    if evs != [] {
      MutexStays(k, evs[0], m, t);
      StepSound(k, evs[0]);
      if (evs[0].Enter? || evs[0].Retry? || evs[0].Try?) && OpOf(k, evs[0]) == Lock(m) { NotLocked(k, evs[0], m); }
      MutualExclusion(Next(k, evs[0]), evs[1..], m, t);
    }
  }

  lemma NotLocked(k: K, ev: Event, m: int)
    requires Sound(k) && Enabled(k, ev) && !Panics(k, ev) && (ev.Enter? || ev.Retry? || ev.Try?)
    requires OpOf(k, ev) == Lock(m) && k.mutexes[m] != None
    ensures Next(k, ev).mutexes == k.mutexes
  {
    if ev.Try? { TryLaw(k, Lock(m)); } else { SleepLaw(k, ev); }
  }

  /** How many posts and how many completed waits a run holds. */
  ghost function Posts(evs: seq<Event>, x: int): int {
    if evs == [] then 0 else (if evs[0] == Post(x) then 1 else 0) + Posts(evs[1..], x)
  }

  ghost function Waits(k: K, evs: seq<Event>, x: int): int
    requires Legal(k, evs)
    decreases |evs|
  {
    if evs == [] then 0
    else
      var op := evs[0].Enter? || evs[0].Retry? || evs[0].Try?;
      (if op && OpOf(k, evs[0]) == SemWait(x) && CanFinish(k, SemWait(x)) then 1 else 0)
      + Waits(Next(k, evs[0]), evs[1..], x)
  }

  lemma SemStep(k: K, ev: Event, x: int)
    requires Sound(k) && Enabled(k, ev) && !Panics(k, ev) && x in k.sems && k.sems[x] >= 0
    ensures var k', op := Next(k, ev), ev.Enter? || ev.Retry? || ev.Try?;
            && x in k'.sems && k'.sems[x] >= 0
            && k'.sems[x] == k.sems[x] + (if ev == Post(x) then 1 else 0)
                             - (if op && OpOf(k, ev) == SemWait(x) && CanFinish(k, SemWait(x)) then 1 else 0)
  {
    match ev
    case Release(n) => ReleaseLaw(k, n);
    case Post(y) => PostLaw(k, y);
    case CondWait(c, n) => CondWaitLaw(k, c, n);
    case Signal(c) => SignalLaw(k, c);
    case Broadcast(c) => BroadcastLaw(k, c);
    case YieldCpu => YieldLaw(k);
    case Terminate => TerminateLaw(k);
    case Spawn(u) => SpawnLaw(k, u);
    case _ => SemStepIn(k, ev, x);
  }

  lemma SemStepIn(k: K, ev: Event, x: int)
    requires Sound(k) && Enabled(k, ev) && !Panics(k, ev) && x in k.sems && k.sems[x] >= 0
    requires ev.Enter? || ev.Retry? || ev.Try?
    ensures x in Next(k, ev).sems && Next(k, ev).sems[x] >= 0
    ensures Next(k, ev).sems[x]
            == k.sems[x] - if OpOf(k, ev) == SemWait(x) && CanFinish(k, SemWait(x)) then 1 else 0
  {
    var op := OpOf(k, ev);
    if CanFinish(k, op) {
      FinishLaw(k, ev);
    } else if MustRefuse(k, op) {
      RefuseLaw(k, ev);
    } else if !ev.Try? {
      SleepLaw(k, ev);
    }
  }

  /** In every run a semaphore is its first value and the posts, less the waits that got through. */
  lemma {:induction false} SemaphoresCount(k: K, evs: seq<Event>, x: int)
    requires Sound(k) && Legal(k, evs) && x in k.sems && k.sems[x] >= 0
    ensures x in After(k, evs).sems && After(k, evs).sems[x] == k.sems[x] + Posts(evs, x) - Waits(k, evs, x) >= 0
    decreases |evs|
  {
    if evs != [] {
      SemStep(k, evs[0], x);
      StepSound(k, evs[0]);
      SemaphoresCount(Next(k, evs[0]), evs[1..], x);
    }
  }
}
