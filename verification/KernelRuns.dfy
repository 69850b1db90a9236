/** Whole runs of the kernel's threads: no lost wakeup, one place per thread, round-robin turns,
    and no panic while the boot thread stays runnable. */
module KernelRuns {
  import opened Basics
  import opened Sched
  import opened Blocking

  const BOOT: Tid := 0

  /** Boot: one running thread, nobody waiting, any set of objects. */
  ghost predicate Init(k: K) {
    && k.s == S(BOOT, [], [], map[BOOT := Running])
    && k.pc == map[BOOT := Idle] && k.waitq == map[]
    && (forall ch :: ch in k.chans ==> ChanOk(k.chans[ch]))
  }

  ghost predicate Legal(k: K, evs: seq<Event>)
    decreases |evs|
  {
    evs == [] || (Enabled(k, evs[0]) && !Panics(k, evs[0]) && Legal(Next(k, evs[0]), evs[1..]))
  }

  ghost function After(k: K, evs: seq<Event>): K
    requires Legal(k, evs)
    decreases |evs|
  {
    if evs == [] then k else After(Next(k, evs[0]), evs[1..])
  }

  /** A woken receiver may turn its message down only while nobody else sleeps on the channel, or
      while another thread is awake for every message in it. */
  ghost predicate Harmless(k: K, ev: Event)
    requires Enabled(k, ev)
  {
    WastesWakeup(k, ev) ==>
      var q := QueueOf(OpOf(k, ev)); Q(k, q) == [] || Avail(k, q) < |Popped(k, q)|
  }

  ghost predicate HarmlessRun(k: K, evs: seq<Event>)
    requires Legal(k, evs)
    decreases |evs|
  {
    evs == [] || (Harmless(k, evs[0]) && HarmlessRun(Next(k, evs[0]), evs[1..]))
  }

  /** Every step keeps the invariant exactly when it is harmless. */
  lemma StepKeepsIff(k: K, ev: Event)
    requires Inv(k) && Enabled(k, ev) && !Panics(k, ev)
    ensures Inv(Next(k, ev)) <==> Harmless(k, ev)
  {
    if WastesWakeup(k, ev) {
      WasteIsHarmlessIff(k, ev);
    } else {
      StepKeeps(k, ev);
    }
  }

  lemma InitInv(k: K)
    requires Init(k)
    ensures Inv(k)
  {
    assert forall q :: Q(k, q) == [];
    forall t | t in k.pc ensures PcOk(k, t) {
    }
    assert forall q :: QueueOk(k, q) && Kept(k, q);
  }

  lemma {:induction false} RunKeeps(k: K, evs: seq<Event>)
    requires Inv(k) && Legal(k, evs) && HarmlessRun(k, evs)
    ensures Inv(After(k, evs))
    decreases |evs|
  {
    if evs != [] {
      StepKeepsIff(k, evs[0]);
      RunKeeps(Next(k, evs[0]), evs[1..]);
    }
  }

  /** No lost wakeups, in every state of every run in which receivers turn messages down only where
      that is harmless: sleepers on a mutex mean it is locked or somebody is awake for it; sleepers on a
      semaphore, a full channel or an empty one mean that what is available is covered by threads
      already awake. */
  lemma NoLostWakeups(k: K, evs: seq<Event>, q: Queue)
    requires Init(k) && Legal(k, evs) && HarmlessRun(k, evs)
    ensures Q(After(k, evs), q) != [] ==> Avail(After(k, evs), q) <= |Popped(After(k, evs), q)|
  {
    InitInv(k);
    RunKeeps(k, evs);
    assert Kept(After(k, evs), q);
  }

  // ---- scheduling, in all runs ------------------------------------------------------

  ghost predicate Sound(k: K) {
    Shape(k) && k.s.status[k.s.current] == Running
  }

  lemma TakeSound(k: K, op: Op)
    requires Sound(k) && Exists(k, op) && Avail(k, QueueOf(op)) > 0
    ensures Sound(Take(k, op)) && Take(k, op).s.current == k.s.current && k.s.ready <= Take(k, op).s.ready
    ensures KeepsStatus(k.s, Take(k, op).s)
  {
    FinishShape(k);
    EffectShape(Finish(k), op);
    if Partner(op).Some? {
      WakeSound(Effect(Finish(k), op), Partner(op).value);
    }
  }

  /** No thread that could run stopped being able to. */
  ghost predicate KeepsStatus(s: S, s': S) {
    forall t :: t in s.status && (s.status[t] == Ready || s.status[t] == Running) ==>
      t in s'.status && (s'.status[t] == Ready || s'.status[t] == Running)
  }

  lemma WakeSound(k: K, q: Queue)
    requires Sound(k)
    ensures Sound(Wake(k, q)) && Wake(k, q).s.current == k.s.current
    ensures k.s.ready <= Wake(k, q).s.ready && KeepsStatus(k.s, Wake(k, q).s) && Wake(k, q).pc == k.pc
  {
    WakeShape(k, q);
  }

  lemma {:induction false} WakeAllSound(k: K, q: Queue)
    requires Sound(k)
    ensures Sound(WakeAll(k, q)) && WakeAll(k, q).s.current == k.s.current
    ensures k.s.ready <= WakeAll(k, q).s.ready && KeepsStatus(k.s, WakeAll(k, q).s)
    decreases |Q(k, q)|
  {
    if Q(k, q) != [] {
      WakeSound(k, q);
      WakeAllSound(Wake(k, q), q);
    }
  }

  lemma UnlockSound(k: K, m: int)
    requires Sound(k) && m in k.mutexes
    ensures Sound(Unlocked(k, m)) && Unlocked(k, m).s.current == k.s.current
    ensures k.s.ready <= Unlocked(k, m).s.ready && KeepsStatus(k.s, Unlocked(k, m).s)
    ensures Unlocked(k, m).pc == k.pc && Exists(Unlocked(k, m), Lock(m))
  {
    ObjectsShape(k, k.(mutexes := k.mutexes[m := None]));
    WakeSound(k.(mutexes := k.mutexes[m := None]), MutexQ(m));
  }

  lemma PostSound(k: K, x: int)
    requires Sound(k) && x in k.sems
    ensures Sound(Posted(k, x)) && Posted(k, x).s.current == k.s.current
    ensures k.s.ready <= Posted(k, x).s.ready && KeepsStatus(k.s, Posted(k, x).s)
  {
    ObjectsShape(k, k.(sems := k.sems[x := k.sems[x] + 1]));
    WakeSound(k.(sems := k.sems[x := k.sems[x] + 1]), SemQ(x));
  }

  /** sched_schedule runs the head of the ready list and keeps the rest in order; only the thread
      that gave up the CPU may stop being runnable. */
  lemma DispatchSound(k: K)
    requires Shape(k) && k.s.ready != [] && k.s.status[k.s.current] != Ready
    ensures Sound(Dispatch(k)) && Dispatch(k).s.current == k.s.ready[0]
    ensures k.s.ready[1..] <= Dispatch(k).s.ready && KeepsStatus(k.s, Dispatch(k).s)
  {
    DispatchShape(k);
    var s1 := Switch(k.s);
    assert KeepsStatus(k.s, s1);
    SwitchPlaced(k.s);
    ReapPlaced(s1);
  }

  predicate Switches(k: K, ev: Event)
    requires Enabled(k, ev)
  {
    GivesUp(k, ev) || (ev.YieldCpu? && k.s.ready != [])
  }

  lemma BeforeSound(k: K, ev: Event)
    requires Sound(k) && Enabled(k, ev) && GivesUp(k, ev)
    ensures var b := Before(k, ev);
            && Shape(b) && b.s.current == k.s.current && b.s.status[k.s.current] != Ready
            && k.s.ready <= b.s.ready
            && (forall t :: t != k.s.current && t in k.s.status && (k.s.status[t] == Ready || k.s.status[t] == Running)
                  ==> t in b.s.status && (b.s.status[t] == Ready || b.s.status[t] == Running))
  {
    if ev.CondWait? {
      UnlockSound(k, ev.m);
      SleepShape(Unlocked(k, ev.m), CondQ(ev.c), Lock(ev.m));
    } else if ev.Terminate? {
      ExitShape(k);
    } else {
      SleepShape(k, QueueOf(OpOf(k, ev)), OpOf(k, ev));
    }
  }

  /** A step that switches. */
  lemma SwitchStep(k: K, ev: Event)
    requires Sound(k) && Enabled(k, ev) && !Panics(k, ev) && Switches(k, ev)
    ensures Sound(Next(k, ev))
    ensures k.s.ready != [] ==> Next(k, ev).s.current == k.s.ready[0] && k.s.ready[1..] <= Next(k, ev).s.ready
    ensures forall t :: (GivesUp(k, ev) ==> t != k.s.current) && CanRun(k, t) ==> CanRun(Next(k, ev), t)
  {
    if GivesUp(k, ev) {
      BeforeSound(k, ev);
      DispatchSound(Before(k, ev));
    } else {
      DispatchSound(k);
    }
  }

  predicate CanRun(k: K, t: Tid) {
    t in k.s.status && (k.s.status[t] == Ready || k.s.status[t] == Running)
  }

  /** A step that does not. */
  lemma QuietStep(k: K, ev: Event)
    requires Sound(k) && Enabled(k, ev) && !Panics(k, ev) && !Switches(k, ev)
    ensures Sound(Next(k, ev)) && k.s.ready <= Next(k, ev).s.ready
    ensures forall t :: CanRun(k, t) ==> CanRun(Next(k, ev), t)
  {
    if ev.Enter? || ev.Retry? || ev.Try? {
      AttemptSound(k, OpOf(k, ev));
    } else {
      match ev
      case Release(m) => UnlockSound(k, m);
      case Post(x) => PostSound(k, x);
      case Signal(c) => WakeSound(k, CondQ(c));
      case Broadcast(c) => WakeAllSound(k, CondQ(c));
      case Spawn(t) => SpawnSound(k, t);
      case YieldCpu =>
    }
  }

  lemma AttemptSound(k: K, op: Op)
    requires Sound(k) && Exists(k, op)
    ensures Sound(Attempt(k, op)) && k.s.ready <= Attempt(k, op).s.ready
    ensures KeepsStatus(k.s, Attempt(k, op).s)
  {
    if Avail(k, QueueOf(op)) > 0 {
      if Refuses(k, op) { FinishShape(k); } else { TakeSound(k, op); }
    }
  }

  lemma SpawnSound(k: K, t: Tid)
    requires Sound(k) && Enabled(k, Spawn(t)) && !Panics(k, Spawn(t))
    ensures Sound(Next(k, Spawn(t)))
  {
    SpawnShape(k, t);
  }

  lemma StepSound(k: K, ev: Event)
    requires Sound(k) && Enabled(k, ev) && !Panics(k, ev)
    ensures Sound(Next(k, ev))
  {
    if Switches(k, ev) { SwitchStep(k, ev); } else { QuietStep(k, ev); }
  }

  lemma {:induction false} RunSound(k: K, evs: seq<Event>)
    requires Sound(k) && Legal(k, evs)
    ensures Sound(After(k, evs))
    decreases |evs|
  {
    if evs != [] {
      StepSound(k, evs[0]);
      RunSound(Next(k, evs[0]), evs[1..]);
    }
  }

  function B(b: bool): int {
    if b then 1 else 0
  }

  /** In every reachable state each thread that has not been freed is in exactly one place, its
      state field says which, and it sits in at most one wait queue. */
  lemma OnePlace(k: K, evs: seq<Event>, t: Tid)
    requires Init(k) && Legal(k, evs) && t in After(k, evs).s.status
    ensures var k' := After(k, evs);
            && B(t == k'.s.current) + B(t in k'.s.ready) + B(t in k'.s.zombies) + B(exists q :: t in Q(k', q)) == 1
            && (t == k'.s.current <==> k'.s.status[t] == Running)
            && (t in k'.s.ready <==> k'.s.status[t] == Ready)
            && (t in k'.s.zombies <==> k'.s.status[t] == Dead)
            && ((exists q :: t in Q(k', q)) <==> k'.s.status[t] == Blocked)
            && (forall q, r :: t in Q(k', q) && t in Q(k', r) ==> q == r)
  {
    InitInv(k);
    RunSound(k, evs);
    var k' := After(k, evs);
    assert PcOk(k', t);
    forall q ensures t in Q(k', q) <==> IsBlocked(k', t) && WaitsOn(k', t, q) {
      assert QueueOk(k', q);
    }
    if k'.s.status[t] == Blocked {
      assert t in Q(k', k'.pc[t].q);
    }
  }

  /** Every event is possible and the boot thread neither blocks nor exits. */
  ghost predicate BootStays(k: K, evs: seq<Event>)
    decreases |evs|
  {
    evs == [] ||
    (&& Enabled(k, evs[0])
     && !(k.s.current == BOOT && GivesUp(k, evs[0]))
     && (!Panics(k, evs[0]) ==> BootStays(Next(k, evs[0]), evs[1..])))
  }

  lemma {:induction false} BootKeepsRunning(k: K, evs: seq<Event>)
    requires Sound(k) && CanRun(k, BOOT) && BootStays(k, evs)
    ensures Legal(k, evs)
    decreases |evs|
  {
    if evs != [] {
      var ev := evs[0];
      if GivesUp(k, ev) {
        BeforeSound(k, ev);
        assert BOOT in k.s.ready;
      }
      if Switches(k, ev) { SwitchStep(k, ev); } else { QuietStep(k, ev); }
      BootKeepsRunning(Next(k, ev), evs[1..]);
    }
  }

  /** The "no runnable thread" panic cannot happen while the boot thread stays runnable. */
  lemma NeverPanics(k: K, evs: seq<Event>)
    requires Init(k) && BootStays(k, evs)
    ensures Legal(k, evs)
  {
    InitInv(k);
    BootKeepsRunning(k, evs);
  }

  ghost function SwitchCount(k: K, evs: seq<Event>): nat
    requires Legal(k, evs)
    decreases |evs|
  {
    if evs == [] then 0
    else (if Switches(k, evs[0]) then 1 else 0) + SwitchCount(Next(k, evs[0]), evs[1..])
  }

  ghost predicate EndsInSwitch(k: K, evs: seq<Event>)
    requires Legal(k, evs) && evs != []
    decreases |evs|
  {
    if |evs| == 1 then Switches(k, evs[0]) else EndsInSwitch(Next(k, evs[0]), evs[1..])
  }

  /** Where thread `t`, now at `pos` in the ready list, is after the run. */
  ghost predicate TurnOk(k: K, evs: seq<Event>, pos: nat, t: Tid)
    requires Legal(k, evs)
  {
    var n, k' := SwitchCount(k, evs), After(k, evs);
    && (n <= pos ==> pos - n < |k'.s.ready| && k'.s.ready[pos - n] == t)
    && (n == pos + 1 && evs != [] && EndsInSwitch(k, evs) ==> k'.s.current == t)
  }

  /** Round robin: the thread at position `pos` of the ready list gets the CPU at exactly the
      (pos+1)-th switch, whatever the threads do, and moves up by one at each switch before. */
  lemma {:induction false} TurnComes(k: K, evs: seq<Event>, pos: nat)
    requires Sound(k) && Legal(k, evs) && pos < |k.s.ready|
    ensures TurnOk(k, evs, pos, k.s.ready[pos])
    decreases |evs|
  {
    if evs != [] {
      if !Switches(k, evs[0]) {
        QuietStep(k, evs[0]);
        TurnComes(Next(k, evs[0]), evs[1..], pos);
      } else if pos == 0 {
        HeadRuns(k, evs);
      } else {
        SwitchStep(k, evs[0]);
        assert k.s.ready[1..][pos - 1] == k.s.ready[pos];
        TurnComes(Next(k, evs[0]), evs[1..], pos - 1);
      }
    }
  }

  lemma HeadRuns(k: K, evs: seq<Event>)
    requires Sound(k) && Legal(k, evs) && evs != [] && k.s.ready != [] && Switches(k, evs[0])
    ensures TurnOk(k, evs, 0, k.s.ready[0])
  {
    SwitchStep(k, evs[0]);
    if SwitchCount(k, evs) == 1 && |evs| > 1 {
      NoSwitchNoEnd(Next(k, evs[0]), evs[1..]);
    }
  }

  lemma {:induction false} NoSwitchNoEnd(k: K, evs: seq<Event>)
    requires Legal(k, evs) && evs != [] && SwitchCount(k, evs) == 0
    ensures !EndsInSwitch(k, evs)
    decreases |evs|
  {
    if |evs| > 1 {
      NoSwitchNoEnd(Next(k, evs[0]), evs[1..]);
    }
  }

  // ---- a run that loses a wakeup ------------------------------------------------------

  lemma Cons(k: K, ev: Event, rest: seq<Event>)
    requires Enabled(k, ev) && !Panics(k, ev) && Legal(Next(k, ev), rest)
    ensures Legal(k, [ev] + rest) && After(k, [ev] + rest) == After(Next(k, ev), rest)
  {
    assert ([ev] + rest)[1..] == rest;
  }

  const PLAIN := Recv(0, false)
  const CAPABLE := Recv(0, true)
  const MESSAGE := Slot(7, true)
  const RECEIVERS := RecvQ(0)

  function Scene(s: S, q: seq<Tid>, pc: map<Tid, Pc>, msgs: seq<Slot>): K {
    K(s, map[RECEIVERS := q], pc, map[], map[], map[0 := Chan(4, msgs)])
  }

  /** Both receivers sleep, the boot thread runs. */
  function BothAsleep(): K {
    Scene(S(0, [], [], map[0 := Running, 1 := Blocked, 2 := Blocked]), [1, 2],
          map[0 := Idle, 1 := Waiting(RECEIVERS, PLAIN), 2 := Waiting(RECEIVERS, CAPABLE)], [])
  }

  /** One message with a capability wakes the first receiver only. */
  lemma SendWakesFirst() returns (k: K)
    ensures Enabled(BothAsleep(), Enter(Send(0, MESSAGE))) && !Panics(BothAsleep(), Enter(Send(0, MESSAGE)))
    ensures k == Next(BothAsleep(), Enter(Send(0, MESSAGE)))
    ensures k == Scene(S(0, [1], [], map[0 := Running, 1 := Ready, 2 := Blocked]), [2],
                       map[0 := Idle, 1 := Waiting(RECEIVERS, PLAIN), 2 := Waiting(RECEIVERS, CAPABLE)], [MESSAGE])
  {
    k := Next(BothAsleep(), Enter(Send(0, MESSAGE)));
    assert [] + [MESSAGE] == [MESSAGE] && [1, 2][1..] == [2];
    assert k.waitq == map[RECEIVERS := [2]];
    assert k.s.status == map[0 := Running, 1 := Ready, 2 := Blocked];
    assert k.pc == BothAsleep().pc;
  }

  lemma FirstRefuses(k: K) returns (k2: K)
    requires k == Scene(S(0, [1], [], map[0 := Running, 1 := Ready, 2 := Blocked]), [2],
                        map[0 := Idle, 1 := Waiting(RECEIVERS, PLAIN), 2 := Waiting(RECEIVERS, CAPABLE)], [MESSAGE])
    ensures Legal(k, [YieldCpu, Retry]) && k2 == After(k, [YieldCpu, Retry])
    ensures Q(k2, RECEIVERS) == [2] && Avail(k2, RECEIVERS) == 1 && Popped(k2, RECEIVERS) == {}
  {
    var k1 := Next(k, YieldCpu);
    assert k1.s.current == 1 && k1.pc == k.pc && k1.s.status[1] == Running && k1.s.status[2] == Blocked;
    k2 := Next(k1, Retry);
    assert k2 == Finish(k1);
    Cons(k1, Retry, []);
    Cons(k, YieldCpu, [Retry]);
    assert [YieldCpu] + [Retry] == [YieldCpu, Retry] && [Retry] + [] == [Retry];
  }

  lemma TwoSpawned(k: K) returns (k1: K, k2: K)
    requires k == K(S(0, [], [], map[0 := Running]), map[], map[0 := Idle], map[], map[], map[0 := Chan(4, [])])
    ensures Enabled(k, Spawn(1)) && !Panics(k, Spawn(1)) && k1 == Next(k, Spawn(1))
    ensures Enabled(k1, Spawn(2)) && !Panics(k1, Spawn(2)) && k2 == Next(k1, Spawn(2))
    ensures k2.s == S(0, [1, 2], [], map[0 := Running, 1 := Ready, 2 := Ready])
    ensures k2.pc == map[0 := Idle, 1 := New, 2 := New] && k2.waitq == map[]
    ensures k2.mutexes == map[] && k2.sems == map[] && k2.chans == map[0 := Chan(4, [])]
  {
    k1 := Next(k, Spawn(1));
    assert k1.s == S(0, [1], [], map[0 := Running, 1 := Ready]) && k1.pc == map[0 := Idle, 1 := New];
    k2 := Next(k1, Spawn(2));
  }

  /** Getting there from boot: create two threads and let both receive from the empty channel. */
  lemma ReceiversFallAsleep() returns (k: K, evs: seq<Event>)
    ensures Init(k) && Legal(k, evs) && After(k, evs) == BothAsleep()
  {
    k := K(S(0, [], [], map[0 := Running]), map[], map[0 := Idle], map[], map[], map[0 := Chan(4, [])]);
    var k1, k2 := TwoSpawned(k);
    var k3 := Next(k2, YieldCpu);
    assert k3.s == S(1, [2, 0], [], map[0 := Ready, 1 := Running, 2 := Ready]);
    assert k3.pc == map[0 := Idle, 1 := Idle, 2 := New];
    var k5, evs3 := BothBlock(k3);
    Cons(k2, YieldCpu, evs3);
    Cons(k1, Spawn(2), [YieldCpu] + evs3);
    Cons(k, Spawn(1), [Spawn(2)] + ([YieldCpu] + evs3));
    evs := [Spawn(1)] + ([Spawn(2)] + ([YieldCpu] + evs3));
  }

  lemma FirstBlocks(k3: K) returns (k4: K)
    requires k3.s == S(1, [2, 0], [], map[0 := Ready, 1 := Running, 2 := Ready])
    requires k3.pc == map[0 := Idle, 1 := Idle, 2 := New] && k3.waitq == map[]
    requires k3.mutexes == map[] && k3.sems == map[] && k3.chans == map[0 := Chan(4, [])]
    ensures Enabled(k3, Enter(PLAIN)) && !Panics(k3, Enter(PLAIN)) && k4 == Next(k3, Enter(PLAIN))
    ensures k4 == Scene(S(2, [0], [], map[0 := Ready, 1 := Blocked, 2 := Running]), [1],
                        map[0 := Idle, 1 := Waiting(RECEIVERS, PLAIN), 2 := Idle], [])
  {
    k4 := Next(k3, Enter(PLAIN));
    assert k4.s.status == map[0 := Ready, 1 := Blocked, 2 := Running] && k4.s.ready == [0];
    assert k4.pc == map[0 := Idle, 1 := Waiting(RECEIVERS, PLAIN), 2 := Idle];
    assert Q(k4, RECEIVERS) == [1] && k4.waitq == map[RECEIVERS := [1]];
  }

  lemma BothBlock(k3: K) returns (k5: K, evs: seq<Event>)
    requires k3.s == S(1, [2, 0], [], map[0 := Ready, 1 := Running, 2 := Ready])
    requires k3.pc == map[0 := Idle, 1 := Idle, 2 := New] && k3.waitq == map[]
    requires k3.mutexes == map[] && k3.sems == map[] && k3.chans == map[0 := Chan(4, [])]
    ensures Legal(k3, evs) && k5 == After(k3, evs)
    ensures k5 == BothAsleep()
  {
    var k4 := FirstBlocks(k3);
    k5 := SecondBlocks(k4);
    evs := [Enter(PLAIN)] + ([Enter(CAPABLE)] + []);
    Cons(k4, Enter(CAPABLE), []);
    Cons(k3, Enter(PLAIN), [Enter(CAPABLE)] + []);
  }

  lemma SecondBlocks(k4: K) returns (k5: K)
    requires k4 == Scene(S(2, [0], [], map[0 := Ready, 1 := Blocked, 2 := Running]), [1],
                         map[0 := Idle, 1 := Waiting(RECEIVERS, PLAIN), 2 := Idle], [])
    ensures Enabled(k4, Enter(CAPABLE)) && !Panics(k4, Enter(CAPABLE)) && k5 == Next(k4, Enter(CAPABLE))
    ensures k5 == BothAsleep()
  {
    k5 := Next(k4, Enter(CAPABLE));
    assert k5.s.ready == [] && k5.s.status == map[0 := Running, 1 := Blocked, 2 := Blocked];
    assert k5.pc == BothAsleep().pc;
    assert Q(k4, RECEIVERS) == [1] && [1] + [2] == [1, 2];
    assert k5.waitq == map[RECEIVERS := [1, 2]];
  }

  lemma {:induction false} Append(k: K, a: seq<Event>, b: seq<Event>)
    requires Legal(k, a) && Legal(After(k, a), b)
    ensures Legal(k, a + b) && After(k, a + b) == After(After(k, a), b)
    decreases |a|
  {
    if a == [] {
      assert a + b == b;
    } else {
      Append(Next(k, a[0]), a[1..], b);
      FirstStep(k, a + b, a[1..] + b, Next(k, a[0]));
    }
  }

  /** A run is its first step and the rest. */
  lemma FirstStep(k: K, evs: seq<Event>, rest: seq<Event>, k': K)
    requires evs != [] && evs[1..] == rest && Enabled(k, evs[0]) && !Panics(k, evs[0])
    requires k' == Next(k, evs[0]) && Legal(k', rest)
    ensures Legal(k, evs) && After(k, evs) == After(k', rest)
  {
  }

  /** From boot to a state where a receiver that could take the waiting message sleeps on, and
      nobody is awake to wake it. */
  lemma LostWakeup() returns (k: K, evs: seq<Event>)
    ensures Init(k) && Legal(k, evs)
    ensures Q(After(k, evs), RECEIVERS) == [2] && Avail(After(k, evs), RECEIVERS) == 1
    ensures Popped(After(k, evs), RECEIVERS) == {}
  {
    var evs1;
    k, evs1 := ReceiversFallAsleep();
    var send := Enter(Send(0, MESSAGE));
    var k6 := SendWakesFirst();
    var k8 := FirstRefuses(k6);
    Cons(BothAsleep(), send, [YieldCpu, Retry]);
    evs := evs1 + ([send] + [YieldCpu, Retry]);
    Append(k, evs1, [send] + [YieldCpu, Retry]);
  }
}
