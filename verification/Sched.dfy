/** The round-robin scheduler (src/kernel/core/sched.c) and the intrusive FIFO lists it and the
    wait queues share (src/kernel/include/exyde/waitq.h). */
module Sched {
  import opened Basics

  type Tid = int

  datatype Status = Ready | Running | Blocked | Dead

  predicate NoDup(q: seq<Tid>) {
    forall i, j :: 0 <= i < j < |q| ==> q[i] != q[j]
  }

  type Links = map<Tid, Option<Tid>>

  ghost predicate LinkOk(next: Links, q: seq<Tid>, i: int)
    requires 0 <= i < |q|
  {
    q[i] in next && next[q[i]] == if i + 1 < |q| then Some(q[i + 1]) else None
  }

  /** `head`, `tail` and the links through the threads themselves represent the queue `q`. */
  ghost predicate IsList(next: Links, head: Option<Tid>, tail: Option<Tid>, q: seq<Tid>) {
    && NoDup(q)
    && head == (if q == [] then None else Some(q[0]))
    && tail == (if q == [] then None else Some(q[|q| - 1]))
    && forall i :: 0 <= i < |q| ==> LinkOk(next, q, i)
  }

  /** The stores of an append: the new last thread, and the link of the old one. */
  function PushLinks(next: Links, tail: Option<Tid>, t: Tid): Links {
    if tail == None then next[t := None] else next[t := None][tail.value := Some(t)]
  }

  lemma PushIsList(next: Links, head: Option<Tid>, tail: Option<Tid>, q: seq<Tid>, t: Tid)
    requires IsList(next, head, tail, q) && t !in q
    ensures IsList(PushLinks(next, tail, t), if tail == None then Some(t) else head, Some(t), q + [t])
  {
    var next', q' := PushLinks(next, tail, t), q + [t];
    forall i | 0 <= i < |q'|
      ensures LinkOk(next', q', i)
    {
      if i < |q| { assert LinkOk(next, q, i); }
    }
  }

  /** Stores to threads outside a list do not touch it. */
  lemma ListKept(next: Links, next': Links, head: Option<Tid>, tail: Option<Tid>, q: seq<Tid>)
    requires IsList(next, head, tail, q)
    requires forall t :: t in q ==> t in next && t in next' && next'[t] == next[t]
    ensures IsList(next', head, tail, q)
  {
    forall i | 0 <= i < |q|
      ensures LinkOk(next', q, i)
    {
      assert LinkOk(next, q, i) && q[i] in q;
    }
  }

  lemma PopIsList(next: Links, head: Option<Tid>, tail: Option<Tid>, q: seq<Tid>)
    requires IsList(next, head, tail, q) && q != [] && q[0] in next
    ensures var h := next[q[0]];
            IsList(next[q[0] := None], h, if h == None then None else tail, q[1..])
  {
    var next', q' := next[q[0] := None], q[1..];
    assert LinkOk(next, q, 0);
    forall i | 0 <= i < |q'|
      ensures LinkOk(next', q', i)
    {
      assert LinkOk(next, q, i + 1);
    }
  }

  /** A waitq_t. */
  datatype Ends = Ends(head: Option<Tid>, tail: Option<Tid>)

  /** Every wait queue is linked, and no thread is on two of them. */
  ghost predicate AreQueues(next: Links, ends: map<int, Ends>, qs: map<int, seq<Tid>>) {
    && ends.Keys == qs.Keys
    && (forall q :: q in qs ==> q in ends && IsList(next, ends[q].head, ends[q].tail, qs[q]))
    && (forall p, q :: p in qs && q in qs && p != q ==> Disjoint(qs[p], qs[q]))
  }

  ghost predicate Disjoint(p: seq<Tid>, q: seq<Tid>) {
    forall t :: t in p ==> t !in q
  }

  /** An append to one queue leaves all the others linked. */
  lemma PushKeepsQueues(next: Links, ends: map<int, Ends>, qs: map<int, seq<Tid>>, q: int, t: Tid)
    requires AreQueues(next, ends, qs) && q in qs && forall p :: p in qs ==> t !in qs[p]
    ensures var e := ends[q];
            AreQueues(PushLinks(next, e.tail, t), ends[q := Ends(if e.tail == None then Some(t) else e.head, Some(t))],
                      qs[q := qs[q] + [t]])
  {
    PushIsList(next, ends[q].head, ends[q].tail, qs[q], t);
    forall p | p in qs && p != q
      ensures IsList(PushLinks(next, ends[q].tail, t), ends[p].head, ends[p].tail, qs[p])
    {
      assert Disjoint(qs[q], qs[p]);
      PushSpares(next, ends[q].head, ends[q].tail, qs[q], t, ends[p].head, ends[p].tail, qs[p]);
    }
    forall p | p in qs && p != q
      ensures Disjoint(qs[p], qs[q] + [t]) && Disjoint(qs[q] + [t], qs[p])
    {
      assert Disjoint(qs[p], qs[q]) && Disjoint(qs[q], qs[p]);
    }
  }

  /** So does taking the first thread off. */
  lemma PopKeepsQueues(next: Links, ends: map<int, Ends>, qs: map<int, seq<Tid>>, q: int)
    requires AreQueues(next, ends, qs) && q in qs && qs[q] != [] && qs[q][0] in next
    ensures var h := next[qs[q][0]];
            AreQueues(next[qs[q][0] := None], ends[q := Ends(h, if h == None then None else ends[q].tail)],
                      qs[q := qs[q][1..]])
  {
    PopIsList(next, ends[q].head, ends[q].tail, qs[q]);
    FirstAndRest(qs[q]);
    forall p | p in qs && p != q
      ensures IsList(next[qs[q][0] := None], ends[p].head, ends[p].tail, qs[p])
      ensures Disjoint(qs[p], qs[q][1..]) && Disjoint(qs[q][1..], qs[p])
    {
      assert Disjoint(qs[p], qs[q]) && Disjoint(qs[q], qs[p]);
      StoreSpares(next, qs[q][0], None, ends[p].head, ends[p].tail, qs[p]);
    }
  }

  /** All wait queues of the kernel, linked through the one field `wait_next` of the threads. */
  class WaitQueues {
    var ends: map<int, Ends>
    var next: Links
    ghost var contents: map<int, seq<Tid>>

    ghost predicate Valid()
      reads this
    {
      AreQueues(next, ends, contents)
    }

    constructor ()
      ensures Valid() && contents == map[]
    {
      ends, next, contents := map[], map[], map[];
    }

    /** waitq_init of a queue not in use. */
    method Init(q: int)
      requires Valid() && (q in contents ==> contents[q] == [])
      modifies this
      ensures Valid() && contents == old(contents)[q := []]
    {
      ends := ends[q := Ends(None, None)];
      contents := contents[q := []];
    }

    /** waitq_push: append at the tail of one queue; all others stay as they are. */
    method Push(q: int, t: Tid)
      requires Valid() && q in contents && forall p :: p in contents ==> t !in contents[p]
      modifies this
      ensures Valid() && contents == old(contents)[q := old(contents)[q] + [t]]
    {
      PushKeepsQueues(next, ends, contents, q, t);
      var e := ends[q];
      next := next[t := None];
      if e.tail != None {
        next := next[e.tail.value := Some(t)];
        ends := ends[q := Ends(e.head, Some(t))];
      } else {
        ends := ends[q := Ends(Some(t), Some(t))];
      }
      contents := contents[q := contents[q] + [t]];
    }

    /** waitq_pop: take the thread that has waited longest on one queue; all others stay as they are. */
    method Pop(q: int) returns (r: Option<Tid>)
      requires Valid() && q in contents
      modifies this
      ensures Valid()
      ensures old(contents)[q] == [] ==> r == None && contents == old(contents)
      ensures old(contents)[q] != [] ==>
                r == Some(old(contents)[q][0]) && contents == old(contents)[q := old(contents)[q][1..]]
    {
      var e := ends[q];
      if e.head == None {
        return None;
      }
      var t := e.head.value;
      assert LinkOk(next, contents[q], 0);
      PopKeepsQueues(next, ends, contents, q);
      ends := ends[q := Ends(next[t], if next[t] == None then None else e.tail)];
      next := next[t := None];
      r := Some(t);
      contents := contents[q := contents[q][1..]];
    }
  }

  /** What sched.c keeps: the running thread, the ready list, the zombie list, and the state of
      every thread that has not been freed. */
  datatype S = S(current: Tid, ready: seq<Tid>, zombies: seq<Tid>, status: map<Tid, Status>)

  ghost predicate ListHolds(s: S, q: seq<Tid>, st: Status) {
    NoDup(q) && forall t :: t in q <==> t in s.status && s.status[t] == st
  }

  /** Ready and dead threads sit in exactly one list each, and nobody but `current` is on the CPU. */
  ghost predicate Placed(s: S) {
    && s.current in s.status
    && (forall t :: t in s.status && s.status[t] == Running ==> t == s.current)
    && ListHolds(s, s.ready, Ready)
    && ListHolds(s, s.zombies, Dead)
  }

  function SetStatus(s: S, st: Status): S {
    s.(status := s.status[s.current := st])
  }

  /** sched_unblock: only a blocked thread is queued. */
  function Unblock(s: S, t: Tid): S {
    if t in s.status && s.status[t] == Blocked
    then s.(ready := s.ready + [t], status := s.status[t := Ready])
    else s
  }

  /** sched_schedule when some thread is ready, up to the context switch. */
  function Switch(s: S): S
    requires s.ready != [] && s.current in s.status
  {
    var next := s.ready[0];
    if s.status[s.current] == Running then
      S(next, s.ready[1..] + [s.current], s.zombies, s.status[s.current := Ready][next := Running])
    else
      S(next, s.ready[1..], s.zombies, s.status[next := Running])
  }

  function Exit(s: S): S {
    SetStatus(s, Dead).(zombies := s.zombies + [s.current])
  }

  /** reap_zombies: every dead thread is freed. */
  function Reap(s: S): S {
    s.(zombies := [], status := s.status - (set t | t in s.zombies))
  }

  lemma AppendNoDup(q: seq<Tid>, t: Tid)
    requires NoDup(q) && t !in q
    ensures NoDup(q + [t])
  {
  }

  lemma UnblockPlaced(s: S, t: Tid)
    requires Placed(s) && t in s.status && s.status[t] == Blocked
    ensures Placed(Unblock(s, t))
  {
    AppendNoDup(s.ready, t);
    var s' := Unblock(s, t);
    forall u ensures u in s'.ready <==> u in s'.status && s'.status[u] == Ready {
      assert u in s'.ready <==> u in s.ready || u == t;
    }
  }

  lemma ExitPlaced(s: S)
    requires Placed(s) && s.status[s.current] == Running
    ensures Placed(Exit(s))
  {
    AppendNoDup(s.zombies, s.current);
    var s' := Exit(s);
    forall u ensures u in s'.zombies <==> u in s'.status && s'.status[u] == Dead {
      assert u in s'.zombies <==> u in s.zombies || u == s.current;
    }
  }

  /** After a switch exactly the head of the ready list runs, and everybody is still in one place. */
  lemma SwitchPlaced(s: S)
    requires Placed(s) && s.ready != [] && (s.status[s.current] != Ready)
    ensures Placed(Switch(s)) && Switch(s).status[s.ready[0]] == Running
  {
    var s', next, rest := Switch(s), s.ready[0], s.ready[1..];
    assert s.ready == [next] + rest;
    assert next !in rest && NoDup(rest);
    assert forall u :: u in s.ready <==> u == next || u in rest;
    if s.status[s.current] == Running {
      assert s.current !in s.ready;
      AppendNoDup(rest, s.current);
      assert forall u :: u in s'.ready <==> u in rest || u == s.current;
    }
  }

  /** The reaper frees all dead threads, never the one on the CPU. */
  lemma ReapPlaced(s: S)
    requires Placed(s) && s.status[s.current] == Running
    ensures Placed(Reap(s)) && Reap(s).current in Reap(s).status
    ensures forall t :: t in Reap(s).status <==> t in s.status && s.status[t] != Dead
  {
  }

  /** The scheduler of sched.c: the ready and the zombie list are linked through the same field of the
      threads, and the length of the ready list is kept separately. */
  class Scheduler {
    var current: Tid
    var readyHead: Option<Tid>
    var readyTail: Option<Tid>
    var readyCount: nat
    var zombieHead: Option<Tid>
    var zombieTail: Option<Tid>
    var next: Links
    var status: map<Tid, Status>
    ghost var ready: seq<Tid>
    ghost var zombies: seq<Tid>

    ghost function Abs(): S
      reads this
    {
      S(current, ready, zombies, status)
    }

    /** Both lists are well linked through the shared field, and no thread is on both. */
    ghost predicate Linked()
      reads this
    {
      && IsList(next, readyHead, readyTail, ready)
      && IsList(next, zombieHead, zombieTail, zombies)
      && (forall t :: t in ready ==> t !in zombies)
      && readyCount == |ready|
    }

    ghost predicate Valid()
      reads this
    {
      Placed(Abs()) && Linked()
    }

    /** sched_init */
    constructor (boot: Tid)
      ensures Valid() && Abs() == S(boot, [], [], map[boot := Running])
    {
      current, status, next := boot, map[boot := Running], map[boot := None];
      readyHead, readyTail, readyCount, zombieHead, zombieTail := None, None, 0, None, None;
      ready, zombies := [], [];
    }

    /** sched_enqueue: the thread joins the ready list, and the zombie list through the same links
        stays as it is. */
    method Enqueue(t: Tid)
      requires Linked() && t !in ready && t !in zombies
      modifies this`next, this`readyHead, this`readyTail, this`readyCount, this`ready
      ensures Linked() && ready == old(ready) + [t]
    {
      PushIsList(next, readyHead, readyTail, ready, t);
      PushSpares(next, readyHead, readyTail, ready, t, zombieHead, zombieTail, zombies);
      next := next[t := None];
      if readyTail != None {
        next := next[readyTail.value := Some(t)];
        readyTail := Some(t);
      } else {
        readyHead, readyTail := Some(t), Some(t);
      }
      readyCount := readyCount + 1;
      ready := ready + [t];
    }

    /** ready_dequeue */
    method Dequeue() returns (r: Option<Tid>)
      requires Linked()
      modifies this`next, this`readyHead, this`readyTail, this`readyCount, this`ready
      ensures Linked()
      ensures old(ready) == [] ==> r == None && ready == []
      ensures old(ready) != [] ==> r == Some(old(ready)[0]) && ready == old(ready)[1..]
    {
      if readyHead == None {
        return None;
      }
      var t := readyHead.value;
      assert LinkOk(next, ready, 0);
      PopIsList(next, readyHead, readyTail, ready);
      StoreSpares(next, t, None, zombieHead, zombieTail, zombies);
      readyHead := next[t];
      if readyHead == None {
        readyTail := None;
      }
      next := next[t := None];
      readyCount := readyCount - 1;
      r := Some(t);
      ready := ready[1..];
    }

    /** zombie_push */
    method ZombiePush(t: Tid)
      requires Linked() && t !in ready && t !in zombies
      modifies this`next, this`zombieHead, this`zombieTail, this`zombies
      ensures Linked() && zombies == old(zombies) + [t]
    {
      PushIsList(next, zombieHead, zombieTail, zombies, t);
      PushSpares(next, zombieHead, zombieTail, zombies, t, readyHead, readyTail, ready);
      next := next[t := None];
      if zombieTail != None {
        next := next[zombieTail.value := Some(t)];
        zombieTail := Some(t);
      } else {
        zombieHead, zombieTail := Some(t), Some(t);
      }
      zombies := zombies + [t];
    }

    /** sched_schedule; `resumes` says that the next thread was switched out in here before, so
        that the reaper runs (a fresh thread starts in its trampoline instead).  Without a ready
        thread a running one simply goes on, and any other panics. */
    method Schedule(resumes: bool)
      requires Valid() && status[current] != Ready
      requires ready != [] || status[current] == Running
      modifies this
      ensures Valid() && status[current] == Running
      ensures Abs() == var s := old(Abs());
                       if s.ready == [] then s else if resumes then Reap(Switch(s)) else Switch(s)
    {
      var prev := current;
      if ready != [] { SwitchPlaced(Abs()); }
      var nxt := Dequeue();
      if nxt == None {
        return;
      }
      if status[prev] == Running {
        status := status[prev := Ready];
        Enqueue(prev);
      }
      status := status[nxt.value := Running];
      current := nxt.value;
      if resumes {
        ReapPlaced(Abs());
        ReapZombies();
      }
    }

    /** reap_zombies: follow the links of the zombie list and free every thread on it. */
    method ReapZombies()
      requires Linked()
      modifies this`zombieHead, this`zombieTail, this`zombies, this`next, this`status
      ensures Linked() && Abs() == Reap(old(Abs()))
    {
      var z := zombieHead;
      ghost var q, tail := zombies, zombieTail;
      zombieHead, zombieTail, zombies := None, None, [];
      FreeAll(z, q, tail);
    }

    /** The loop of the reaper, over a list that is no longer the zombie list. */
    method FreeAll(head: Option<Tid>, ghost q: seq<Tid>, ghost tail: Option<Tid>)
      requires Linked() && zombies == [] && IsList(next, head, tail, q) && forall t :: t in ready ==> t !in q
      modifies this`next, this`status
      ensures Linked() && status == old(status) - (set t | t in q)
    {
      var z := head;
      ghost var rest := q;
      ghost var gone: set<Tid> := {};
      while z != None
        invariant IsList(next, z, if rest == [] then None else tail, rest) && (forall t :: t in ready ==> t !in rest)
        invariant Linked() && (set t | t in q) == gone + (set t | t in rest) && status == old(status) - gone
        decreases |rest|
      {
        ghost var t := z.value;
        FirstAndRest(rest);
        z := FreeFirst(z.value, rest, tail);
        rest, gone := rest[1..], gone + {t};
      }
    }

    /** One turn of the reaper: unlink the first thread of what is left, and free it. */
    method FreeFirst(t: Tid, ghost rest: seq<Tid>, ghost tail: Option<Tid>) returns (nxt: Option<Tid>)
      requires Linked() && zombies == [] && IsList(next, Some(t), tail, rest) && rest != []
      requires forall u :: u in ready ==> u !in rest
      modifies this`next, this`status
      ensures Linked() && IsList(next, nxt, if rest[1..] == [] then None else tail, rest[1..])
      ensures status == old(status) - {t}
    {
      assert LinkOk(next, rest, 0);
      PopIsList(next, Some(t), tail, rest);
      StoreSpares(next, t, None, readyHead, readyTail, ready);
      nxt := next[t];
      next := next[t := None];
      status := status - {t};
    }

    /** thread_exit, up to the switch that never comes back. */
    method ThreadExit(resumes: bool)
      requires Valid() && status[current] == Running && ready != []
      modifies this
      ensures Valid() && status[current] == Running
      ensures Abs() == var s := Switch(Exit(old(Abs()))); if resumes then Reap(s) else s
      ensures resumes ==> old(current) !in status
    {
      ExitPlaced(Abs());
      status := status[current := Dead];
      ZombiePush(current);
      Schedule(resumes);
    }

    /** sched_block */
    method Block(resumes: bool)
      requires Valid() && status[current] == Running && ready != []
      modifies this
      ensures Valid() && status[current] == Running && old(current) in status && status[old(current)] == Blocked
      ensures Abs() == var s := Switch(SetStatus(old(Abs()), Blocked)); if resumes then Reap(s) else s
    {
      status := status[current := Blocked];
      Schedule(resumes);
    }

    method UnblockThread(t: Tid)
      requires Valid() && t in status
      modifies this
      ensures Valid() && Abs() == Unblock(old(Abs()), t)
      ensures old(status)[t] == Blocked ==> t in ready
    {
      if status[t] != Blocked {
        return;
      }
      UnblockPlaced(Abs(), t);
      status := status[t := Ready];
      Enqueue(t);
    }
  }

  lemma FirstAndRest(q: seq<Tid>)
    requires q != []
    ensures (set t | t in q) == {q[0]} + (set t | t in q[1..])
    ensures forall t :: t in q[1..] ==> t in q
  {
    assert q == [q[0]] + q[1..];
  }

  /** A store to a thread that is not on the list. */
  lemma StoreSpares(next: Links, t: Tid, v: Option<Tid>, head: Option<Tid>, tail: Option<Tid>, q: seq<Tid>)
    requires IsList(next, head, tail, q) && t !in q
    ensures IsList(next[t := v], head, tail, q)
  {
    forall u | u in q
      ensures u in next
    {
      var i :| 0 <= i < |q| && q[i] == u;
      assert LinkOk(next, q, i);
    }
    ListKept(next, next[t := v], head, tail, q);
  }

  /** An append to one list spares another one through the same links. */
  lemma PushSpares(next: Links, head: Option<Tid>, tail: Option<Tid>, q: seq<Tid>, t: Tid,
                   head2: Option<Tid>, tail2: Option<Tid>, q2: seq<Tid>)
    requires IsList(next, head, tail, q) && IsList(next, head2, tail2, q2) && t !in q2
    requires forall u :: u in q ==> u !in q2
    ensures IsList(PushLinks(next, tail, t), head2, tail2, q2)
  {
    StoreSpares(next, t, None, head2, tail2, q2);
    if tail != None {
      assert tail.value == q[|q| - 1] && q[|q| - 1] in q;
      StoreSpares(next[t := None], tail.value, Some(t), head2, tail2, q2);
    }
  }
}
