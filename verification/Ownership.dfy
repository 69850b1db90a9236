/** Capability transfer (src/kernel/core/syscall.c, handle.c, channel.c): who owns which kernel
    object, across all handle tables and the messages in flight, in every interleaving of the
    processes' system calls.  A process has one thread, so its table only changes by its own
    calls; TRANSFER is two steps, because interrupts are on again between the enqueue and the
    disown-and-close of the sender. */
module Ownership {
  import opened Basics
  import opened Handles

  type Pid = int
  type Obj = int

  /** A channel: messages `first`, `first + 1`, ... with the capability each carries. */
  datatype Chan = Chan(first: int, caps: seq<Option<Entry>>)

  /** `pending[p]`: the handle that process `p` has enqueued for TRANSFER but not closed yet. */
  datatype World = World(tables: map<Pid, seq<Option<Entry>>>, pending: map<Pid, int>,
                         chans: map<Obj, Chan>, released: seq<Obj>)

  /** A place that can hold a reference: a table slot or a message. */
  datatype Loc = Slot(p: Pid, i: int) | Message(ch: Obj, n: int)

  predicate Open(w: World, p: Pid, i: int) {
    p in w.tables && 0 <= i < |w.tables[p]| && w.tables[p][i].Some?
  }

  predicate Free(w: World, p: Pid, i: int) {
    p in w.tables && 0 <= i < |w.tables[p]| && w.tables[p][i].None?
  }

  predicate InFlight(w: World, ch: Obj, n: int) {
    && ch in w.chans && w.chans[ch].first <= n < w.chans[ch].first + |w.chans[ch].caps|
    && w.chans[ch].caps[n - w.chans[ch].first].Some?
  }

  predicate Busy(w: World, p: Pid, i: int) {
    p in w.pending && w.pending[p] == i
  }

  /** `l` holds an owning reference to `o`. */
  predicate OwnsAt(w: World, l: Loc, o: Obj) {
    match l
    case Slot(p, i) => Open(w, p, i) && !Busy(w, p, i) && w.tables[p][i].value.owns && w.tables[p][i].value.obj == o
    case Message(ch, n) =>
      InFlight(w, ch, n) && w.chans[ch].caps[n - w.chans[ch].first].value.owns
      && w.chans[ch].caps[n - w.chans[ch].first].value.obj == o
  }

  ghost predicate NoDup(s: seq<Obj>) {
    forall i, j :: 0 <= i < j < |s| ==> s[i] != s[j]
  }

  /** At most one owning reference to each object, none to a released one, and no object was
      released twice. */
  ghost predicate Single(w: World) {
    && (forall l, m, o :: OwnsAt(w, l, o) && OwnsAt(w, m, o) ==> l == m)
    && (forall l, o :: OwnsAt(w, l, o) ==> o !in w.released)
    && NoDup(w.released)
    && (forall p :: p in w.pending ==> Open(w, p, w.pending[p]))
  }

  // ---- operations -------------------------------------------------------------------

  function SetEntry(w: World, p: Pid, i: int, e: Option<Entry>): World
    requires p in w.tables && 0 <= i < |w.tables[p]|
  {
    w.(tables := w.tables[p := w.tables[p][i := e]])
  }

  /** The release callback: the object dies, and a channel takes its messages with it. */
  function Release(w: World, o: Obj): World {
    w.(released := w.released + [o], chans := w.chans - {o})
  }

  function Push(w: World, ch: Obj, e: Option<Entry>): World
    requires ch in w.chans
  {
    w.(chans := w.chans[ch := w.chans[ch].(caps := w.chans[ch].caps + [e])])
  }

  function Pop(w: World, ch: Obj): World
    requires ch in w.chans && w.chans[ch].caps != []
  {
    w.(chans := w.chans[ch := Chan(w.chans[ch].first + 1, w.chans[ch].caps[1..])])
  }

  function CloseHandle(w: World, p: Pid, i: int): World
    requires Open(w, p, i)
  {
    var e := w.tables[p][i].value;
    var w1 := SetEntry(w, p, i, None);
    if e.owns then Release(w1, e.obj) else w1
  }

  /** handle_table_destroy from slot `i` on. */
  function CloseFrom(w: World, p: Pid, i: int): World
    requires p in w.tables && 0 <= i <= |w.tables[p]|
    decreases |w.tables[p]| - i
  {
    if i == |w.tables[p]| then w
    else if w.tables[p][i].None? then CloseFrom(w, p, i + 1)
    else CloseFrom(CloseHandle(w, p, i), p, i + 1)
  }

  /** SYS_IPC_CREATE and SYS_HANDLE_CREATE install an owning handle; SYS_SPAWN_ELF duplicates the
      bootstrap handle into the child; SYS_IPC_SEND_CAP duplicates or transfers; the receiver
      takes the capability into a free slot; a plain receive takes only a plain message. */
  datatype Event =
    | Create(p: Pid, i: int, e: Entry, isChannel: bool)
    | Bootstrap(p: Pid, h: int, child: Pid, i: int)
    | SendPlain(ch: Obj)
    | Duplicate(p: Pid, h: int, ch: Obj)
    | StartTransfer(p: Pid, h: int, ch: Obj)
    | EndTransfer(p: Pid)
    | RecvCap(p: Pid, ch: Obj, i: int)
    | RecvPlain(ch: Obj)
    | Close(p: Pid, h: int)
    | ExitProcess(p: Pid)

  predicate MaySend(w: World, p: Pid, h: int, ch: Obj) {
    Open(w, p, h) && p !in w.pending && Transfer in w.tables[p][h].value.rights && ch in w.chans
  }

  predicate Enabled(w: World, ev: Event) {
    match ev
    case Create(p, i, e, isChannel) => Free(w, p, i) && p !in w.pending && e.owns && (isChannel ==> e.obj !in w.chans)
    case Bootstrap(p, h, child, i) =>
      Open(w, p, h) && p !in w.pending && Transfer in w.tables[p][h].value.rights && Free(w, child, i)
    case SendPlain(ch) => ch in w.chans
    case Duplicate(p, h, ch) => MaySend(w, p, h, ch)
    case StartTransfer(p, h, ch) => MaySend(w, p, h, ch)
    case EndTransfer(p) => p in w.pending && Open(w, p, w.pending[p])
    case RecvCap(p, ch, i) => p in w.tables && p !in w.pending && ch in w.chans && w.chans[ch].caps != []
                              && (w.chans[ch].caps[0].Some? ==> Free(w, p, i) || TableFull(w, p))
    case RecvPlain(ch) => ch in w.chans && w.chans[ch].caps != []
    case Close(p, h) => Open(w, p, h) && p !in w.pending
    case ExitProcess(p) => p in w.tables && p !in w.pending
  }

  predicate TableFull(w: World, p: Pid) {
    p in w.tables && forall i :: 0 <= i < |w.tables[p]| ==> w.tables[p][i].Some?
  }

  function Next(w: World, ev: Event): World
    requires Enabled(w, ev)
  {
    match ev
    case Create(p, i, e, isChannel) =>
      var w1 := SetEntry(w, p, i, Some(e));
      if isChannel then w1.(chans := w1.chans[e.obj := Chan(0, [])]) else w1
    case Bootstrap(p, h, child, i) => SetEntry(w, child, i, Some(w.tables[p][h].value.(owns := false)))
    case SendPlain(ch) => Push(w, ch, None)
    case Duplicate(p, h, ch) => Push(w, ch, Some(w.tables[p][h].value.(owns := false)))
    case StartTransfer(p, h, ch) =>
      Push(w, ch, Some(w.tables[p][h].value.(owns := true))).(pending := w.pending[p := h])
    case EndTransfer(p) => SetEntry(w, p, w.pending[p], None).(pending := w.pending - {p})
    case RecvCap(p, ch, i) =>
      if w.chans[ch].caps[0].None? then Pop(w, ch)
      else if TableFull(w, p) then w
      else Pop(SetEntry(w, p, i, w.chans[ch].caps[0]), ch)
    case RecvPlain(ch) => if w.chans[ch].caps[0].Some? then w else Pop(w, ch)
    case Close(p, h) => CloseHandle(w, p, h)
    case ExitProcess(p) => var w1 := CloseFrom(w, p, 0); w1.(tables := w1.tables - {p})
  }

  /** TRANSFER only of an owning handle, and new handles only for objects nobody owns and that
      were not released before. */
  ghost predicate Disciplined(w: World, ev: Event)
    requires Enabled(w, ev)
  {
    match ev
    case StartTransfer(p, h, _) => w.tables[p][h].value.owns
    case Create(_, _, e, _) => e.obj !in w.released && forall l :: !OwnsAt(w, l, e.obj)
    case _ => true
  }

  // ---- each operation keeps single ownership -------------------------------------------

  lemma PushOwners(w: World, ch: Obj, e: Option<Entry>)
    requires ch in w.chans
    ensures forall l, o :: OwnsAt(Push(w, ch, e), l, o) <==>
              OwnsAt(w, l, o)
              || (e.Some? && e.value.owns && e.value.obj == o
                  && l == Message(ch, w.chans[ch].first + |w.chans[ch].caps|))
  {
  }

  lemma PopOwners(w: World, ch: Obj)
    requires ch in w.chans && w.chans[ch].caps != []
    ensures forall l, o :: OwnsAt(Pop(w, ch), l, o) <==> OwnsAt(w, l, o) && l != Message(ch, w.chans[ch].first)
  {
  }

  lemma SetEntryOwners(w: World, p: Pid, i: int, e: Option<Entry>)
    requires p in w.tables && 0 <= i < |w.tables[p]|
    ensures forall l, o :: OwnsAt(SetEntry(w, p, i, e), l, o) <==>
              if l == Slot(p, i) then e.Some? && e.value.owns && e.value.obj == o && !Busy(w, p, i)
              else OwnsAt(w, l, o)
  {
  }

  lemma ReleaseOwners(w: World, o: Obj)
    ensures forall l, x :: OwnsAt(Release(w, o), l, x) ==> OwnsAt(w, l, x)
  {
  }

  lemma CloseSingle(w: World, p: Pid, i: int)
    requires Single(w) && Open(w, p, i) && !Busy(w, p, i)
    ensures Single(CloseHandle(w, p, i)) && CloseHandle(w, p, i).pending == w.pending
    ensures CloseHandle(w, p, i).tables == w.tables[p := w.tables[p][i := None]]
  {
    var e := w.tables[p][i].value;
    var w1 := SetEntry(w, p, i, None);
    SetEntryOwners(w, p, i, None);
    ReleaseOwners(w1, e.obj);
    if e.owns {
      assert OwnsAt(w, Slot(p, i), e.obj);
    }
  }

  lemma {:induction false} CloseFromSingle(w: World, p: Pid, i: int)
    requires Single(w) && p in w.tables && p !in w.pending && 0 <= i <= |w.tables[p]|
    requires forall j :: 0 <= j < i ==> w.tables[p][j].None?
    ensures Single(CloseFrom(w, p, i)) && CloseFrom(w, p, i).pending == w.pending
    ensures CloseFrom(w, p, i).tables.Keys == w.tables.Keys
    ensures forall j :: 0 <= j < |CloseFrom(w, p, i).tables[p]| ==> CloseFrom(w, p, i).tables[p][j].None?
    ensures forall q :: q in w.tables && q != p ==> CloseFrom(w, p, i).tables[q] == w.tables[q]
    decreases |w.tables[p]| - i
  {
    if i < |w.tables[p]| {
      if w.tables[p][i].None? {
        CloseFromSingle(w, p, i + 1);
      } else {
        CloseSingle(w, p, i);
        CloseFromSingle(CloseHandle(w, p, i), p, i + 1);
      }
    }
  }

  lemma ExitSingle(w: World, p: Pid)
    requires Single(w) && Enabled(w, ExitProcess(p))
    ensures Single(Next(w, ExitProcess(p)))
  {
    CloseFromSingle(w, p, 0);
    var w1, w2 := CloseFrom(w, p, 0), Next(w, ExitProcess(p));
    assert forall l, o :: OwnsAt(w2, l, o) ==> OwnsAt(w1, l, o);
    forall q | q in w2.pending
      ensures Open(w2, q, w2.pending[q])
    {
      assert q != p && Open(w1, q, w1.pending[q]);
    }
  }

  lemma CreateSingle(w: World, ev: Event)
    requires Single(w) && Enabled(w, ev) && ev.Create?
    ensures Single(Next(w, ev)) <==> Disciplined(w, ev)
  {
    var w1 := SetEntry(w, ev.p, ev.i, Some(ev.e));
    SetEntryOwners(w, ev.p, ev.i, Some(ev.e));
    var w' := Next(w, ev);
    assert forall l, o :: OwnsAt(w', l, o) <==> OwnsAt(w1, l, o);
    assert OwnsAt(w', Slot(ev.p, ev.i), ev.e.obj);
    forall q | q in w.pending
      ensures Open(w', q, w'.pending[q])
    {
      assert Open(w, q, w.pending[q]);
    }
    if Single(w') {
      var x := ev.e.obj;
      assert !OwnsAt(w, Slot(ev.p, ev.i), x);
      assert forall l :: OwnsAt(w, l, x) ==> OwnsAt(w', l, x);
    }
  }

  /** Transferring keeps single ownership exactly when the sender's handle owns the object, or
      the object has no owner at all and was never released. */
  lemma TransferSingleIff(w: World, ev: Event)
    requires Single(w) && Enabled(w, ev) && ev.StartTransfer?
    ensures var e := w.tables[ev.p][ev.h].value;
            Single(Next(w, ev)) <==> e.owns || (e.obj !in w.released && forall l :: !OwnsAt(w, l, e.obj))
  {
    var e := w.tables[ev.p][ev.h].value;
    var msg := Message(ev.ch, w.chans[ev.ch].first + |w.chans[ev.ch].caps|);
    PushOwners(w, ev.ch, Some(e.(owns := true)));
    var w' := Next(w, ev);
    assert forall l, o :: OwnsAt(w', l, o) <==>
        (OwnsAt(w, l, o) && l != Slot(ev.p, ev.h)) || (l == msg && o == e.obj);
    assert OwnsAt(w', msg, e.obj) && !OwnsAt(w, msg, e.obj);
    assert forall q :: q in w.pending ==> Open(w, q, w.pending[q]);
    if e.owns {
      assert OwnsAt(w, Slot(ev.p, ev.h), e.obj);
    } else if Single(w') {
      var x := e.obj;
      assert !OwnsAt(w, Slot(ev.p, ev.h), x);
      assert forall l :: OwnsAt(w, l, x) ==> OwnsAt(w', l, x);
    }
  }

  lemma RecvCapSingle(w: World, ev: Event)
    requires Single(w) && Enabled(w, ev) && ev.RecvCap?
    ensures Single(Next(w, ev))
  {
    var cap := w.chans[ev.ch].caps[0];
    if cap.None? {
      PopOwners(w, ev.ch);
    } else if !TableFull(w, ev.p) {
      SetEntryOwners(w, ev.p, ev.i, cap);
      PopOwners(SetEntry(w, ev.p, ev.i, cap), ev.ch);
      var w' := Next(w, ev);
      assert cap.value.owns ==> OwnsAt(w, Message(ev.ch, w.chans[ev.ch].first), cap.value.obj);
      forall q | q in w.pending
        ensures Open(w', q, w'.pending[q])
      {
        assert Open(w, q, w.pending[q]);
      }
    }
  }

  lemma EndTransferSingle(w: World, p: Pid)
    requires Single(w) && Enabled(w, EndTransfer(p))
    ensures Single(Next(w, EndTransfer(p)))
  {
    var w' := Next(w, EndTransfer(p));
    assert forall l, o :: OwnsAt(w', l, o) ==> OwnsAt(w, l, o);
    forall q | q in w'.pending
      ensures Open(w', q, w'.pending[q])
    {
      assert Open(w, q, w.pending[q]);
    }
  }

  /** Every disciplined step keeps single ownership. */
  lemma StepSingle(w: World, ev: Event)
    requires Single(w) && Enabled(w, ev) && Disciplined(w, ev)
    ensures Single(Next(w, ev))
  {
    match ev
    case Create(_, _, _, _) => CreateSingle(w, ev);
    case Bootstrap(p, h, child, i) =>
      SetEntryOwners(w, child, i, Some(w.tables[p][h].value.(owns := false)));
      assert forall q :: q in w.pending ==> Open(w, q, w.pending[q]);
    case SendPlain(ch) => PushOwners(w, ch, None);
    case Duplicate(p, h, ch) => PushOwners(w, ch, Some(w.tables[p][h].value.(owns := false)));
    case StartTransfer(_, _, _) => TransferSingleIff(w, ev);
    case EndTransfer(p) => EndTransferSingle(w, p);
    case RecvCap(_, _, _) => RecvCapSingle(w, ev);
    case RecvPlain(ch) => PopOwners(w, ch);
    case Close(p, h) => CloseSingle(w, p, h);
    case ExitProcess(p) => ExitSingle(w, p);
  }

  // ---- what every step does, place by place ------------------------------------------------

  /** What place `l` holds. */
  function Held(w: World, l: Loc): Option<Entry> {
    match l
    case Slot(p, i) => if Open(w, p, i) then w.tables[p][i] else None
    case Message(ch, n) => if InFlight(w, ch, n) then w.chans[ch].caps[n - w.chans[ch].first] else None
  }

  /** The place of the next message. */
  function Tail(w: World, ch: Obj): Loc
    requires ch in w.chans
  {
    Message(ch, w.chans[ch].first + |w.chans[ch].caps|)
  }

  /** What a closed table takes along: its own slots, and the messages of the channels it owned. */
  predicate GoesWith(l: Loc, p: Pid, objs: seq<Obj>) {
    match l
    case Slot(q, _) => q == p
    case Message(ch, _) => ch in objs
  }

  lemma CreateHolds(w: World, p: Pid, i: int, e: Entry, isChannel: bool, l: Loc)
    requires Enabled(w, Create(p, i, e, isChannel))
    ensures Held(Next(w, Create(p, i, e, isChannel)), l) == if l == Slot(p, i) then Some(e) else Held(w, l)
  {
  }

  lemma BootstrapHolds(w: World, p: Pid, h: int, child: Pid, i: int, l: Loc)
    requires Enabled(w, Bootstrap(p, h, child, i))
    ensures Held(Next(w, Bootstrap(p, h, child, i)), l)
            == if l == Slot(child, i) then Some(Held(w, Slot(p, h)).value.(owns := false)) else Held(w, l)
  {
  }

  /** Both actions of SYS_IPC_SEND_CAP put a capability on the next message: DUPLICATE one that does not
      own, TRANSFER one that does. */
  lemma SendHolds(w: World, ev: Event, l: Loc)
    requires Enabled(w, ev) && (ev.Duplicate? || ev.StartTransfer?)
    ensures Held(Next(w, ev), l)
            == if l == Tail(w, ev.ch) then Some(Held(w, Slot(ev.p, ev.h)).value.(owns := ev.StartTransfer?))
               else Held(w, l)
  {
  }

  /** The end of a TRANSFER closes the sender's handle and releases nothing. */
  lemma EndHolds(w: World, p: Pid, l: Loc)
    requires Enabled(w, EndTransfer(p))
    ensures Held(Next(w, EndTransfer(p)), l) == if l == Slot(p, w.pending[p]) then None else Held(w, l)
    ensures Next(w, EndTransfer(p)).released == w.released && p !in Next(w, EndTransfer(p)).pending
  {
  }

  /** A received capability moves, as it is, from the first message into the receiver's slot; with a full
      table nothing moves. */
  lemma RecvHolds(w: World, p: Pid, ch: Obj, i: int, l: Loc)
    requires Enabled(w, RecvCap(p, ch, i))
    ensures var first := Message(ch, w.chans[ch].first);
            Held(Next(w, RecvCap(p, ch, i)), l)
            == if Held(w, first).None? || TableFull(w, p) then Held(w, l)
               else if l == Slot(p, i) then Held(w, first)
               else if l == first then None
               else Held(w, l)
    ensures w.chans[ch].caps[0].None? || !TableFull(w, p) ==>
              && ch in Next(w, RecvCap(p, ch, i)).chans
              && Next(w, RecvCap(p, ch, i)).chans[ch].first == w.chans[ch].first + 1
  {
  }

  /** A close releases the object exactly when the handle owns it; a channel dies with its messages. */
  lemma CloseHolds(w: World, p: Pid, h: int, l: Loc)
    requires Enabled(w, Close(p, h))
    ensures var e := Held(w, Slot(p, h)).value;
            && Held(Next(w, Close(p, h)), l)
               == (if l == Slot(p, h) || (e.owns && l.Message? && l.ch == e.obj) then None else Held(w, l))
            && Next(w, Close(p, h)).released == if e.owns then w.released + [e.obj] else w.released
  {
  }

  /** An exit releases every object the table owned, in the order of the slots, and nothing else. */
  lemma ExitHolds(w: World, p: Pid, l: Loc)
    requires Enabled(w, ExitProcess(p))
    ensures var objs := OwnedObjects(w.tables[p]);
            && Held(Next(w, ExitProcess(p)), l) == (if GoesWith(l, p, objs) then None else Held(w, l))
            && Next(w, ExitProcess(p)).released == w.released + objs
  {
    assert w.tables[p][0..] == w.tables[p];
    ClosesAll(w, p, 0, l);
  }

  /** The objects of the first entry, if any, and then those of the others. */
  lemma {:induction false} OwnedFirst(es: seq<Option<Entry>>)
    requires es != []
    ensures OwnedObjects(es)
            == (if es[0].Some? && es[0].value.owns then [es[0].value.obj] else []) + OwnedObjects(es[1..])
    decreases |es|
  {
    if |es| == 1 {
      assert es[..0] == [] && es[1..] == [];
    } else {
      var init := es[..|es| - 1];
      OwnedFirst(init);
      assert init[1..] == es[1..][..|es[1..]| - 1];
    }
  }

  lemma ClosesOne(w: World, p: Pid, i: int, l: Loc)
    requires Open(w, p, i)
    ensures var w1, e := CloseHandle(w, p, i), w.tables[p][i].value;
            && w1.released == w.released + (if e.owns then [e.obj] else []) && w1.tables.Keys == w.tables.Keys
            && |w1.tables[p]| == |w.tables[p]| && w1.tables[p][i + 1..] == w.tables[p][i + 1..]
            && (l.Slot? && l.p != p ==> Held(w1, l) == Held(w, l))
            && (l.Message? ==> Held(w1, l) == if e.owns && l.ch == e.obj then None else Held(w, l))
  {
  }

  lemma {:induction false} ClosesAll(w: World, p: Pid, i: int, l: Loc)
    requires p in w.tables && 0 <= i <= |w.tables[p]|
    ensures CloseFrom(w, p, i).released == w.released + OwnedObjects(w.tables[p][i..])
    ensures CloseFrom(w, p, i).tables.Keys == w.tables.Keys
    ensures l.Slot? && l.p != p ==> Held(CloseFrom(w, p, i), l) == Held(w, l)
    ensures l.Message? ==>
              Held(CloseFrom(w, p, i), l) == if l.ch in OwnedObjects(w.tables[p][i..]) then None else Held(w, l)
    decreases |w.tables[p]| - i
  {
    if i < |w.tables[p]| {
      var es, w' := w.tables[p][i..], CloseFrom(w, p, i);
      assert es[1..] == w.tables[p][i + 1..] && es[0] == w.tables[p][i];
      OwnedFirst(es);
      if es[0].None? {
        assert w' == CloseFrom(w, p, i + 1);
        ClosesAll(w, p, i + 1, l);
      } else {
        var w1 := CloseHandle(w, p, i);
        assert w' == CloseFrom(w1, p, i + 1);
        ClosesOne(w, p, i, l);
        ClosesAll(w1, p, i + 1, l);
        Joined(w.released, es[0].value, w1.released, OwnedObjects(es[1..]), OwnedObjects(es));
      }
    }
  }

  lemma Joined(r: seq<Obj>, e: Entry, r1: seq<Obj>, rest: seq<Obj>, all: seq<Obj>)
    requires r1 == r + (if e.owns then [e.obj] else []) && all == (if e.owns then [e.obj] else []) + rest
    ensures r1 + rest == r + all && forall o :: o in all <==> o in rest || (e.owns && o == e.obj)
  {
  }

  /** Rights never grow: whatever a place holds after a step was made there by a create, or is a copy, with
      the same kind, object and rights, of what some place held before. */
  lemma RightsAreCopied(w: World, ev: Event, l: Loc) returns (m: Loc)
    requires Enabled(w, ev) && Held(Next(w, ev), l).Some?
    ensures var e := Held(Next(w, ev), l).value;
            || (ev.Create? && l == Slot(ev.p, ev.i) && e == ev.e)
            || (Held(w, m).Some? && e == Held(w, m).value.(owns := e.owns))
  {
    m := l;
    match ev
    case Create(p, i, e, isChannel) => CreateHolds(w, p, i, e, isChannel, l);
    case Bootstrap(p, h, child, i) =>
      BootstrapHolds(w, p, h, child, i, l);
      if l == Slot(child, i) { m := Slot(p, h); }
    case SendPlain(ch) =>
    case Duplicate(p, h, ch) =>
      SendHolds(w, ev, l);
      if l == Tail(w, ch) { m := Slot(p, h); }
    case StartTransfer(p, h, ch) =>
      SendHolds(w, ev, l);
      if l == Tail(w, ch) { m := Slot(p, h); }
    case EndTransfer(p) => EndHolds(w, p, l);
    case RecvCap(p, ch, i) =>
      RecvHolds(w, p, ch, i, l);
      if Held(w, l) != Held(Next(w, ev), l) { m := Message(ch, w.chans[ch].first); }
    case RecvPlain(ch) =>
    case Close(p, h) => CloseHolds(w, p, h, l);
    case ExitProcess(p) => ExitHolds(w, p, l);
  }

  /** Without the TRANSFER right a handle is neither sent nor given to a child. */
  lemma NeedsTransfer(w: World, ev: Event)
    requires Enabled(w, ev) && (ev.Duplicate? || ev.StartTransfer? || ev.Bootstrap?)
    ensures Held(w, Slot(ev.p, ev.h)).Some? && Transfer in Held(w, Slot(ev.p, ev.h)).value.rights
  {
  }

  /** Ownership does not leak: after any step an owned object still has an owner, or it was released, or
      its owning reference was in a message of a channel that was released. */
  lemma NothingLeaks(w: World, ev: Event, l: Loc, o: Obj) returns (m: Loc)
    requires Enabled(w, ev) && OwnsAt(w, l, o)
    ensures w.released <= Next(w, ev).released
    ensures OwnsAt(Next(w, ev), m, o) || o in Next(w, ev).released[|w.released|..]
            || (l.Message? && l.ch in Next(w, ev).released[|w.released|..])
  {
    if ev.StartTransfer? || ev.RecvCap? {
      m := OwnerMoves(w, ev, l, o);
    } else {
      m := l;
      if ev.Close? {
        CloseLeaksNothing(w, ev.p, ev.h, l, o);
      } else if ev.ExitProcess? {
        ExitLeaksNothing(w, ev.p, l, o);
      } else {
        OwnerStays(w, ev, l, o);
      }
    }
  }

  lemma OwnerStays(w: World, ev: Event, l: Loc, o: Obj)
    requires Enabled(w, ev) && OwnsAt(w, l, o)
    requires !ev.StartTransfer? && !ev.RecvCap? && !ev.Close? && !ev.ExitProcess?
    ensures OwnsAt(Next(w, ev), l, o) && Next(w, ev).released == w.released
  {
  }

  lemma OwnerMoves(w: World, ev: Event, l: Loc, o: Obj) returns (m: Loc)
    requires Enabled(w, ev) && OwnsAt(w, l, o) && (ev.StartTransfer? || ev.RecvCap?)
    ensures OwnsAt(Next(w, ev), m, o) && Next(w, ev).released == w.released
  {
    m := l;
    if ev.StartTransfer? {
      if l == Slot(ev.p, ev.h) { m := Tail(w, ev.ch); }
    } else if l == Message(ev.ch, w.chans[ev.ch].first) && !TableFull(w, ev.p) {
      m := Slot(ev.p, ev.i);
    }
  }

  lemma CloseLeaksNothing(w: World, p: Pid, h: int, l: Loc, o: Obj)
    requires Enabled(w, Close(p, h)) && OwnsAt(w, l, o)
    ensures var w' := Next(w, Close(p, h));
            && w.released <= w'.released
            && (OwnsAt(w', l, o) || o in w'.released[|w.released|..]
                || (l.Message? && l.ch in w'.released[|w.released|..]))
  {
    CloseHolds(w, p, h, l);
  }

  lemma ExitLeaksNothing(w: World, p: Pid, l: Loc, o: Obj)
    requires Enabled(w, ExitProcess(p)) && OwnsAt(w, l, o)
    ensures var w' := Next(w, ExitProcess(p));
            && w.released <= w'.released
            && (OwnsAt(w', l, o) || o in w'.released[|w.released|..]
                || (l.Message? && l.ch in w'.released[|w.released|..]))
  {
    ExitHolds(w, p, l);
    ExitPending(w, p);
    var w', objs := Next(w, ExitProcess(p)), OwnedObjects(w.tables[p]);
    assert w'.released[|w.released|..] == objs;
    if l.Slot? && l.p == p {
      OwnedIsListed(w.tables[p], l.i);
    } else if !GoesWith(l, p, objs) {
      SameHeld(w, w', l, o);
    }
  }

  lemma SameHeld(w: World, w': World, l: Loc, o: Obj)
    requires OwnsAt(w, l, o) && Held(w', l) == Held(w, l) && w'.pending == w.pending
    ensures OwnsAt(w', l, o)
  {
  }

  lemma ExitPending(w: World, p: Pid)
    requires Enabled(w, ExitProcess(p))
    ensures Next(w, ExitProcess(p)).pending == w.pending
  {
    ClosePending(w, p, 0);
  }

  lemma {:induction false} ClosePending(w: World, p: Pid, i: int)
    requires p in w.tables && 0 <= i <= |w.tables[p]|
    ensures CloseFrom(w, p, i).pending == w.pending
    decreases |w.tables[p]| - i
  {
    if i < |w.tables[p]| {
      ClosePending(if w.tables[p][i].None? then w else CloseHandle(w, p, i), p, i + 1);
    }
  }

  lemma {:induction false} OwnedIsListed(es: seq<Option<Entry>>, i: int)
    requires 0 <= i < |es| && es[i].Some? && es[i].value.owns
    ensures es[i].value.obj in OwnedObjects(es)
  {
    OwnedFirst(es);
    if i > 0 { OwnedIsListed(es[1..], i - 1); }
  }

  // ---- runs ------------------------------------------------------------------------------

  /** The calls can be made, one after the other. */
  ghost predicate Possible(w: World, evs: seq<Event>)
    decreases |evs|
  {
    evs == [] || (Enabled(w, evs[0]) && Possible(Next(w, evs[0]), evs[1..]))
  }

  ghost function After(w: World, evs: seq<Event>): World
    requires Possible(w, evs)
    decreases |evs|
  {
    if evs == [] then w else After(Next(w, evs[0]), evs[1..])
  }

  ghost predicate DisciplinedRun(w: World, evs: seq<Event>)
    requires Possible(w, evs)
    decreases |evs|
  {
    evs == [] || (Disciplined(w, evs[0]) && DisciplinedRun(Next(w, evs[0]), evs[1..]))
  }

  lemma {:induction false} RunSingle(w: World, evs: seq<Event>)
    requires Single(w) && Possible(w, evs) && DisciplinedRun(w, evs)
    ensures Single(After(w, evs))
    decreases |evs|
  {
    if evs != [] {
      StepSingle(w, evs[0]);
      RunSingle(Next(w, evs[0]), evs[1..]);
    }
  }

  /** No handle, no channel, nothing released. */
  ghost predicate Empty(w: World) {
    && w.pending == map[] && w.chans == map[] && w.released == []
    && forall p, i :: p in w.tables && 0 <= i < |w.tables[p]| ==> w.tables[p][i].None?
  }

  /** From empty tables: whatever is duplicated, transferred, received and closed, each object has
      at most one owner and is released at most once. */
  lemma ReleasedAtMostOnce(w: World, evs: seq<Event>)
    requires Empty(w) && Possible(w, evs) && DisciplinedRun(w, evs)
    ensures NoDup(After(w, evs).released)
    ensures forall l, m, o :: OwnsAt(After(w, evs), l, o) && OwnsAt(After(w, evs), m, o) ==> l == m
  {
    assert Single(w) by {
      assert forall l, o :: !OwnsAt(w, l, o);
    }
    RunSingle(w, evs);
  }

  /** Some step of the run destroys a channel while a message in it owns the object. */
  ghost predicate DiesInFlight(w: World, evs: seq<Event>, o: Obj)
    requires Possible(w, evs)
    decreases |evs|
  {
    evs != [] && ((exists ch, n :: OwnsAt(w, Message(ch, n), o) && ch in Next(w, evs[0]).released)
                  || DiesInFlight(Next(w, evs[0]), evs[1..], o))
  }

  /** In every run, disciplined or not, an object that was owned is owned still or has been released, unless
      a channel was destroyed with it. */
  lemma {:induction false} AccountedFor(w: World, evs: seq<Event>, l: Loc, o: Obj)
    requires Possible(w, evs) && OwnsAt(w, l, o)
    ensures (exists m :: OwnsAt(After(w, evs), m, o)) || o in After(w, evs).released || DiesInFlight(w, evs, o)
    decreases |evs|
  {
    if evs != [] {
      var m := NothingLeaks(w, evs[0], l, o);
      var w' := Next(w, evs[0]);
      ReleasedGrows(w', evs[1..]);
      if OwnsAt(w', m, o) {
        AccountedFor(w', evs[1..], m, o);
      } else if o in w'.released {
        assert o in After(w', evs[1..]).released;
      } else {
        assert OwnsAt(w, Message(l.ch, l.n), o);
      }
    }
  }

  lemma {:induction false} ReleasedGrows(w: World, evs: seq<Event>)
    requires Possible(w, evs)
    ensures w.released <= After(w, evs).released
    decreases |evs|
  {
    if evs != [] {
      ReleasesMore(w, evs[0]);
      ReleasedGrows(Next(w, evs[0]), evs[1..]);
    }
  }

  lemma ReleasesMore(w: World, ev: Event)
    requires Enabled(w, ev)
    ensures w.released <= Next(w, ev).released
  {
    if ev.ExitProcess? { ExitHolds(w, ev.p, Slot(ev.p, 0)); }
  }

  // ---- runs that release an object twice ------------------------------------------------

  lemma Cons(w: World, ev: Event, w': World, rest: seq<Event>)
    requires Enabled(w, ev) && w' == Next(w, ev) && Possible(w', rest)
    ensures Possible(w, [ev] + rest) && After(w, [ev] + rest) == After(w', rest)
  {
    assert ([ev] + rest)[1..] == rest;
  }

  const CHANNEL: Obj := 10
  const OBJECT: Obj := 20
  const OWNER := Entry(0, {Transfer}, OBJECT, true)
  const COPY := Entry(0, {Transfer}, OBJECT, false)
  const ENDPOINT := Entry(1, {Transfer}, CHANNEL, true)

  /** Two processes and one channel that carries at most the message given. */
  function Scene(t1: seq<Option<Entry>>, t2: seq<Option<Entry>>, pending: map<Pid, int>,
                 first: int, caps: seq<Option<Entry>>, released: seq<Obj>): World {
    World(map[1 := t1, 2 := t2], pending, map[CHANNEL := Chan(first, caps)], released)
  }

  lemma IsScene(w: World, t1: seq<Option<Entry>>, t2: seq<Option<Entry>>, pending: map<Pid, int>,
                first: int, caps: seq<Option<Entry>>)
    requires w.tables.Keys == {1, 2} && w.tables[1] == t1 && w.tables[2] == t2 && w.pending == pending
    requires w.chans.Keys == {CHANNEL} && w.chans[CHANNEL].first == first && w.chans[CHANNEL].caps == caps
    requires w.released == []
    ensures w == Scene(t1, t2, pending, first, caps, [])
  {
    assert w.tables == map[1 := t1, 2 := t2];
    assert w.chans == map[CHANNEL := Chan(first, caps)];
  }

  function Nothing(): World {
    World(map[1 := [None, None, None], 2 := [None]], map[], map[], [])
  }

  /** Two new objects, one of them a channel; a copy of the other goes to process 2. */
  function CopySent(): seq<Event> {
    [Create(1, 0, ENDPOINT, true), Create(1, 1, OWNER, false), Duplicate(1, 1, CHANNEL), RecvCap(2, CHANNEL, 0)]
  }

  /** Process 2 gives its copy away with TRANSFER, and process 1 receives it. */
  function CopyReturned(): seq<Event> {
    [StartTransfer(2, 0, CHANNEL), EndTransfer(2), RecvCap(1, CHANNEL, 2)]
  }

  lemma CopyReaches()
    ensures Possible(Nothing(), CopySent())
    ensures After(Nothing(), CopySent()) == Scene([Some(ENDPOINT), Some(OWNER), None], [Some(COPY)], map[], 1, [], [])
  {
    var w0 := Nothing();
    var w1 := Scene([Some(ENDPOINT), None, None], [None], map[], 0, [], []);
    var w2 := Scene([Some(ENDPOINT), Some(OWNER), None], [None], map[], 0, [], []);
    var w3 := Scene([Some(ENDPOINT), Some(OWNER), None], [None], map[], 0, [Some(COPY)], []);
    var w4 := Scene([Some(ENDPOINT), Some(OWNER), None], [Some(COPY)], map[], 1, [], []);
    var e1, e2 := Create(1, 0, ENDPOINT, true), Create(1, 1, OWNER, false);
    var e3, e4 := Duplicate(1, 1, CHANNEL), RecvCap(2, CHANNEL, 0);
    IsScene(Next(w0, e1), [Some(ENDPOINT), None, None], [None], map[], 0, []);
    IsScene(Next(w1, e2), [Some(ENDPOINT), Some(OWNER), None], [None], map[], 0, []);
    IsScene(Next(w2, e3), [Some(ENDPOINT), Some(OWNER), None], [None], map[], 0, [Some(COPY)]);
    IsScene(Next(w3, e4), [Some(ENDPOINT), Some(OWNER), None], [Some(COPY)], map[], 1, []);
    Cons(w3, e4, w4, []);
    Cons(w2, e3, w3, [e4] + []);
    Cons(w1, e2, w2, [e3] + ([e4] + []));
    Cons(w0, e1, w1, [e2] + ([e3] + ([e4] + [])));
    assert CopySent() == [e1] + ([e2] + ([e3] + ([e4] + [])));
  }

  lemma CopyComesBackOwning()
    ensures Possible(Scene([Some(ENDPOINT), Some(OWNER), None], [Some(COPY)], map[], 1, [], []), CopyReturned())
    ensures After(Scene([Some(ENDPOINT), Some(OWNER), None], [Some(COPY)], map[], 1, [], []), CopyReturned())
            == Scene([Some(ENDPOINT), Some(OWNER), Some(OWNER)], [None], map[], 2, [], [])
  {
    var w4 := Scene([Some(ENDPOINT), Some(OWNER), None], [Some(COPY)], map[], 1, [], []);
    var w5 := Scene([Some(ENDPOINT), Some(OWNER), None], [Some(COPY)], map[2 := 0], 1, [Some(OWNER)], []);
    var w6 := Scene([Some(ENDPOINT), Some(OWNER), None], [None], map[], 1, [Some(OWNER)], []);
    var w7 := Scene([Some(ENDPOINT), Some(OWNER), Some(OWNER)], [None], map[], 2, [], []);
    var e5, e6, e7 := StartTransfer(2, 0, CHANNEL), EndTransfer(2), RecvCap(1, CHANNEL, 2);
    IsScene(Next(w4, e5), [Some(ENDPOINT), Some(OWNER), None], [Some(COPY)], map[2 := 0], 1, [Some(OWNER)]);
    IsScene(Next(w5, e6), [Some(ENDPOINT), Some(OWNER), None], [None], map[], 1, [Some(OWNER)]);
    IsScene(Next(w6, e7), [Some(ENDPOINT), Some(OWNER), Some(OWNER)], [None], map[], 2, []);
    Cons(w6, e7, w7, []);
    Cons(w5, e6, w6, [e7] + []);
    Cons(w4, e5, w5, [e6] + ([e7] + []));
    assert CopyReturned() == [e5] + ([e6] + ([e7] + []));
  }

  lemma BothClose()
    ensures var w, evs := Scene([Some(ENDPOINT), Some(OWNER), Some(OWNER)], [None], map[], 2, [], []),
                          [Close(1, 1), Close(1, 2)];
            Possible(w, evs) && After(w, evs).released == [OBJECT, OBJECT]
  {
    var w7 := Scene([Some(ENDPOINT), Some(OWNER), Some(OWNER)], [None], map[], 2, [], []);
    var w8 := Next(w7, Close(1, 1));
    assert w8.tables[1] == [Some(ENDPOINT), None, Some(OWNER)] && w8.released == [OBJECT];
    var w9 := Next(w8, Close(1, 2));
    assert w9.released == [OBJECT] + [OBJECT];
    Cons(w8, Close(1, 2), w9, []);
    Cons(w7, Close(1, 1), w8, [Close(1, 2)] + []);
    assert [Close(1, 1), Close(1, 2)] == [Close(1, 1)] + ([Close(1, 2)] + []);
  }

  lemma {:induction false} Append(w: World, a: seq<Event>, b: seq<Event>)
    requires Possible(w, a) && Possible(After(w, a), b)
    ensures Possible(w, a + b) && After(w, a + b) == After(After(w, a), b)
    decreases |a|
  {
    if a == [] {
      assert a + b == b;
    } else {
      Append(Next(w, a[0]), a[1..], b);
      assert (a + b)[1..] == a[1..] + b;
    }
  }

  /** DUPLICATE, then TRANSFER of the copy: from empty tables, with new objects only, to an object
      that is released twice. */
  lemma TransferReleasesTwice()
    ensures Empty(Nothing())
    ensures var evs := CopySent() + CopyReturned() + [Close(1, 1), Close(1, 2)];
            Possible(Nothing(), evs) && After(Nothing(), evs).released == [OBJECT, OBJECT]
  {
    CopyReaches();
    CopyComesBackOwning();
    BothClose();
    Append(Nothing(), CopySent(), CopyReturned());
    Append(Nothing(), CopySent() + CopyReturned(), [Close(1, 1), Close(1, 2)]);
  }

  /** SYS_HANDLE_CREATE owns whatever object number it is given: two calls and two closes release
      the same one twice. */
  lemma CreateReleasesTwice()
    ensures Empty(Nothing())
    ensures var evs := [Create(1, 0, OWNER, false), Create(1, 1, OWNER, false), Close(1, 0), Close(1, 1)];
            Possible(Nothing(), evs) && After(Nothing(), evs).released == [OBJECT, OBJECT]
  {
    var w0, e := Nothing(), Some(OWNER);
    var w1 := Next(w0, Create(1, 0, OWNER, false));
    assert w1.tables[1] == [e, None, None];
    var w2 := Next(w1, Create(1, 1, OWNER, false));
    assert w2.tables[1] == [e, e, None];
    var w3 := Next(w2, Close(1, 0));
    assert w3.tables[1] == [None, e, None] && w3.released == [OBJECT];
    var w4 := Next(w3, Close(1, 1));
    assert w4.released == [OBJECT] + [OBJECT];
    Cons(w3, Close(1, 1), w4, []);
    Cons(w2, Close(1, 0), w3, [Close(1, 1)] + []);
    Cons(w1, Create(1, 1, OWNER, false), w2, [Close(1, 0)] + ([Close(1, 1)] + []));
    assert [Create(1, 0, OWNER, false), Create(1, 1, OWNER, false), Close(1, 0), Close(1, 1)]
        == [Create(1, 0, OWNER, false)]
           + ([Create(1, 1, OWNER, false)] + ([Close(1, 0)] + ([Close(1, 1)] + [])));
    Cons(w0, Create(1, 0, OWNER, false), w1, [Create(1, 1, OWNER, false)] + ([Close(1, 0)] + ([Close(1, 1)] + [])));
  }

  // ---- capabilities in flight ---------------------------------------------------------------

  /** A capability in flight leaves its channel only into a slot of a receiving process, unless
      the channel itself is released: no plain receive and no full table loses it. */
  lemma CapsAreNotLost(w: World, ev: Event, ch: Obj, n: int)
    requires Enabled(w, ev) && InFlight(w, ch, n) && ch in Next(w, ev).chans && !InFlight(Next(w, ev), ch, n)
    ensures ev.RecvCap? && ev.ch == ch && n == w.chans[ch].first
    ensures Open(Next(w, ev), ev.p, ev.i) && Next(w, ev).tables[ev.p][ev.i] == w.chans[ch].caps[0]
  {
    match ev
    case ExitProcess(p) =>
      CloseKeepsChannels(w, p, 0, ch);
      assert false;
    case _ =>
  }

  lemma {:induction false} CloseKeepsChannels(w: World, p: Pid, i: int, ch: Obj)
    requires p in w.tables && 0 <= i <= |w.tables[p]|
    ensures ch in CloseFrom(w, p, i).chans ==> ch in w.chans && CloseFrom(w, p, i).chans[ch] == w.chans[ch]
    decreases |w.tables[p]| - i
  {
    if i < |w.tables[p]| {
      if w.tables[p][i].None? {
        CloseKeepsChannels(w, p, i + 1, ch);
      } else {
        CloseKeepsChannels(CloseHandle(w, p, i), p, i + 1, ch);
      }
    }
  }
}
