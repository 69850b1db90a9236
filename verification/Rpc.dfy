/** The request/reply protocol between the file server (src/userspace/vfs/main.c, fd_table.c) and
    any number of clients (src/userspace/libc/vfs_client.c): one shared request channel, one reply
    channel per client.  A client is one session, named by its reply channel.  Serial numbers are
    bookkeeping of the model; the messages of the source carry only the client id. */
module Rpc {

  const MAX_CLIENTS: int := 8
  const FD_MAX: int := 64
  const U32: int := 0x1_0000_0000
  const EBADF: int := 9
  const EMFILE: int := 24
  const REPLY_CAPACITY: int := 4

  type Fds = seq<int>

  function NoFds(): Fds {
    seq(FD_MAX, i => 0)
  }

  /** Requests by what they do to the descriptor table. */
  datatype Op = Open | Close(fd: int) | Use(fd: int) | Seek(fd: int) | ByPath | Shutdown

  /** What a request answers and leaves behind; `out` is what the file system itself said: the new
      file or the result, negative for an error. */
  datatype Answer = Answer(ret: int, aux: int, fds: Fds)

  /** vfs_fd_alloc: the lowest free descriptor. */
  function LowestFree(fds: Fds): (k: int)
    ensures 0 <= k <= |fds|
    ensures k < |fds| ==> fds[k] == 0
    ensures forall j :: 0 <= j < k ==> fds[j] != 0
  {
    if fds == [] || fds[0] == 0 then 0 else 1 + LowestFree(fds[1..])
  }

  predicate IsOpen(fds: Fds, fd: int) {
    0 <= fd < FD_MAX && fd < |fds| && fds[fd] != 0
  }

  function Reaction(fds: Fds, op: Op, out: int): Answer {
    match op
    case Open =>
      if out < 0 then Answer(out, 0, fds)
      else if LowestFree(fds) == |fds| then Answer(-EMFILE, 0, fds)
      else Answer(0, LowestFree(fds), fds[LowestFree(fds) := out])
    case Close(fd) => if IsOpen(fds, fd) then Answer(0, 0, fds[fd := 0]) else Answer(-EBADF, 0, fds)
    case Use(fd) => if IsOpen(fds, fd) then Answer(out, 0, fds) else Answer(-EBADF, 0, fds)
    case Seek(fd) =>
      // the client reads the new offset from `aux`
      if IsOpen(fds, fd) then Answer(out, if out < 0 then 0 else out, fds) else Answer(-EBADF, 0, fds)
    case ByPath => Answer(out, 0, fds)
    case Shutdown => Answer(0, 0, NoFds())
  }

  /** What a client is promised about the answer to its request, given its table, what the file system
      said, and the table afterwards. */
  ghost predicate Lawful(fds: Fds, op: Op, out: int, a: Answer)
    requires |fds| == FD_MAX
  {
    match op
    case Open =>
      if out < 0 then a == Answer(out, 0, fds)
      else if forall i :: 0 <= i < FD_MAX ==> fds[i] != 0 then a == Answer(-EMFILE, 0, fds)
      else
        && a.ret == 0 && 0 <= a.aux < FD_MAX && fds[a.aux] == 0 && (forall i :: 0 <= i < a.aux ==> fds[i] != 0)
        && Replaced(fds, a.fds, a.aux, out)
    case Close(fd) =>
      if 0 <= fd < FD_MAX && fds[fd] != 0 then a.ret == 0 && a.aux == 0 && Replaced(fds, a.fds, fd, 0)
      else a == Answer(-EBADF, 0, fds)
    case Use(fd) =>
      a.aux == 0 && a.fds == fds && a.ret == if 0 <= fd < FD_MAX && fds[fd] != 0 then out else -EBADF
    case Seek(fd) =>
      && a.fds == fds && a.ret == (if 0 <= fd < FD_MAX && fds[fd] != 0 then out else -EBADF)
      && a.aux == if a.ret >= 0 then a.ret else 0
    case ByPath => a == Answer(out, 0, fds)
    case Shutdown => a.ret == 0 && a.aux == 0 && |a.fds| == FD_MAX && forall i :: 0 <= i < FD_MAX ==> a.fds[i] == 0
  }

  /** Slot `fd` holds `f` now and no other slot has changed. */
  ghost predicate Replaced(fds: Fds, fds': Fds, fd: int, f: int)
    requires |fds| == FD_MAX && 0 <= fd < FD_MAX
  {
    |fds'| == FD_MAX && forall i :: 0 <= i < FD_MAX ==> fds'[i] == if i == fd then f else fds[i]
  }

  lemma AnswersAreLawful(fds: Fds, op: Op, out: int)
    requires |fds| == FD_MAX
    ensures Lawful(fds, op, out, Reaction(fds, op, out)) && |Reaction(fds, op, out).fds| == FD_MAX
  {
  }

  /** A descriptor that open hands out was free and is open now, and closing it gives the table back. */
  lemma OpenThenClose(fds: Fds, out: int, out': int)
    requires |fds| == FD_MAX && out > 0
    ensures var a := Reaction(fds, Open, out);
            if (forall fd :: IsOpen(fds, fd) <==> 0 <= fd < FD_MAX) then a == Answer(-EMFILE, 0, fds)
            else a.ret == 0 && !IsOpen(fds, a.aux) && IsOpen(a.fds, a.aux) && a.fds[a.aux] == out
                 && (forall fd :: fd != a.aux ==> (IsOpen(a.fds, fd) <==> IsOpen(fds, fd)))
                 && Reaction(a.fds, Close(a.aux), out') == Answer(0, 0, fds)
  {
    var k := LowestFree(fds);
    if k < |fds| {
      assert !IsOpen(fds, k);
      assert fds[k := out][k := 0] == fds;
    }
  }

  datatype Phase =
    | Attaching(serial: int)
    | Ready(id: int)
    | Calling(id: int, serial: int, op: Op)
    | Refused

  datatype Msg = Attach(from: int, serial: int) | Call(from: int, serial: int, id: int, op: Op)

  datatype Slot = Free | Used(id: int, resp: int, fds: Fds)

  datatype Reply =
    | Attached(serial: int, id: int)
    | Rejected(serial: int)
    | Answered(serial: int, ret: int, aux: int, out: int)

  /** `view` is the descriptor table as the client would keep it from its own requests alone. */
  datatype Client = Client(phase: Phase, replies: seq<Reply>, view: Fds)

  datatype St = St(clients: map<int, Client>, queue: seq<Msg>, slots: seq<Slot>, nextId: int, serial: int)

  datatype Event = Join(pid: int) | Send(pid: int, op: Op) | Receive(pid: int) | Serve(out: int)

  // ---- steps --------------------------------------------------------------------------------

  function Init(): St {
    St(map[], [], seq(MAX_CLIENTS, i => Free), 1, 0)
  }

  /** client_attach: the first slot not in use. */
  function FreeSlot(slots: seq<Slot>): (k: int)
    ensures 0 <= k <= |slots|
    ensures k < |slots| ==> slots[k].Free?
    ensures forall j :: 0 <= j < k ==> slots[j].Used?
  {
    if slots == [] || slots[0].Free? then 0 else 1 + FreeSlot(slots[1..])
  }

  /** client_find */
  function SlotOf(slots: seq<Slot>, id: int): (k: int)
    ensures 0 <= k <= |slots|
    ensures k < |slots| ==> slots[k].Used? && slots[k].id == id
    ensures k == |slots| ==> forall j :: 0 <= j < |slots| && slots[j].Used? ==> slots[j].id != id
  {
    if slots == [] then 0
    else if slots[0].Used? && slots[0].id == id then 0
    else 1 + SlotOf(slots[1..], id)
  }

  predicate Legal(s: St, ev: Event) {
    match ev
    case Join(pid) => pid !in s.clients
    case Send(pid, op) => pid in s.clients && s.clients[pid].phase.Ready?
    case Receive(pid) =>
      pid in s.clients && (s.clients[pid].phase.Attaching? || s.clients[pid].phase.Calling?)
          && s.clients[pid].replies != []
    case Serve(out) =>
      // a file that was opened has an address
      s.queue != [] && (s.queue[0].Attach? ==> s.nextId + 1 < U32)
          && (s.queue[0].Call? && s.queue[0].op.Open? ==> out != 0)
  }

  function Deliver(s: St, pid: int, r: Reply): St {
    if pid in s.clients then
      s.(clients := s.clients[pid := s.clients[pid].(replies := s.clients[pid].replies + [r])])
    else s
  }

  /** The server takes the next request off the shared channel. */
  function ServeMsg(s: St, m: Msg, out: int): St {
    match m
    case Attach(pid, n) =>
      var k := FreeSlot(s.slots);
      if k == |s.slots| then Deliver(s, pid, Rejected(n))
      else Deliver(s.(slots := s.slots[k := Used(s.nextId, pid, NoFds())], nextId := (s.nextId + 1) % U32), pid,
                   Attached(n, s.nextId))
    case Call(pid, n, id, op) =>
      var k := SlotOf(s.slots, id);
      if id == 0 || k == |s.slots| then s
      else
        var a := Reaction(s.slots[k].fds, op, out);
        Deliver(s.(slots := s.slots[k := if op.Shutdown? then Free else s.slots[k].(fds := a.fds)]),
                s.slots[k].resp, Answered(n, a.ret, a.aux, out))
  }

  /** What the waiting client makes of the reply in front of it. */
  function Accept(c: Client, r: Reply): Client {
    var rest := c.(replies := c.replies[if c.replies == [] then 0 else 1..]);
    if c.phase.Attaching? then rest.(phase := if r.Attached? then Ready(r.id) else Refused)
    else if c.phase.Calling? && r.Answered? then
      rest.(phase := Ready(c.phase.id), view := Reaction(c.view, c.phase.op, r.out).fds)
    else rest
  }

  function Next(s: St, ev: Event): St
    requires Legal(s, ev)
  {
    match ev
    case Join(pid) =>
      s.(clients := s.clients[pid := Client(Attaching(s.serial), [], NoFds())],
         queue := s.queue + [Attach(pid, s.serial)], serial := s.serial + 1)
    case Send(pid, op) =>
      var c := s.clients[pid];
      s.(clients := s.clients[pid := c.(phase := Calling(c.phase.id, s.serial, op))],
         queue := s.queue + [Call(pid, s.serial, c.phase.id, op)], serial := s.serial + 1)
    case Receive(pid) => s.(clients := s.clients[pid := Accept(s.clients[pid], s.clients[pid].replies[0])])
    case Serve(out) => ServeMsg(s.(queue := s.queue[1..]), s.queue[0], out)
  }

  // ---- the invariant --------------------------------------------------------------------------

  /** A queued message is the one its sender is waiting on, and no answer to it exists yet. */
  ghost predicate MsgOk(s: St, i: int)
    requires 0 <= i < |s.queue|
  {
    var m := s.queue[i];
    && m.from in s.clients && s.clients[m.from].replies == []
    && s.clients[m.from].phase == (if m.Attach? then Attaching(m.serial) else Calling(m.id, m.serial, m.op))
  }

  /** The id the server gave the client, once there is one. */
  function IdOf(c: Client): int {
    match c.phase
    case Attaching(_) => if c.replies != [] && c.replies[0].Attached? then c.replies[0].id else 0
    case Ready(id) => id
    case Calling(id, _, _) => id
    case Refused => 0
  }

  /** The table the server should hold for the client: its view, moved on by an unread answer. */
  function Expected(c: Client): Fds {
    if c.phase.Calling? && c.replies != [] && c.replies[0].Answered?
    then Reaction(c.view, c.phase.op, c.replies[0].out).fds
    else c.view
  }

  /** At most one unread reply, and it answers the outstanding request from the client's own table. */
  ghost predicate ClientOk(s: St, pid: int)
    requires pid in s.clients
  {
    var c := s.clients[pid];
    && |c.replies| <= 1 && 0 <= IdOf(c) < s.nextId && |c.view| == FD_MAX
    && (c.phase.Ready? || c.phase.Calling? ==> IdOf(c) > 0)
    && (c.phase.Attaching? ==> c.view == NoFds())
    && (c.replies != [] ==> Fitting(c, c.replies[0]))
  }

  predicate Fitting(c: Client, r: Reply) {
    match c.phase
    case Attaching(n) => (r.Attached? && r.id > 0 && r.serial == n) || r == Rejected(n)
    case Calling(_, n, op) =>
      r.Answered? && r == Answered(n, Reaction(c.view, op, r.out).ret, Reaction(c.view, op, r.out).aux, r.out)
    case Ready(_) => false
    case Refused => false
  }

  /** A slot in use belongs to the client with that id and holds that client's table; a client whose
      shutdown is done has no slot. */
  ghost predicate SlotOk(s: St, k: int)
    requires 0 <= k < |s.slots|
  {
    s.slots[k].Used? ==>
      var u := s.slots[k];
      && u.resp in s.clients && IdOf(s.clients[u.resp]) == u.id > 0 && u.fds == Expected(s.clients[u.resp])
      && !(s.clients[u.resp].phase.Calling? && s.clients[u.resp].phase.op.Shutdown? && s.clients[u.resp].replies != [])
  }

  ghost predicate IdsDiffer(s: St) {
    forall p, q :: p in s.clients && q in s.clients && p != q && IdOf(s.clients[p]) > 0 ==>
        IdOf(s.clients[p]) != IdOf(s.clients[q])
  }

  ghost predicate SendersDiffer(queue: seq<Msg>) {
    forall i, j :: 0 <= i < j < |queue| ==> queue[i].from != queue[j].from
  }

  ghost predicate SlotsDiffer(slots: seq<Slot>) {
    forall i, j :: 0 <= i < j < |slots| && slots[i].Used? && slots[j].Used? ==> slots[i].id != slots[j].id
  }

  ghost predicate Inv(s: St) {
    && |s.slots| == MAX_CLIENTS && 0 < s.nextId < U32
    && (forall i :: 0 <= i < |s.queue| ==> MsgOk(s, i))
    && (forall p {:trigger ClientOk(s, p)} :: p in s.clients ==> ClientOk(s, p))
    && (forall k :: 0 <= k < |s.slots| ==> SlotOk(s, k))
    && IdsDiffer(s) && SendersDiffer(s.queue) && SlotsDiffer(s.slots)
  }

  lemma InitOk()
    ensures Inv(Init())
  {
  }

  // ---- every step keeps it ----------------------------------------------------------------------

  lemma JoinKeeps(s: St, pid: int)
    requires Inv(s) && Legal(s, Join(pid))
    ensures Inv(Next(s, Join(pid)))
  {
    var t := Next(s, Join(pid));
    forall i | 0 <= i < |t.queue|
      ensures MsgOk(t, i)
    {
      if i < |s.queue| { assert MsgOk(s, i); }
    }
    forall p | p in t.clients
      ensures ClientOk(t, p)
    {
      if p != pid { assert ClientOk(s, p); }
    }
    forall k | 0 <= k < |t.slots|
      ensures SlotOk(t, k)
    {
      assert SlotOk(s, k);
    }
    forall i, j | 0 <= i < j < |t.queue|
      ensures t.queue[i].from != t.queue[j].from
    {
      assert MsgOk(s, i);
    }
  }

  lemma SendKeeps(s: St, pid: int, op: Op)
    requires Inv(s) && Legal(s, Send(pid, op))
    ensures Inv(Next(s, Send(pid, op)))
  {
    var t := Next(s, Send(pid, op));
    assert ClientOk(s, pid);
    forall i | 0 <= i < |t.queue|
      ensures MsgOk(t, i)
    {
      if i < |s.queue| { assert MsgOk(s, i); }
    }
    forall p | p in t.clients
      ensures ClientOk(t, p)
    {
      assert ClientOk(s, p);
    }
    forall k | 0 <= k < |t.slots|
      ensures SlotOk(t, k)
    {
      assert SlotOk(s, k);
    }
    forall i, j | 0 <= i < j < |t.queue|
      ensures t.queue[i].from != t.queue[j].from
    {
      assert MsgOk(s, i);
    }
  }

  lemma ReceiveKeeps(s: St, pid: int)
    requires Inv(s) && Legal(s, Receive(pid))
    ensures Inv(Next(s, Receive(pid)))
  {
    var t := Next(s, Receive(pid));
    assert ClientOk(s, pid);
    assert t.clients[pid].replies == [];
    forall i | 0 <= i < |t.queue|
      ensures MsgOk(t, i)
    {
      assert MsgOk(s, i);
    }
    forall p | p in t.clients
      ensures ClientOk(t, p)
    {
      assert ClientOk(s, p);
    }
    forall k | 0 <= k < |t.slots|
      ensures SlotOk(t, k)
    {
      assert SlotOk(s, k);
    }
  }

  /** The tail of the queue, seen from a state where only client `pid` differs. */
  lemma TailKeeps(s: St, t: St, pid: int)
    requires Inv(s) && s.queue != [] && s.queue[0].from == pid && t.queue == s.queue[1..]
    requires forall p :: p in s.clients && p != pid ==> p in t.clients && t.clients[p] == s.clients[p]
    ensures SendersDiffer(t.queue) && forall i :: 0 <= i < |t.queue| ==> MsgOk(t, i)
  {
    forall i | 0 <= i < |t.queue|
      ensures MsgOk(t, i)
    {
      assert t.queue[i] == s.queue[i + 1] && MsgOk(s, i + 1);
      assert s.queue[0].from != s.queue[i + 1].from;
    }
    assert forall i :: 0 <= i < |t.queue| ==> t.queue[i] == s.queue[i + 1];
  }

  lemma ServeAttachKeeps(s: St, out: int)
    requires Inv(s) && Legal(s, Serve(out)) && s.queue[0].Attach?
    ensures Inv(Next(s, Serve(out)))
  {
    var t := Next(s, Serve(out));
    var pid := s.queue[0].from;
    assert MsgOk(s, 0) && ClientOk(s, pid);
    TailKeeps(s, t, pid);
    forall p | p in t.clients
      ensures ClientOk(t, p)
    {
      assert ClientOk(s, p);
    }
    var n := FreeSlot(s.slots);
    forall k | 0 <= k < |t.slots|
      ensures SlotOk(t, k)
    {
      assert SlotOk(s, k);
    }
    forall i, j | 0 <= i < j < |t.slots| && t.slots[i].Used? && t.slots[j].Used?
      ensures t.slots[i].id != t.slots[j].id
    {
      assert SlotOk(s, i) && SlotOk(s, j);
      if i != n { assert ClientOk(s, s.slots[i].resp); }
      if j != n { assert ClientOk(s, s.slots[j].resp); }
    }
    forall p, q | p in t.clients && q in t.clients && p != q && IdOf(t.clients[p]) > 0
      ensures IdOf(t.clients[p]) != IdOf(t.clients[q])
    {
      assert ClientOk(s, p) && ClientOk(s, q);
    }
  }

  /** The slot found by id is the sender's own. */
  lemma OwnSlot(s: St)
    requires Inv(s) && s.queue != [] && s.queue[0].Call?
    ensures var k := SlotOf(s.slots, s.queue[0].id);
            s.queue[0].from in s.clients
            && (k < |s.slots| ==>
                  s.slots[k].resp == s.queue[0].from && s.slots[k].fds == s.clients[s.queue[0].from].view)
  {
    var m, k := s.queue[0], SlotOf(s.slots, s.queue[0].id);
    assert MsgOk(s, 0) && ClientOk(s, m.from);
    if k < |s.slots| {
      assert SlotOk(s, k);
      assert IdOf(s.clients[m.from]) == m.id == IdOf(s.clients[s.slots[k].resp]);
    }
  }

  lemma ServeCallKeeps(s: St, out: int)
    requires Inv(s) && Legal(s, Serve(out)) && s.queue[0].Call?
    ensures Inv(Next(s, Serve(out)))
  {
    var t, m := Next(s, Serve(out)), s.queue[0];
    var pid := m.from;
    assert MsgOk(s, 0) && ClientOk(s, pid);
    OwnSlot(s);
    TailKeeps(s, t, pid);
    forall p | p in t.clients
      ensures ClientOk(t, p) && IdOf(t.clients[p]) == IdOf(s.clients[p])
    {
      assert ClientOk(s, p);
    }
    forall k | 0 <= k < |t.slots|
      ensures SlotOk(t, k)
    {
      assert SlotOk(s, k);
      var own := SlotOf(s.slots, m.id);
      if k != own && own < |s.slots| && t.slots[k].Used? {
        assert s.slots[k].id != s.slots[own].id;
      }
    }
  }

  lemma StepKeeps(s: St, ev: Event)
    requires Inv(s) && Legal(s, ev)
    ensures Inv(Next(s, ev))
  {
    match ev
    case Join(pid) => JoinKeeps(s, pid);
    case Send(pid, op) => SendKeeps(s, pid, op);
    case Receive(pid) => ReceiveKeeps(s, pid);
    case Serve(out) => if s.queue[0].Attach? { ServeAttachKeeps(s, out); } else { ServeCallKeeps(s, out); }
  }

  // ---- whole runs ---------------------------------------------------------------------------------

  ghost predicate LegalRun(s: St, evs: seq<Event>)
    decreases |evs|
  {
    evs == [] || (Legal(s, evs[0]) && LegalRun(Next(s, evs[0]), evs[1..]))
  }

  function After(s: St, evs: seq<Event>): St
    requires LegalRun(s, evs)
    decreases |evs|
  {
    if evs == [] then s else After(Next(s, evs[0]), evs[1..])
  }

  lemma {:induction false} RunKeeps(s: St, evs: seq<Event>)
    requires Inv(s) && LegalRun(s, evs)
    ensures Inv(After(s, evs))
    decreases |evs|
  {
    if evs != [] {
      StepKeeps(s, evs[0]);
      RunKeeps(Next(s, evs[0]), evs[1..]);
    }
  }

  /** In every run, a reply that a client can read answers its latest request, with the result its
      own requests alone determine (and what the file system said). */
  lemma RepliesAreOwn(evs: seq<Event>, pid: int)
    requires LegalRun(Init(), evs) && pid in After(Init(), evs).clients
    ensures var c := After(Init(), evs).clients[pid];
            |c.replies| <= 1 < REPLY_CAPACITY && (c.replies != [] ==> Fitting(c, c.replies[0]))
  {
    InitOk();
    RunKeeps(Init(), evs);
    assert ClientOk(After(Init(), evs), pid);
  }

  /** In every run, the reply that a client reads after a request is lawful for the table that its own
      requests have led to, and it moves on to the table that the law says. */
  lemma RepliesAreLawful(evs: seq<Event>, pid: int)
    requires LegalRun(Init(), evs) && Legal(After(Init(), evs), Receive(pid))
    requires After(Init(), evs).clients[pid].phase.Calling?
    ensures var c, c' := After(Init(), evs).clients[pid], Next(After(Init(), evs), Receive(pid)).clients[pid];
            var r := c.replies[0];
            && r.Answered? && r.serial == c.phase.serial && |c.view| == FD_MAX
            && Lawful(c.view, c.phase.op, r.out, Answer(r.ret, r.aux, c'.view))
            && c'.phase == Ready(c.phase.id) && c'.replies == []
  {
    InitOk();
    RunKeeps(Init(), evs);
    var c := After(Init(), evs).clients[pid];
    assert ClientOk(After(Init(), evs), pid);
    AnswersAreLawful(c.view, c.phase.op, c.replies[0].out);
  }

  /** The reply goes to `pid` and nothing else reaches a client. */
  ghost predicate Replies(s: St, t: St, pid: int, r: Reply) {
    && pid in s.clients && t.clients.Keys == s.clients.Keys
    && t.clients[pid] == s.clients[pid].(replies := s.clients[pid].replies + [r])
    && forall p :: p in s.clients && p != pid ==> t.clients[p] == s.clients[p]
  }

  /** Slot `k` holds `u` now and no other slot has changed. */
  ghost predicate SlotSet(s: St, t: St, k: int, u: Slot) {
    && 0 <= k < |s.slots| == |t.slots|
    && forall j :: 0 <= j < |s.slots| ==> t.slots[j] == if j == k then u else s.slots[j]
  }

  /** An attach request gets the lowest free slot and the next id, or is turned away exactly when all
      slots are in use. */
  lemma AttachIsServed(evs: seq<Event>, out: int)
    requires LegalRun(Init(), evs) && Legal(After(Init(), evs), Serve(out)) && After(Init(), evs).queue[0].Attach?
    ensures var s, t := After(Init(), evs), Next(After(Init(), evs), Serve(out));
            var m := s.queue[0];
            && t.queue == s.queue[1..] && t.serial == s.serial
            && if forall k :: 0 <= k < |s.slots| ==> s.slots[k].Used?
               then t.slots == s.slots && t.nextId == s.nextId && Replies(s, t, m.from, Rejected(m.serial))
               else t.nextId == s.nextId + 1 && Replies(s, t, m.from, Attached(m.serial, s.nextId))
                    && exists k :: SlotSet(s, t, k, Used(s.nextId, m.from, NoFds())) && s.slots[k].Free?
                                   && forall j :: 0 <= j < k ==> s.slots[j].Used?
  {
    InitOk();
    RunKeeps(Init(), evs);
    var s, t := After(Init(), evs), Next(After(Init(), evs), Serve(out));
    assert MsgOk(s, 0);
    var k := FreeSlot(s.slots);
    if k < |s.slots| {
      assert s.slots[k].Free?;
      assert SlotSet(s, t, k, Used(s.nextId, s.queue[0].from, NoFds()));
    }
  }

  /** A call is answered lawfully from the sender's slot, or not at all when the sender has none. */
  lemma CallIsServed(evs: seq<Event>, out: int)
    requires LegalRun(Init(), evs) && Legal(After(Init(), evs), Serve(out)) && After(Init(), evs).queue[0].Call?
    ensures var s, t := After(Init(), evs), Next(After(Init(), evs), Serve(out));
            var m := s.queue[0];
            && t.queue == s.queue[1..] && t.serial == s.serial && t.nextId == s.nextId
            && if forall k :: 0 <= k < |s.slots| && s.slots[k].Used? ==> s.slots[k].resp != m.from
               then t.slots == s.slots && t.clients == s.clients
               else exists k, a :: 0 <= k < |s.slots| && s.slots[k].Used? && s.slots[k].resp == m.from
                                   && |s.slots[k].fds| == FD_MAX && Lawful(s.slots[k].fds, m.op, out, a)
                                   && Replies(s, t, m.from, Answered(m.serial, a.ret, a.aux, out))
                                   && SlotSet(s, t, k, if m.op.Shutdown? then Free else s.slots[k].(fds := a.fds))
  {
    InitOk();
    RunKeeps(Init(), evs);
    ServesCall(After(Init(), evs), out);
  }

  lemma ServesCall(s: St, out: int)
    requires Inv(s) && Legal(s, Serve(out)) && s.queue[0].Call?
    ensures var t, m := Next(s, Serve(out)), s.queue[0];
            && t.queue == s.queue[1..] && t.serial == s.serial && t.nextId == s.nextId
            && if forall k :: 0 <= k < |s.slots| && s.slots[k].Used? ==> s.slots[k].resp != m.from
               then t.slots == s.slots && t.clients == s.clients
               else exists k, a :: 0 <= k < |s.slots| && s.slots[k].Used? && s.slots[k].resp == m.from
                                   && |s.slots[k].fds| == FD_MAX && Lawful(s.slots[k].fds, m.op, out, a)
                                   && Replies(s, t, m.from, Answered(m.serial, a.ret, a.aux, out))
                                   && SlotSet(s, t, k, if m.op.Shutdown? then Free else s.slots[k].(fds := a.fds))
  {
    var t, m := Next(s, Serve(out)), s.queue[0];
    var k := SlotOf(s.slots, m.id);
    assert MsgOk(s, 0) && ClientOk(s, m.from);
    OwnSlot(s);
    if k < |s.slots| {
      assert SlotOk(s, k);
      AnswersAreLawful(s.slots[k].fds, m.op, out);
      var a := Reaction(s.slots[k].fds, m.op, out);
      assert Replies(s, t, m.from, Answered(m.serial, a.ret, a.aux, out));
      assert SlotSet(s, t, k, if m.op.Shutdown? then Free else s.slots[k].(fds := a.fds));
    } else {
      forall j | 0 <= j < |s.slots| && s.slots[j].Used?
        ensures s.slots[j].resp != m.from
      {
        assert SlotOk(s, j);
      }
    }
  }

  /** Joining and sending put exactly one message at the end of the shared channel. */
  lemma RequestIsQueued(s: St, ev: Event)
    requires Legal(s, ev) && (ev.Join? || ev.Send?)
    ensures var t := Next(s, ev);
            && t.slots == s.slots && t.nextId == s.nextId && t.serial == s.serial + 1
            && t.clients.Keys == s.clients.Keys + {ev.pid}
            && (forall p :: p in s.clients && p != ev.pid ==> t.clients[p] == s.clients[p])
            && t.queue == s.queue + [if ev.Join? then Attach(ev.pid, s.serial)
                                     else Call(ev.pid, s.serial, s.clients[ev.pid].phase.id, ev.op)]
  {
  }

  /** In every run, live clients have different ids and different slots, and each slot holds the
      table its client expects. */
  lemma IdsAreOwn(evs: seq<Event>, i: int, j: int)
    requires LegalRun(Init(), evs)
    requires 0 <= i < j < MAX_CLIENTS && |After(Init(), evs).slots| == MAX_CLIENTS
    requires After(Init(), evs).slots[i].Used? && After(Init(), evs).slots[j].Used?
    ensures var s := After(Init(), evs);
            && s.slots[i].id != s.slots[j].id && s.slots[i].resp != s.slots[j].resp
            && s.slots[i].resp in s.clients && s.slots[i].fds == Expected(s.clients[s.slots[i].resp])
  {
    InitOk();
    RunKeeps(Init(), evs);
    var s := After(Init(), evs);
    assert SlotOk(s, i) && SlotOk(s, j);
  }

  /** In every run, serving a request changes no slot but the sender's, no client but the sender, and
      the reply goes into an empty channel: the server never waits for room. */
  lemma ServeIsLocal(evs: seq<Event>, out: int)
    requires LegalRun(Init(), evs) && Legal(After(Init(), evs), Serve(out))
    ensures var s, t := After(Init(), evs), Next(After(Init(), evs), Serve(out));
            var pid := s.queue[0].from;
            && pid in s.clients && s.clients[pid].replies == []
            && t.clients.Keys == s.clients.Keys && |t.slots| == |s.slots|
            && (forall p :: p in s.clients && p != pid ==> t.clients[p] == s.clients[p])
            && (forall k :: 0 <= k < |s.slots| && t.slots[k] != s.slots[k] ==>
                  (s.slots[k].Used? ==> s.slots[k].resp == pid) && (t.slots[k].Used? ==> t.slots[k].resp == pid))
  {
    InitOk();
    RunKeeps(Init(), evs);
    var s := After(Init(), evs);
    assert MsgOk(s, 0);
    if s.queue[0].Call? { OwnSlot(s); }
  }

  // ---- the server's code ----------------------------------------------------------------------------

  class FileServer {
    const slots: array<Slot>
    var nextId: int

    ghost predicate Valid()
      reads this, slots
    {
      slots.Length == MAX_CLIENTS && 0 <= nextId < U32
    }

    constructor ()
      ensures Valid() && slots[..] == Init().slots && nextId == Init().nextId && fresh(slots)
    {
      slots := new Slot[MAX_CLIENTS](_ => Free);
      nextId := 1;
    }

    /** client_find */
    method Find(id: int) returns (k: int)
      requires Valid()
      ensures k == if id == 0 then slots.Length else SlotOf(slots[..], id)
    {
      if id == 0 {
        return slots.Length;
      }
      k := 0;
      assert slots[0..] == slots[..];
      while k < slots.Length
        invariant 0 <= k <= slots.Length && SlotOf(slots[..], id) == k + SlotOf(slots[k..], id)
      {
        if slots[k].Used? && slots[k].id == id {
          return;
        }
        assert slots[k..][1..] == slots[k + 1..];
        k := k + 1;
      }
    }

    /** client_attach */
    method TakeSlot(resp: int) returns (k: int)
      requires Valid()
      modifies this`nextId, slots
      ensures Valid() && k == FreeSlot(old(slots[..]))
      ensures k == slots.Length ==> slots[..] == old(slots[..]) && nextId == old(nextId)
      ensures k < slots.Length ==>
                slots[..] == old(slots[..])[k := Used(old(nextId), resp, NoFds())] && nextId == (old(nextId) + 1) % U32
    {
      k := 0;
      assert slots[0..] == slots[..];
      while k < slots.Length
        invariant 0 <= k <= slots.Length && FreeSlot(slots[..]) == k + FreeSlot(slots[k..])
        invariant slots[..] == old(slots[..]) && nextId == old(nextId)
      {
        if slots[k].Free? {
          slots[k] := Used(nextId, resp, NoFds());
          nextId := (nextId + 1) % U32;
          return;
        }
        assert slots[k..][1..] == slots[k + 1..];
        k := k + 1;
      }
    }

    /** vfs_fd_alloc */
    method AllocFd(fds: Fds) returns (fd: int)
      ensures fd == LowestFree(fds)
    {
      fd := 0;
      assert fds[0..] == fds;
      while fd < |fds|
        invariant 0 <= fd <= |fds| && LowestFree(fds) == fd + LowestFree(fds[fd..])
      {
        if fds[fd] == 0 {
          return;
        }
        assert fds[fd..][1..] == fds[fd + 1..];
        fd := fd + 1;
      }
    }

    /** handle: the effect of one request on a descriptor table. */
    method Handle(fds: Fds, op: Op, out: int) returns (a: Answer)
      ensures a == Reaction(fds, op, out)
    {
      match op
      case Open =>
        if out < 0 {
          return Answer(out, 0, fds);
        }
        var fd := AllocFd(fds);
        if fd == |fds| {
          return Answer(-EMFILE, 0, fds);
        }
        return Answer(0, fd, fds[fd := out]);
      case Close(fd) =>
        if !IsOpen(fds, fd) {
          return Answer(-EBADF, 0, fds);
        }
        return Answer(0, 0, fds[fd := 0]);
      case Use(fd) =>
        return Answer(if IsOpen(fds, fd) then out else -EBADF, 0, fds);
      case Seek(fd) =>
        if !IsOpen(fds, fd) {
          return Answer(-EBADF, 0, fds);
        }
        return Answer(out, if out < 0 then 0 else out, fds);
      case ByPath =>
        return Answer(out, 0, fds);
      case Shutdown =>
        return Answer(0, 0, NoFds());
    }

    /** One turn of the server's loop does what the step of the protocol says: `s` is any state whose
        server part this is. */
    method Turn(m: Msg, out: int, ghost s: St) returns (sent: bool, to: int, r: Reply)
      requires Valid() && s.slots == slots[..] && s.nextId == nextId
      modifies this`nextId, slots
      ensures Valid()
      ensures var t := ServeMsg(s, m, out);
              slots[..] == t.slots && nextId == t.nextId
              && t.clients == if sent then Deliver(s, to, r).clients else s.clients
    {
      if m.Attach? {
        var k := TakeSlot(m.from);
        if k == slots.Length {
          return true, m.from, Rejected(m.serial);
        }
        return true, m.from, Attached(m.serial, slots[k].id);
      }
      var k := Find(m.id);
      if k == slots.Length {
        return false, 0, Rejected(0);
      }
      var c := slots[k];
      var a := Handle(c.fds, m.op, out);
      slots[k] := if m.op.Shutdown? then Free else c.(fds := a.fds);
      return true, c.resp, Answered(m.serial, a.ret, a.aux, out);
    }
  }
}
