/** What the file server answers and does, said without the functions that compute it: which node a path
    names and why a lookup fails, when open, mkdir, unlink and rmdir succeed, with which error they fail,
    and what is different afterwards. */
module VfsMeaning {
  import opened VfsTree
  import opened PathWalk
  import opened Paths
  import opened Vfs
  import opened VfsLaws

  // ---- lookups -------------------------------------------------------------------------------

  /** The component `seg` leads from `a` to `b`. */
  ghost predicate Leads(nodes: Nodes, a: int, seg: string, b: int) {
    && a in nodes && b in nodes && |seg| <= 255
    && if seg == "." then b == a
       else if seg == ".." then b == nodes[a].parent
       else nodes[a].dir && b in nodes[a].children && nodes[b].name == seg
  }

  ghost predicate HasEntry(nodes: Nodes, d: int, name: string)
    requires d in nodes
  {
    exists c :: c in nodes[d].children && c in nodes && nodes[c].name == name
  }

  /** The component `seg` leads nowhere from `a`, and why. */
  ghost predicate Stops(nodes: Nodes, a: int, seg: string, e: Errno) {
    && a in nodes
    && if |seg| > 255 then e == ENAMETOOLONG
       else seg != "." && seg != ".." && if !nodes[a].dir then e == ENOTDIR else e == ENOENT && !HasEntry(nodes, a, seg)
  }

  /** The way along the components. */
  ghost predicate Chain(nodes: Nodes, segs: seq<string>, ids: seq<int>) {
    && |ids| == |segs| + 1 && forall i :: 0 <= i < |segs| ==> Leads(nodes, ids[i], segs[i], ids[i + 1])
  }

  lemma StepMeans(nodes: Nodes, root: int, nextIno: int, files: Files, temps: multiset<int>, cur: int, seg: string)
    requires Inv(nodes, root, nextIno, files, temps) && cur in nodes && Linked(nodes, root, cur)
    ensures var r := Step(nodes, cur, seg);
            if r.Ok? then Leads(nodes, cur, seg, r.id) else Stops(nodes, cur, seg, r.error)
    ensures forall b :: Leads(nodes, cur, seg, b) ==> Step(nodes, cur, seg) == Ok(b)
  {
    StepLinked(nodes, root, nextIno, files, temps, cur, seg);
    assert DirOk(nodes, root, cur);
    EntryIs(nodes, root, cur, seg);
  }

  /** The first child with a name is the child with that name. */
  lemma EntryIs(nodes: Nodes, root: int, d: int, name: string)
    requires d in nodes && DirOk(nodes, root, d)
    ensures HasEntry(nodes, d, name) <==> Lookup(nodes, d, name).Ok?
    ensures forall c :: c in nodes[d].children && c in nodes && nodes[c].name == name ==>
              Lookup(nodes, d, name) == Ok(c)
    ensures var r := Lookup(nodes, d, name);
            if r.Ok? then r.id in nodes[d].children && r.id in nodes && nodes[r.id].name == name else r == Err(ENOENT)
  {
    var cs, k := nodes[d].children, FindChild(nodes, nodes[d].children, name);
    forall c | c in cs && c in nodes && nodes[c].name == name
      ensures k < |cs| && cs[k] == c
    {
      var j :| 0 <= j < |cs| && cs[j] == c;
    }
    if k < |cs| { assert cs[k] in cs; }
  }

  /** A lookup follows the components as far as they lead; it answers the last node, or the reason why the
      first component that leads nowhere does not. */
  lemma {:induction false} WalkMeans(nodes: Nodes, root: int, nextIno: int, files: Files, temps: multiset<int>,
                                     cur: int, segs: seq<string>) returns (ids: seq<int>)
    requires Inv(nodes, root, nextIno, files, temps) && cur in nodes && Linked(nodes, root, cur)
    ensures 1 <= |ids| <= |segs| + 1 && ids[0] == cur && Chain(nodes, segs[..|ids| - 1], ids)
    ensures var r := Walk(nodes, cur, segs);
            if r.Ok? then |ids| == |segs| + 1 && ids[|segs|] == r.id
            else |ids| <= |segs| && Stops(nodes, ids[|ids| - 1], segs[|ids| - 1], r.error)
    decreases |segs|
  {
    if segs == [] {
      return [cur];
    }
    StepMeans(nodes, root, nextIno, files, temps, cur, segs[0]);
    StepLinked(nodes, root, nextIno, files, temps, cur, segs[0]);
    var r := Step(nodes, cur, segs[0]);
    if r.Err? {
      return [cur];
    }
    var rest := WalkMeans(nodes, root, nextIno, files, temps, r.id, segs[1..]);
    ids := [cur] + rest;
    assert segs[1..][..|rest| - 1] == segs[1..|rest|];
    forall i | 0 <= i < |ids| - 1
      ensures Leads(nodes, ids[i], segs[i], ids[i + 1])
    {
      if i > 0 { assert Leads(nodes, rest[i - 1], segs[1..][i - 1], rest[i]); }
    }
  }

  /** Conversely, wherever a chain of components leads, the lookup gets. */
  lemma {:induction false} ChainIsWalked(nodes: Nodes, root: int, nextIno: int, files: Files, temps: multiset<int>,
                                         segs: seq<string>, ids: seq<int>)
    requires Inv(nodes, root, nextIno, files, temps) && Chain(nodes, segs, ids)
    requires ids[0] in nodes && Linked(nodes, root, ids[0])
    ensures Walk(nodes, ids[0], segs) == Ok(ids[|segs|])
    decreases |segs|
  {
    if segs != [] {
      assert Leads(nodes, ids[0], segs[0], ids[1]);
      StepMeans(nodes, root, nextIno, files, temps, ids[0], segs[0]);
      StepLinked(nodes, root, nextIno, files, temps, ids[0], segs[0]);
      forall i | 0 <= i < |segs| - 1
        ensures Leads(nodes, ids[1..][i], segs[1..][i], ids[1..][i + 1])
      {
        assert Leads(nodes, ids[i + 1], segs[i + 1], ids[i + 2]);
      }
      ChainIsWalked(nodes, root, nextIno, files, temps, segs[1..], ids[1..]);
    }
  }

  // ---- the place of an entry ------------------------------------------------------------------

  /** The path is a last component behind a directory part, which is empty or ends in a slash. */
  ghost predicate Cut(path: string, dir: string, name: string) {
    path == dir + name && '/' !in name && (dir == "" || dir[|dir| - 1] == '/')
  }

  /** The directory in which the entry belongs, or the error: a name without a directory part belongs in
      the root. */
  function Home(nodes: Nodes, root: int, dir: string, name: string): Result {
    if |dir| + |name| == 0 || |dir| + |name| > 1024 then Err(ENAMETOOLONG)
    else if name == "" then Err(EINVAL)
    else if |name| > 255 then Err(ENAMETOOLONG)
    else if dir == "" then Ok(root)
    else Resolve(nodes, root, dir)
  }

  lemma {:induction false} CutAt(path: string, dir: string, name: string)
    requires Cut(path, dir, name)
    ensures LastStart(path) == |dir| && path[..|dir|] == dir && path[|dir|..] == name
    decreases |name|
  {
    if name != "" {
      var p := path[..|path| - 1];
      assert p == dir + name[..|name| - 1];
      assert path[|path| - 1] == name[|name| - 1] && name[|name| - 1] in name;
      CutAt(p, dir, name[..|name| - 1]);
    }
  }

  lemma HomeIs(nodes: Nodes, root: int, nextIno: int, files: Files, path: string, dir: string, name: string)
    requires Inv(nodes, root, nextIno, files, multiset{}) && Cut(path, dir, name)
    ensures SplitParent(nodes, root, path)
            == var h := Home(nodes, root, dir, name); if h.Ok? then Place(h.id, name) else NoPlace(h.error)
    ensures Home(nodes, root, dir, name).Ok? ==>
              Home(nodes, root, dir, name).id in nodes && Linked(nodes, root, Home(nodes, root, dir, name).id)
  {
    CutAt(path, dir, name);
    RootPath();
    WalkLinked(nodes, root, nextIno, files, multiset{}, root, Segments(dir));
  }

  lemma RootPath()
    ensures Segments("/") == []
  {
    assert "/"[1..] == "";
  }

  /** Every path can be cut, in one way. */
  lemma CutExists(path: string) returns (dir: string, name: string)
    ensures Cut(path, dir, name)
  {
    var i := LastStart(path);
    dir, name := path[..i], path[i..];
    forall k | 0 <= k < |name|
      ensures name[k] != '/'
    {
    }
  }

  // ---- mkdir, and the creating half of open -------------------------------------------------------

  /** Node `c` is new: the last component, in directory `d`, and nothing else has changed. */
  ghost predicate Added(n0: Nodes, n: Nodes, d: int, c: int, name: string, isDir: bool, refs: int, ino: int) {
    && d in n0 && c !in n0 && n.Keys == n0.Keys + {c}
    && n[c] == Node(ino, isDir, d, refs, name, [], [])
    && n[d] == n0[d].(children := [c] + n0[d].children)
    && forall x :: x in n0 && x != d ==> n[x] == n0[x]
  }

  /** When an entry can be made, and the error otherwise. */
  ghost predicate MakeAnswers(nodes: Nodes, root: int, dir: string, name: string, addr: int, r: Result) {
    var h := Home(nodes, root, dir, name);
    if h.Err? then r == h
    else h.id in nodes
         && if !nodes[h.id].dir then r == Err(ENOTDIR)
            else if HasEntry(nodes, h.id, name) then r == Err(EEXIST)
            else r == if addr == 0 then Err(ENOMEM) else Ok(addr)
  }

  lemma MakeMeans(nodes: Nodes, root: int, nextIno: int, files: Files, path: string, dir: string, name: string,
                  addr: int)
    requires Inv(nodes, root, nextIno, files, multiset{}) && Cut(path, dir, name)
    ensures MakeAnswers(nodes, root, dir, name, addr, MakeResult(nodes, root, path, addr))
  {
    HomeIs(nodes, root, nextIno, files, path, dir, name);
    var h := Home(nodes, root, dir, name);
    if h.Ok? {
      assert DirOk(nodes, root, h.id);
      EntryIs(nodes, root, h.id, name);
    }
  }

  /** vfs_mkdir: what it answers, and the one directory it adds. */
  method MkdirDoes(s: Server, path: string, addr: int, ghost dir: string, ghost name: string) returns (r: Result)
    requires s.Valid() && (addr == 0 || addr !in s.nodes) && Cut(path, dir, name)
    modifies s`nodes, s`nextIno, s`temps
    ensures s.Valid() && MakeAnswers(old(s.nodes), s.root, dir, name, addr, r)
    ensures if r.Ok? then Added(old(s.nodes), s.nodes, Home(old(s.nodes), s.root, dir, name).id, addr, name, true, 1,
                                old(s.nextIno))
            else s.nodes == old(s.nodes)
  {
    MakeMeans(s.nodes, s.root, s.nextIno, s.files, path, dir, name, addr);
    HomeIs(s.nodes, s.root, s.nextIno, s.files, path, dir, name);
    r := s.Mkdir(path, addr);
  }

  // ---- unlink and rmdir ----------------------------------------------------------------------------

  /** When the entry can be removed, which node it was, and the error otherwise. */
  ghost predicate RemoveAnswers(nodes: Nodes, root: int, dir: string, name: string, isDir: bool, r: Result) {
    var h := Home(nodes, root, dir, name);
    if h.Err? then r == h
    else h.id in nodes
         && if !nodes[h.id].dir then r == Err(ENOTDIR)
            else if !HasEntry(nodes, h.id, name) then r == Err(ENOENT)
            else exists c :: c in nodes[h.id].children && c in nodes && nodes[c].name == name
                             && r == if nodes[c].dir && !isDir then Err(EISDIR)
                                     else if !nodes[c].dir && isDir then Err(ENOTDIR)
                                     else if isDir && nodes[c].children != [] then Err(ENOTEMPTY)
                                     else Ok(c)
  }

  lemma RemoveMeans(nodes: Nodes, root: int, nextIno: int, files: Files, path: string, dir: string, name: string,
                    isDir: bool)
    requires Inv(nodes, root, nextIno, files, multiset{}) && Cut(path, dir, name)
    ensures RemoveAnswers(nodes, root, dir, name, isDir, RemoveResult(nodes, root, path, isDir))
  {
    HomeIs(nodes, root, nextIno, files, path, dir, name);
    var h := Home(nodes, root, dir, name);
    if h.Ok? {
      assert DirOk(nodes, root, h.id);
      EntryIs(nodes, root, h.id, name);
    }
  }

  /** Entry `c` is gone from directory `d`; the node stays, with one reference less, exactly as long as it
      is open, and nothing else has changed. */
  ghost predicate TakenOut(n0: Nodes, n: Nodes, files: Files, d: int, c: int) {
    && d in n0 && c in n0 && c != d && c in n0[d].children && d in n
    && (exists k :: 0 <= k < |n0[d].children| && n0[d].children[k] == c
                    && n[d] == n0[d].(children := n0[d].children[..k] + n0[d].children[k + 1..]))
    && (c in n <==> exists f :: f in files && files[f].vn == c)
    && (c in n ==> n[c] == n0[c].(refs := n0[c].refs - 1))
    && forall x :: x != c && x != d ==> (x in n <==> x in n0) && (x in n0 ==> n[x] == n0[x])
  }

  lemma RemovedIs(nodes: Nodes, root: int, nextIno: int, files: Files, path: string, dir: string, name: string,
                  isDir: bool)
    requires Inv(nodes, root, nextIno, files, multiset{}) && Cut(path, dir, name)
    requires RemoveResult(nodes, root, path, isDir).Ok?
    ensures var h := Home(nodes, root, dir, name);
            h.Ok? && TakenOut(nodes, Removed(nodes, root, path), files, h.id, RemoveResult(nodes, root, path, isDir).id)
  {
    HomeIs(nodes, root, nextIno, files, path, dir, name);
    var d := Home(nodes, root, dir, name).id;
    var k := FindChild(nodes, nodes[d].children, name);
    var c := nodes[d].children[k];
    assert DirOk(nodes, root, d);
    assert ChildOk(nodes, root, d, c);
    assert DirOk(nodes, root, c);
    UnlinkWhileOpen(nodes, root, nextIno, files, path, isDir);
    WithoutKeeps(nodes, d, k);
    assert RefsOk(nodes, root, files, multiset{}, c);
    OpenIff(files, c);
  }

  lemma OpenIff(files: Files, c: int)
    ensures Opens(files, c) > 0 <==> exists f :: f in files && files[f].vn == c
  {
    var hs := Holders(files, c);
    if f :| f in files && files[f].vn == c {
      assert f in hs;
    } else {
      forall f
        ensures f !in hs
      {
      }
      assert hs == {};
    }
  }

  /** vfs_unlink and vfs_rmdir: what they answer, and the one entry they take out. */
  method RemoveDoes(s: Server, path: string, isDir: bool, ghost dir: string, ghost name: string) returns (r: Result)
    requires s.Valid() && Cut(path, dir, name)
    modifies s`nodes, s`temps
    ensures s.Valid() && RemoveAnswers(old(s.nodes), s.root, dir, name, isDir, r)
    ensures if r.Ok? then TakenOut(old(s.nodes), s.nodes, s.files, Home(old(s.nodes), s.root, dir, name).id, r.id)
            else s.nodes == old(s.nodes)
  {
    RemoveMeans(s.nodes, s.root, s.nextIno, s.files, path, dir, name, isDir);
    if RemoveResult(s.nodes, s.root, path, isDir).Ok? {
      RemovedIs(s.nodes, s.root, s.nextIno, s.files, path, dir, name, isDir);
    }
    if isDir {
      r := s.Rmdir(path);
    } else {
      r := s.Unlink(path);
    }
  }

  // ---- open ----------------------------------------------------------------------------------------

  /** An open of something that is there: it is emptied exactly when it is a regular file, O_TRUNC is set
      and the mode is not read-only; otherwise its contents stay, and so does everything else. */
  ghost predicate OpenedOld(n0: Nodes, n: Nodes, id: int, flags: OpenFlags, held: int) {
    && id in n0 && n.Keys == n0.Keys
    && n[id] == n0[id].(refs := n0[id].refs + held, data := n[id].data)
    && n[id].data == (if flags.trunc && flags.acc != 1 && !n0[id].dir then [] else n0[id].data)
    && forall x :: x in n0 && x != id ==> n[x] == n0[x]
  }

  /** What vfs_open answers, and what is different afterwards, given what the path names. */
  ghost predicate OpenDid(n0: Nodes, fs0: Files, root: int, ino: int, path: string, dir: string, name: string,
                          flags: OpenFlags, addr: int, faddr: int, r: Result, n: Nodes, fs: Files) {
    var w := Resolve(n0, root, path);
    if w.Ok? && flags.creat && flags.excl then r == Err(EEXIST) && n == n0 && fs == fs0
    else if w.Ok? then
      // the file is emptied before there is memory for the open file
      && r == (if faddr == 0 then Err(ENOMEM) else Ok(faddr))
      && OpenedOld(n0, n, w.id, flags, if r.Ok? then 1 else 0)
      && fs == if r.Ok? then fs0[faddr := File(w.id, flags, 0, 1)] else fs0
    else if w.error != ENOENT || !flags.creat then r == w && n == n0 && fs == fs0
    else
      var m := Home(n0, root, dir, name);
      if m.Err? then r == m && n == n0 && fs == fs0
      else if m.id !in n0 || !n0[m.id].dir then m.id in n0 && r == Err(ENOTDIR) && n == n0 && fs == fs0
      else if addr == 0 then r == Err(ENOMEM) && n == n0 && fs == fs0
      else
        // the file is there even if there is no memory for the open file
        && r == (if faddr == 0 then Err(ENOMEM) else Ok(faddr))
        && Added(n0, n, m.id, addr, name, false, if r.Ok? then 2 else 1, ino)
        && Resolve(n, root, path) == Ok(addr)
        && fs == if r.Ok? then fs0[faddr := File(addr, flags, 0, 1)] else fs0
  }

  /** A missing path under an existing directory is missing there, and its name is no dot name. */
  lemma MissingIsMissing(nodes: Nodes, root: int, nextIno: int, files: Files, path: string, dir: string, name: string)
    requires Inv(nodes, root, nextIno, files, multiset{}) && Cut(path, dir, name)
    requires Resolve(nodes, root, path) == Err(ENOENT) && Home(nodes, root, dir, name).Ok?
    ensures var d := Home(nodes, root, dir, name).id;
            d in nodes && nodes[d].dir && !HasEntry(nodes, d, name) && !Dots(name) && path[0] == '/'
  {
    HomeIs(nodes, root, nextIno, files, path, dir, name);
    CutAt(path, dir, name);
    PathParts(path);
    var d, segs := Home(nodes, root, dir, name).id, Segments(dir);
    WalkConcat(nodes, root, segs, [name]);
    LastStep(nodes, d, name);
    StepMeans(nodes, root, nextIno, files, multiset{}, d, name);
    StepLinked(nodes, root, nextIno, files, multiset{}, d, name);
  }

  lemma CreateMeans(nodes: Nodes, root: int, nextIno: int, files: Files, path: string, dir: string, name: string,
                    addr: int, refs: int)
    requires Inv(nodes, root, nextIno, files, multiset{}) && Cut(path, dir, name) && addr !in nodes
    requires Resolve(nodes, root, path) == Err(ENOENT) && MakeResult(nodes, root, path, addr) == Ok(addr)
    ensures Home(nodes, root, dir, name).Ok?
    ensures var d := Home(nodes, root, dir, name).id;
            var node := Node(nextIno, false, d, refs, name, [], []);
            && d in nodes && Added(nodes, Attach(nodes, d, addr, node), d, addr, name, false, refs, nextIno)
            && Resolve(Attach(nodes, d, addr, node), root, path) == Ok(addr)
  {
    HomeIs(nodes, root, nextIno, files, path, dir, name);
    MissingIsMissing(nodes, root, nextIno, files, path, dir, name);
    var d := Home(nodes, root, dir, name).id;
    CreateThenResolve(nodes, root, nextIno, files, path, addr, Node(nextIno, false, d, refs, name, [], []));
  }

  lemma OpenMeans(nodes: Nodes, root: int, nextIno: int, files: Files, path: string, dir: string, name: string,
                  flags: OpenFlags, addr: int, faddr: int, r: Result, n: Nodes, fs: Files)
    requires Inv(nodes, root, nextIno, files, multiset{}) && Cut(path, dir, name) && (addr == 0 || addr !in nodes)
    requires var w := Resolve(nodes, root, path);
             && r == OpenResult(nodes, root, w, path, flags, addr, faddr)
             && fs == (if r.Ok? then files[faddr := File(if w.Ok? then w.id else addr, flags, 0, 1)] else files)
             && n == OpenNodes(nodes, root, w, nextIno, path, flags, addr, faddr)
    ensures OpenDid(nodes, files, root, nextIno, path, dir, name, flags, addr, faddr, r, n, fs)
  {
    var w := Resolve(nodes, root, path);
    if w.Ok? {
      WalkLinked(nodes, root, nextIno, files, multiset{}, root, Segments(path));
    } else if w == Err(ENOENT) && flags.creat {
      HomeIs(nodes, root, nextIno, files, path, dir, name);
      MakeMeans(nodes, root, nextIno, files, path, dir, name, addr);
      if Home(nodes, root, dir, name).Ok? {
        MissingIsMissing(nodes, root, nextIno, files, path, dir, name);
        if addr != 0 {
          CreateMeans(nodes, root, nextIno, files, path, dir, name, addr, if faddr == 0 then 1 else 2);
        }
      }
    }
  }

  /** vfs_open over the server's state. */
  method OpenDoes(s: Server, path: string, flags: OpenFlags, addr: int, faddr: int,
                  ghost dir: string, ghost name: string)
    returns (r: Result)
    requires s.Valid() && (addr == 0 || addr !in s.nodes) && (faddr == 0 || faddr !in s.files) && Cut(path, dir, name)
    modifies s`nodes, s`nextIno, s`files, s`temps
    ensures s.Valid()
    ensures OpenDid(old(s.nodes), old(s.files), s.root, old(s.nextIno), path, dir, name, flags, addr, faddr, r,
                    s.nodes, s.files)
  {
    ghost var nodes, ino, files := s.nodes, s.nextIno, s.files;
    r := s.Open(path, flags, addr, faddr);
    OpenMeans(nodes, s.root, ino, files, path, dir, name, flags, addr, faddr, r, s.nodes, s.files);
  }
}
