/** Unlinked files over whole runs of the file server: as long as one file is open on it, a node that
    no directory lists keeps its contents, whatever else is created, removed, opened and closed. */
module VfsRuns {
  import opened VfsTree
  import opened PathWalk
  import opened RamFile
  import opened Vfs

  datatype Call =
    | Mkdir(path: string, addr: int)
    | Unlink(path: string)
    | Rmdir(path: string)
    | Open(path: string, flags: OpenFlags, addr: int, faddr: int)
    | Close(f: int)
    | Read(f: int, n: int)
    | Write(f: int, buf: seq<int>, fill: seq<int>, mem: bool)

  predicate WritesTo(c: Call, files: Files, x: int) {
    c.Write? && c.f in files && files[c.f].vn == x
  }

  /** A node that is in no directory. */
  predicate Orphan(nodes: Nodes, root: int, x: int) {
    x in nodes && !Linked(nodes, root, x)
  }

  /** Node `x` is as it was and still in no directory. */
  predicate Stays(nodes: Nodes, n: Nodes, root: int, x: int)
    requires x in nodes
  {
    x in n && n[x] == nodes[x] && !Linked(n, root, x)
  }

  lemma AttachStays(nodes: Nodes, root: int, nextIno: int, files: Files, temps: multiset<int>,
                    d: int, c: int, node: Node, x: int)
    requires Inv(nodes, root, nextIno, files, temps) && Attachable(nodes, root, nextIno, d, c, node)
    requires Orphan(nodes, root, x)
    ensures Stays(nodes, Attach(nodes, d, c, node), root, x)
  {
    AttachDirOk(nodes, root, nextIno, files, temps, d, c, node, x);
  }

  /** Adding an entry, as mkdir and open do. */
  lemma MakeStays(nodes: Nodes, root: int, nextIno: int, files: Files, path: string, addr: int, node: Node, x: int)
    requires Inv(nodes, root, nextIno, files, multiset{}) && Orphan(nodes, root, x) && addr !in nodes
    requires MakeResult(nodes, root, path, addr).Ok? && node.children == [] && node.ino == nextIno
    requires var pl := SplitParent(nodes, root, path); node.name == pl.name && node.parent == pl.dir
    ensures Stays(nodes, Attach(nodes, SplitParent(nodes, root, path).dir, addr, node), root, x)
  {
    var pl := SplitParent(nodes, root, path);
    PlaceLinked(nodes, root, nextIno, files, path);
    NoSuchName(nodes, pl.dir, pl.name);
    AttachStays(nodes, root, nextIno, files, multiset{}, pl.dir, addr, node, x);
  }

  /** split_parent only finds linked directories. */
  lemma PlaceLinked(nodes: Nodes, root: int, nextIno: int, files: Files, path: string)
    requires Inv(nodes, root, nextIno, files, multiset{}) && SplitParent(nodes, root, path).Place?
    ensures SplitParent(nodes, root, path).dir in nodes && Linked(nodes, root, SplitParent(nodes, root, path).dir)
  {
    var i := LastStart(path);
    WalkLinked(nodes, root, nextIno, files, multiset{}, root, Segments(if i == 0 then "/" else path[..i]));
  }

  lemma RemoveStays(nodes: Nodes, root: int, nextIno: int, files: Files, path: string, dir: bool, x: int)
    requires Inv(nodes, root, nextIno, files, multiset{}) && Orphan(nodes, root, x)
    requires RemoveResult(nodes, root, path, dir).Ok?
    ensures Stays(nodes, Removed(nodes, root, path), root, x)
  {
    var pl := SplitParent(nodes, root, path);
    var d, k := pl.dir, FindChild(nodes, nodes[pl.dir].children, pl.name);
    var c := nodes[d].children[k];
    PlaceLinked(nodes, root, nextIno, files, path);
    assert DirOk(nodes, root, d);
    assert ChildOk(nodes, root, d, c);
    DetachLinks(nodes, root, nextIno, files, multiset{}, d, k, x);
    assert c in nodes[nodes[c].parent].children;
    DropLinks(Detach(nodes, d, k), root, c, x);
  }

  /** Dropping a reference links nothing. */
  lemma DropLinks(nodes: Nodes, root: int, vn: int, x: int)
    requires vn in nodes && Orphan(nodes, root, x)
    ensures x in Drop(nodes, vn) ==> !Linked(Drop(nodes, vn), root, x) && Drop(nodes, vn)[x].data == nodes[x].data
    ensures x != vn ==> x in Drop(nodes, vn) && Drop(nodes, vn)[x] == nodes[x]
  {
  }

  /** What a call may do to an orphan and its open files. */
  twostate predicate OrphanKept(s: Server, c: Call, x: int)
    reads s
  {
    && (x in s.nodes ==> !Linked(s.nodes, s.root, x))
    && (x in s.nodes && !WritesTo(c, old(s.files), x) ==> x in old(s.nodes) && s.nodes[x].data == old(s.nodes)[x].data)
    && (forall f :: f in s.files && s.files[f].vn == x ==> f in old(s.files) && old(s.files)[f].vn == x)
    && (forall f :: f in old(s.files) && old(s.files)[f].vn == x && c != Close(f) ==>
          f in s.files && s.files[f].vn == x)
  }

  /** One call; an address that is in use is not one that calloc returns, so it counts as none. */
  method Perform(s: Server, c: Call, ghost x: int)
    requires s.Valid() && Orphan(s.nodes, s.root, x)
    modifies s
    ensures s.Valid() && s.root == old(s.root) && OrphanKept(s, c, x)
  {
    match c
    case Mkdir(path, a) => PerformMkdir(s, c, x);
    case Unlink(path) => PerformRemove(s, c, x);
    case Rmdir(path) => PerformRemove(s, c, x);
    case Open(path, flags, a, fa) => PerformOpen(s, c, x);
    case Close(f) => PerformClose(s, c, x);
    case Read(f, n) =>
      if f in s.files && n >= 0 {
        var r, buf := s.Read(f, n);
      }
    case Write(f, buf, fill, mem) => PerformWrite(s, c, x);
  }

  method PerformMkdir(s: Server, c: Call, ghost x: int)
    requires s.Valid() && Orphan(s.nodes, s.root, x) && c.Mkdir?
    modifies s
    ensures s.Valid() && s.root == old(s.root) && OrphanKept(s, c, x)
  {
    ghost var n0, ino, files := s.nodes, s.nextIno, s.files;
    var a := if c.addr in s.nodes then 0 else c.addr;
    var r := s.Mkdir(c.path, a);
    if r.Ok? {
      ghost var pl := SplitParent(n0, s.root, c.path);
      MakeStays(n0, s.root, ino, files, c.path, a, NewNode(ino, true, pl.dir, 1, pl.name), x);
    }
  }

  method PerformRemove(s: Server, c: Call, ghost x: int)
    requires s.Valid() && Orphan(s.nodes, s.root, x) && (c.Unlink? || c.Rmdir?)
    modifies s
    ensures s.Valid() && s.root == old(s.root) && OrphanKept(s, c, x)
  {
    ghost var n0, ino, files := s.nodes, s.nextIno, s.files;
    var r;
    if c.Unlink? {
      r := s.Unlink(c.path);
    } else {
      r := s.Rmdir(c.path);
    }
    if r.Ok? {
      RemoveStays(n0, s.root, ino, files, c.path, c.Rmdir?, x);
    }
  }

  method PerformClose(s: Server, c: Call, ghost x: int)
    requires s.Valid() && Orphan(s.nodes, s.root, x) && c.Close?
    modifies s
    ensures s.Valid() && s.root == old(s.root) && OrphanKept(s, c, x)
  {
    if c.f in s.files && c.f != 0 {
      DropLinks(s.nodes, s.root, s.files[c.f].vn, x);
      var r := s.Close(c.f);
    }
  }

  method PerformWrite(s: Server, c: Call, ghost x: int)
    requires s.Valid() && Orphan(s.nodes, s.root, x) && c.Write?
    modifies s
    ensures s.Valid() && s.root == old(s.root) && OrphanKept(s, c, x)
  {
    if c.f in s.files && |c.fill| >= WriteAt(s.nodes, s.files[c.f]) - |s.nodes[s.files[c.f].vn].data| {
      var r := s.Write(c.f, c.buf, c.fill, c.mem);
    }
  }

  method PerformOpen(s: Server, c: Call, ghost x: int)
    requires s.Valid() && Orphan(s.nodes, s.root, x) && c.Open?
    modifies s
    ensures s.Valid() && s.root == old(s.root) && OrphanKept(s, c, x)
  {
    ghost var n0, ino, files := s.nodes, s.nextIno, s.files;
    var a := if c.addr in s.nodes then 0 else c.addr;
    var fa := if c.faddr in s.files then 0 else c.faddr;
    var r := s.Open(c.path, c.flags, a, fa);
    OpenStays(n0, s.root, ino, files, c.path, c.flags, a, fa, x);
  }

  lemma OpenStays(nodes: Nodes, root: int, nextIno: int, files: Files, path: string, flags: OpenFlags, a: int,
                  fa: int, x: int)
    requires Inv(nodes, root, nextIno, files, multiset{}) && Orphan(nodes, root, x) && (a == 0 || a !in nodes)
    ensures var w := Resolve(nodes, root, path);
            && Stays(nodes, OpenNodes(nodes, root, w, nextIno, path, flags, a, fa), root, x)
            && (w.Ok? ==> w.id != x)
            && (w.Err? && OpenResult(nodes, root, w, path, flags, a, fa).Ok? ==> a != x)
  {
    var w := Resolve(nodes, root, path);
    if w.Ok? {
      WalkLinked(nodes, root, nextIno, files, multiset{}, root, Segments(path));
    } else if w == Err(ENOENT) && flags.creat && MakeResult(nodes, root, path, a).Ok? {
      var pl := SplitParent(nodes, root, path);
      MakeStays(nodes, root, nextIno, files, path, a,
                NewNode(nextIno, false, pl.dir, if fa == 0 then 1 else 2, pl.name), x);
    }
  }

  /** Through any calls that neither close `f` nor write to the node, an unlinked node stays readable
      through `f` with the contents it had. */
  method PerformAll(s: Server, cs: seq<Call>, ghost x: int, ghost f: int)
    requires s.Valid() && Orphan(s.nodes, s.root, x) && f in s.files && s.files[f].vn == x
    requires forall c :: c in cs ==> c != Close(f) && !WritesTo(c, s.files, x)
    modifies s
    ensures s.Valid() && s.root == old(s.root) && f in s.files && s.files[f].vn == x
    ensures Orphan(s.nodes, s.root, x) && s.nodes[x].data == old(s.nodes[x].data)
  {
    var i := 0;
    while i < |cs|
      invariant 0 <= i <= |cs| && s.Valid() && s.root == old(s.root) && f in s.files && s.files[f].vn == x
      invariant Orphan(s.nodes, s.root, x) && s.nodes[x].data == old(s.nodes[x].data)
      invariant forall g :: g in s.files && s.files[g].vn == x ==> g in old(s.files) && old(s.files)[g].vn == x
    {
      assert cs[i] in cs;
      Perform(s, cs[i], x);
      i := i + 1;
    }
  }
}
