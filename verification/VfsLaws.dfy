/** What the operations of the file server mean for later lookups: a created path resolves to the
    new node, a removed one no longer resolves, and everything else is found where it was. */
module VfsLaws {
  import opened VfsTree
  import opened PathWalk
  import opened Paths
  import opened Vfs

  predicate Dots(name: string) {
    name == "." || name == ".."
  }

  /** split_parent cuts the components of the path before the last one. */
  lemma PathParts(path: string)
    requires path != [] && path[0] == '/' && LastStart(path) < |path|
    ensures var i := LastStart(path);
            i > 0 && Segments(path) == Segments(path[..i]) + [path[i..]] && path[..i] != [] && path[..i][0] == '/'
  {
    PathCut(path, LastStart(path));
  }

  lemma PathCut(path: string, i: int)
    requires 0 < i < |path| && path[0] == '/' && path[i - 1] == '/' && forall k :: i <= k < |path| ==> path[k] != '/'
    ensures Segments(path) == Segments(path[..i]) + [path[i..]]
  {
    var a, name := path[..i - 1], path[i..];
    LastPart(a, name);
    assert a + "/" == path[..i];
    assert (a + "/") + name == path;
  }

  lemma LastPart(a: string, name: string)
    requires name != [] && '/' !in name
    ensures Segments((a + "/") + name) == Segments(a + "/") + [name]
  {
    SegmentsJoin(a, name);
    TrailingSlash(a);
    OneSegment(name);
  }

  // ---- adding an entry ----------------------------------------------------------------------

  lemma FindKept(nodes: Nodes, n: Nodes, cs: seq<int>, name: string)
    requires forall c :: c in cs ==> (c in nodes <==> c in n) && (c in nodes ==> n[c].name == nodes[c].name)
    ensures FindChild(n, cs, name) == FindChild(nodes, cs, name)
  {
    if cs != [] {
      var c := cs[0];
      assert c in cs;
      FindKept(nodes, n, cs[1..], name);
    }
  }

  /** A successful step leads to the same node after an entry was added. */
  lemma AttachStep(nodes: Nodes, root: int, nextIno: int, files: Files, temps: multiset<int>, d: int, c: int,
                   node: Node, cur: int, seg: string)
    requires Inv(nodes, root, nextIno, files, temps) && Attachable(nodes, root, nextIno, d, c, node)
    requires cur in nodes && Step(nodes, cur, seg).Ok?
    ensures cur in Attach(nodes, d, c, node) && Step(Attach(nodes, d, c, node), cur, seg) == Step(nodes, cur, seg)
  {
    var n, cs := Attach(nodes, d, c, node), nodes[cur].children;
    assert DirOk(nodes, root, cur);
    forall x | x in cs
      ensures x in nodes && x in n && n[x].name == nodes[x].name
    {
      assert ChildOk(nodes, root, cur, x);
    }
    FindKept(nodes, n, cs, seg);
    if cur == d {
      assert n[d].children == [c] + cs && ([c] + cs)[1..] == cs;
    }
  }

  lemma {:induction false} AttachWalk(nodes: Nodes, root: int, nextIno: int, files: Files, temps: multiset<int>,
                                      d: int, c: int, node: Node,
                                      cur: int, segs: seq<string>)
    requires Inv(nodes, root, nextIno, files, temps) && Attachable(nodes, root, nextIno, d, c, node)
    requires cur in nodes && Linked(nodes, root, cur) && Walk(nodes, cur, segs).Ok?
    ensures Walk(Attach(nodes, d, c, node), cur, segs) == Walk(nodes, cur, segs)
    decreases |segs|
  {
    if segs != [] {
      AttachStep(nodes, root, nextIno, files, temps, d, c, node, cur, segs[0]);
      StepLinked(nodes, root, nextIno, files, temps, cur, segs[0]);
      AttachWalk(nodes, root, nextIno, files, temps, d, c, node, Step(nodes, cur, segs[0]).id, segs[1..]);
    } else {
      assert cur in Attach(nodes, d, c, node);
    }
  }

  /** A path under which an entry was added resolves to the new node, unless it is relative or its
      last component is a dot name, which the walk never looks up. */
  lemma CreateThenResolve(nodes: Nodes, root: int, nextIno: int, files: Files, path: string, addr: int, node: Node)
    requires Inv(nodes, root, nextIno, files, multiset{}) && MakeResult(nodes, root, path, addr) == Ok(addr)
             && addr !in nodes
    requires var pl := SplitParent(nodes, root, path);
             node.name == pl.name && node.parent == pl.dir
             && node.children == [] && node.ino == nextIno
    ensures var pl := SplitParent(nodes, root, path);
            Resolve(Attach(nodes, pl.dir, addr, node), root, path) == Ok(addr) <==> path[0] == '/' && !Dots(pl.name)
  {
    var pl, i := SplitParent(nodes, root, path), LastStart(path);
    var d := pl.dir;
    if path[0] == '/' {
      PathParts(path);
      var segs := Segments(path[..i]);
      WalkLinked(nodes, root, nextIno, files, multiset{}, root, segs);
      NoSuchEntry(nodes, d, pl.name);
      assert Attachable(nodes, root, nextIno, d, addr, node);
      AttachWalk(nodes, root, nextIno, files, multiset{}, d, addr, node, root, segs);
      WalkConcat(Attach(nodes, d, addr, node), root, segs, [pl.name]);
      LastStep(Attach(nodes, d, addr, node), d, pl.name);
      assert DirOk(nodes, root, d);
      FoundFirst(nodes, d, addr, node);
    }
  }

  /** mkdir makes a directory named "." in the root, and the path still leads to the root. */
  method MakeDot() returns (r: Result, s: Server)
    ensures r == Ok(9) && s.Valid() && 9 in s.nodes && s.nodes[9].name == "."
    ensures s.root in s.nodes && s.nodes[s.root].children == [9]
    ensures Resolve(s.nodes, s.root, "/.") == Ok(s.root)
  {
    s := new Server(7);
    DotPath();
    r := s.Mkdir("/.", 9);
    PathParts("/.");
    LastStep(s.nodes, 7, ".");
    assert "/."[..1] == "/" && "/."[1..] == ".";
    assert [] + ["."] == ["."];
  }

  lemma DotPath()
    ensures LastStart("/.") == 1 && Segments("/") == []
  {
    assert "/."[..1] == "/";
    assert "/"[1..] == "";
  }

  lemma NoSuchEntry(nodes: Nodes, d: int, name: string)
    requires d in nodes && FindChild(nodes, nodes[d].children, name) == |nodes[d].children|
    ensures !HasName(nodes, d, name)
  {
    var cs := nodes[d].children;
    forall c | c in cs && c in nodes
      ensures nodes[c].name != name
    {
      var j :| 0 <= j < |cs| && cs[j] == c;
    }
  }

  lemma FoundFirst(nodes: Nodes, d: int, c: int, node: Node)
    requires d in nodes && c !in nodes
    ensures Lookup(Attach(nodes, d, c, node), d, node.name) == Ok(c)
  {
    assert Attach(nodes, d, c, node)[d].children[0] == c;
  }

  lemma LastStep(n: Nodes, cur: int, name: string)
    requires cur in n
    ensures Walk(n, cur, [name]) == var r := Step(n, cur, name); if r.Ok? && r.id !in n then Err(ENOENT) else r
  {
    assert [name][1..] == [];
  }

  // ---- removing an entry --------------------------------------------------------------------

  /** Child `k` of `d` is about to go: it has no children of its own. */
  ghost predicate Removable(nodes: Nodes, d: int, k: int) {
    d in nodes && 0 <= k < |nodes[d].children| && nodes[d].children[k] in nodes
        && nodes[nodes[d].children[k]].children == []
  }

  function Without(nodes: Nodes, d: int, k: int): Nodes
    requires d in nodes && 0 <= k < |nodes[d].children| && nodes[d].children[k] in nodes
  {
    Drop(Detach(nodes, d, k), nodes[d].children[k])
  }

  lemma {:induction false} FindThinned(nodes: Nodes, cs: seq<int>, k: int, name: string)
    requires 0 <= k < |cs| && cs[k] in nodes && NamesDiffer(nodes, cs)
    ensures var f, g := FindChild(nodes, cs, name), FindChild(nodes, cs[..k] + cs[k + 1..], name);
            if nodes[cs[k]].name == name then g == |cs| - 1 else g == if f > k then f - 1 else f
    decreases |cs|
  {
    var cs' := cs[..k] + cs[k + 1..];
    if k == 0 {
      assert cs' == cs[1..];
      if nodes[cs[0]].name == name {
        NotFound(nodes, cs', name);
      }
    } else {
      assert cs'[0] == cs[0] && cs'[1..] == cs[1..][..k - 1] + cs[1..][k..];
      FindThinned(nodes, cs[1..], k - 1, name);
    }
  }

  lemma {:induction false} NotFound(nodes: Nodes, cs: seq<int>, name: string)
    requires forall j :: 0 <= j < |cs| && cs[j] in nodes ==> nodes[cs[j]].name != name
    ensures FindChild(nodes, cs, name) == |cs|
  {
    if cs != [] { NotFound(nodes, cs[1..], name); }
  }

  /** The node that goes: its parent is `d`, it is on no other list, and no linked node is below it. */
  lemma Leaf(nodes: Nodes, root: int, nextIno: int, files: Files, temps: multiset<int>, d: int, k: int)
    requires Inv(nodes, root, nextIno, files, temps) && Removable(nodes, d, k)
    ensures var c := nodes[d].children[k];
            && c != d && c != root && nodes[c].parent == d
            && (forall x :: x in nodes && x != d ==> c !in nodes[x].children)
            && (forall x :: x in nodes && x != root && Linked(nodes, root, x) ==> nodes[x].parent != c)
  {
    var c := nodes[d].children[k];
    assert DirOk(nodes, root, d);
    assert ChildOk(nodes, root, d, c);
    forall x | x in nodes && x != d
      ensures c !in nodes[x].children
    {
      assert DirOk(nodes, root, x);
      assert c in nodes[x].children ==> ChildOk(nodes, root, x, c);
    }
  }

  /** A step answers as before, except that one that led to the removed node finds nothing. */
  lemma RemoveStep(nodes: Nodes, root: int, nextIno: int, files: Files, temps: multiset<int>,
                   d: int, k: int, cur: int, seg: string)
    requires Inv(nodes, root, nextIno, files, temps) && Removable(nodes, d, k)
    requires cur in nodes && Linked(nodes, root, cur) && cur != nodes[d].children[k]
    ensures var c, n, r := nodes[d].children[k], Without(nodes, d, k), Step(nodes, cur, seg);
            && cur in n && Step(n, cur, seg) == (if r == Ok(c) then Err(ENOENT) else r)
            && (r == Ok(c) ==> !Dots(seg) && seg == nodes[c].name)
  {
    Leaf(nodes, root, nextIno, files, temps, d, k);
    RemoveLookup(nodes, root, nextIno, files, temps, d, k, cur, seg);
  }

  lemma RemoveLookup(nodes: Nodes, root: int, nextIno: int, files: Files, temps: multiset<int>,
                     d: int, k: int, cur: int, seg: string)
    requires Inv(nodes, root, nextIno, files, temps) && Removable(nodes, d, k)
    requires cur in nodes && cur != nodes[d].children[k]
    ensures var c, n, r := nodes[d].children[k], Without(nodes, d, k), Lookup(nodes, cur, seg);
            && cur in n && n[cur].dir == nodes[cur].dir && n[cur].parent == nodes[cur].parent
            && Lookup(n, cur, seg) == (if r == Ok(c) then Err(ENOENT) else r)
            && (r == Ok(c) ==> seg == nodes[c].name)
  {
    Leaf(nodes, root, nextIno, files, temps, d, k);
    assert DirOk(nodes, root, cur);
    WithoutKeeps(nodes, d, k);
    if cur == d {
      LookupThinned(nodes, d, k, seg);
    } else {
      FindKept(nodes, Without(nodes, d, k), nodes[cur].children, seg);
    }
  }

  lemma LookupThinned(nodes: Nodes, d: int, k: int, seg: string)
    requires Removable(nodes, d, k) && nodes[d].children[k] != d
    requires NoDup(nodes[d].children) && NamesDiffer(nodes, nodes[d].children)
    ensures var c, n, r := nodes[d].children[k], Without(nodes, d, k), Lookup(nodes, d, seg);
            && d in n && Lookup(n, d, seg) == (if r == Ok(c) then Err(ENOENT) else r)
            && (r == Ok(c) ==> seg == nodes[c].name)
  {
    var n, cs := Without(nodes, d, k), nodes[d].children;
    WithoutKeeps(nodes, d, k);
    FindThinned(nodes, cs, k, seg);
    ThinnedHas(cs, k);
    FindKept(nodes, n, cs[..k] + cs[k + 1..], seg);
  }

  lemma ThinnedHas(cs: seq<int>, k: int)
    requires 0 <= k < |cs| && NoDup(cs)
    ensures var cs' := cs[..k] + cs[k + 1..];
            cs[k] !in cs' && forall j :: 0 <= j < |cs'| ==> cs'[j] == if j < k then cs[j] else cs[j + 1]
  {
  }

  /** Apart from `d` and the removed node nothing changes, and `d` only loses the entry. */
  lemma WithoutKeeps(nodes: Nodes, d: int, k: int)
    requires Removable(nodes, d, k) && nodes[d].children[k] != d
    ensures var c, n, cs := nodes[d].children[k], Without(nodes, d, k), nodes[d].children;
            && d in n && n[d] == nodes[d].(children := cs[..k] + cs[k + 1..])
            && (forall x :: x != c ==> (x in nodes <==> x in n))
            && (forall x :: x in nodes && x != c && x != d ==> n[x] == nodes[x])
  {
  }

  /** The walk enters node `c` on its way. */
  predicate Visits(nodes: Nodes, cur: int, segs: seq<string>, c: int)
    decreases |segs|
  {
    && cur in nodes && segs != [] && Step(nodes, cur, segs[0]).Ok?
    && (Step(nodes, cur, segs[0]).id == c || Visits(nodes, Step(nodes, cur, segs[0]).id, segs[1..], c))
  }

  /** A lookup, successful or not, answers as before exactly unless it went through the removed node;
      then it finds nothing. */
  lemma {:induction false} RemoveWalk(nodes: Nodes, root: int, nextIno: int, files: Files, temps: multiset<int>,
                                      d: int, k: int, cur: int, segs: seq<string>)
    requires Inv(nodes, root, nextIno, files, temps) && Removable(nodes, d, k)
    requires cur in nodes && Linked(nodes, root, cur) && cur != nodes[d].children[k]
    ensures var c := nodes[d].children[k];
            && Walk(Without(nodes, d, k), cur, segs)
               == (if Visits(nodes, cur, segs, c) then Err(ENOENT) else Walk(nodes, cur, segs))
            && (Visits(nodes, cur, segs, c) ==> !Dots(nodes[c].name))
    decreases |segs|
  {
    Leaf(nodes, root, nextIno, files, temps, d, k);
    if segs != [] {
      RemoveStep(nodes, root, nextIno, files, temps, d, k, cur, segs[0]);
      StepLinked(nodes, root, nextIno, files, temps, cur, segs[0]);
      var r := Step(nodes, cur, segs[0]);
      if r.Ok? && r.id != nodes[d].children[k] {
        RemoveWalk(nodes, root, nextIno, files, temps, d, k, r.id, segs[1..]);
      }
    }
  }

  /** A removed path is gone, unless its last component is a dot name, which the walk never looks up. */
  lemma RemoveThenResolve(nodes: Nodes, root: int, nextIno: int, files: Files, path: string, dir: bool)
    requires Inv(nodes, root, nextIno, files, multiset{}) && RemoveResult(nodes, root, path, dir).Ok?
    ensures Resolve(Removed(nodes, root, path), root, path) == Err(ENOENT)
            <==> path[0] == '/' && !Dots(SplitParent(nodes, root, path).name)
  {
    var pl, i := SplitParent(nodes, root, path), LastStart(path);
    var d, k := pl.dir, FindChild(nodes, nodes[pl.dir].children, pl.name);
    var c := nodes[d].children[k];
    assert DirOk(nodes, root, d);
    assert ChildOk(nodes, root, d, c);
    assert DirOk(nodes, root, c);
    if path[0] == '/' {
      PathParts(path);
      var segs, n := Segments(path[..i]), Without(nodes, d, k);
      WalkLinked(nodes, root, nextIno, files, multiset{}, root, segs);
      Leaf(nodes, root, nextIno, files, multiset{}, d, k);
      RemoveWalk(nodes, root, nextIno, files, multiset{}, d, k, root, segs);
      WalkConcat(n, root, segs, [pl.name]);
      if Walk(n, root, segs) == Ok(d) { RemovedLast(nodes, root, nextIno, files, d, k, pl.name); }
    }
  }

  lemma RemovedLast(nodes: Nodes, root: int, nextIno: int, files: Files, d: int, k: int, name: string)
    requires Inv(nodes, root, nextIno, files, multiset{}) && Removable(nodes, d, k) && Linked(nodes, root, d)
    requires k == FindChild(nodes, nodes[d].children, name) && |name| <= NAME_MAX && nodes[d].dir
    ensures d in Without(nodes, d, k)
    ensures Walk(Without(nodes, d, k), d, [name]) == Err(ENOENT) <==> !Dots(name)
  {
    var n, c := Without(nodes, d, k), nodes[d].children[k];
    Leaf(nodes, root, nextIno, files, multiset{}, d, k);
    LastStep(n, d, name);
    if Dots(name) {
      StepLinked(nodes, root, nextIno, files, multiset{}, d, name);
      RemoveStep(nodes, root, nextIno, files, multiset{}, d, k, d, name);
      var r := Step(nodes, d, name).id;
      assert r in n;
    } else {
      RemoveLookup(nodes, root, nextIno, files, multiset{}, d, k, d, name);
    }
  }
}
