/** Paths and what they name: the walk of resolve_from and the cut of split_parent
    (src/userspace/vfs/vfs.c). */
module PathWalk {
  import opened VfsTree

  const PATH_MAX: int := 1024

  /** Length of the leading run of characters other than a slash. */
  function SegLen(s: string): (n: int)
    ensures 0 <= n <= |s|
    ensures forall i :: 0 <= i < n ==> s[i] != '/'
    ensures n < |s| ==> s[n] == '/'
  {
    if s == [] || s[0] == '/' then 0 else 1 + SegLen(s[1..])
  }

  /** The non-empty components of a path. */
  function Segments(s: string): seq<string>
    decreases |s|
  {
    if s == [] then []
    else if s[0] == '/' then Segments(s[1..])
    else
      var n := SegLen(s);
      assert n > 0;
      [s[..n]] + Segments(s[n..])
  }

  /** The first child with the name, or the length of the list. */
  function FindChild(nodes: Nodes, cs: seq<int>, name: string): (k: int)
    ensures 0 <= k <= |cs|
    ensures k < |cs| ==> cs[k] in nodes && nodes[cs[k]].name == name
    ensures forall j :: 0 <= j < k && cs[j] in nodes ==> nodes[cs[j]].name != name
  {
    if cs == [] then 0
    else if cs[0] in nodes && nodes[cs[0]].name == name then 0
    else 1 + FindChild(nodes, cs[1..], name)
  }

  function Lookup(nodes: Nodes, d: int, name: string): Result
    requires d in nodes
  {
    var k := FindChild(nodes, nodes[d].children, name);
    if k < |nodes[d].children| then Ok(nodes[d].children[k]) else Err(ENOENT)
  }

  /** One component.  "." and ".." need not stand in a directory. */
  function Step(nodes: Nodes, cur: int, seg: string): Result
    requires cur in nodes
  {
    if |seg| > NAME_MAX then Err(ENAMETOOLONG)
    else if seg == "." then Ok(cur)
    else if seg == ".." then Ok(nodes[cur].parent)
    else if !nodes[cur].dir then Err(ENOTDIR)
    else Lookup(nodes, cur, seg)
  }

  function Walk(nodes: Nodes, cur: int, segs: seq<string>): Result
    decreases |segs|
  {
    if cur !in nodes then Err(ENOENT)
    else if segs == [] then Ok(cur)
    else
      var r := Step(nodes, cur, segs[0]);
      if r.Err? then r else Walk(nodes, r.id, segs[1..])
  }

  lemma {:induction false} WalkConcat(nodes: Nodes, cur: int, a: seq<string>, b: seq<string>)
    ensures Walk(nodes, cur, a + b) == var r := Walk(nodes, cur, a); if r.Err? then r else Walk(nodes, r.id, b)
    decreases |a|
  {
    if a == [] {
      assert a + b == b;
    } else if cur in nodes {
      assert (a + b)[0] == a[0] && (a + b)[1..] == a[1..] + b;
      var r := Step(nodes, cur, a[0]);
      if r.Ok? { WalkConcat(nodes, r.id, a[1..], b); }
    }
  }

  lemma LookupSame(n: Nodes, n': Nodes, cs: seq<int>, name: string)
    requires SameTree(n, n')
    ensures FindChild(n, cs, name) == FindChild(n', cs, name)
  {
    if cs != [] {
      assert cs[0] in n <==> cs[0] in n';
      var x := cs[0];
      if x in n {
        assert n'[x] == n[x].(refs := n'[x].refs, data := n'[x].data);
        assert n'[x].name == n[x].name;
      }
      LookupSame(n, n', cs[1..], name);
    }
  }

  /** Reference counts do not matter to a walk. */
  lemma {:induction false} WalkSame(n: Nodes, n': Nodes, cur: int, segs: seq<string>)
    requires SameTree(n, n')
    ensures Walk(n, cur, segs) == Walk(n', cur, segs)
    decreases |segs|
  {
    if segs != [] && cur in n {
      LookupSame(n, n', n[cur].children, segs[0]);
      var r := Step(n, cur, segs[0]);
      assert r == Step(n', cur, segs[0]);
      if r.Ok? { WalkSame(n, n', r.id, segs[1..]); }
    }
  }

  /** From a linked node every component leads to a linked node: freed vnodes are never visited. */
  lemma StepLinked(nodes: Nodes, root: int, nextIno: int, files: Files, temps: multiset<int>, cur: int, seg: string)
    requires Inv(nodes, root, nextIno, files, temps) && cur in nodes && Linked(nodes, root, cur)
    ensures Step(nodes, cur, seg).Ok? ==>
            Step(nodes, cur, seg).id in nodes && Linked(nodes, root, Step(nodes, cur, seg).id)
  {
    assert DirOk(nodes, root, cur);
    var par := nodes[cur].parent;
    if par in nodes { assert DirOk(nodes, root, par); }
    var r := Step(nodes, cur, seg);
    if r.Ok? && r.id in nodes[cur].children { assert ChildOk(nodes, root, cur, r.id); }
  }

  lemma {:induction false} WalkLinked(nodes: Nodes, root: int, nextIno: int, files: Files, temps: multiset<int>,
                                      cur: int, segs: seq<string>)
    requires Inv(nodes, root, nextIno, files, temps) && cur in nodes && Linked(nodes, root, cur)
    ensures Walk(nodes, cur, segs).Ok? ==>
            Walk(nodes, cur, segs).id in nodes && Linked(nodes, root, Walk(nodes, cur, segs).id)
    decreases |segs|
  {
    if segs != [] {
      StepLinked(nodes, root, nextIno, files, temps, cur, segs[0]);
      var r := Step(nodes, cur, segs[0]);
      if r.Ok? { WalkLinked(nodes, root, nextIno, files, temps, r.id, segs[1..]); }
    }
  }

  predicate Under(nodes: Nodes, c: int, d: int) {
    c in nodes && d in nodes && nodes[c].parent == d && c in nodes[d].children
  }

  /** The number of parent steps from a linked node up to the root is finite: the links form a tree. */
  lemma {:induction false} ClimbsToRoot(nodes: Nodes, root: int, nextIno: int, files: Files, temps: multiset<int>,
                                        id: int) returns (chain: seq<int>)
    requires Inv(nodes, root, nextIno, files, temps) && id in nodes && Linked(nodes, root, id)
    ensures chain != [] && chain[0] == id && chain[|chain| - 1] == root
    ensures forall k :: 0 <= k < |chain| - 1 ==> Under(nodes, chain[k], chain[k + 1])
    decreases nodes[id].ino
  {
    if id == root {
      return [id];
    }
    var par := nodes[id].parent;
    assert DirOk(nodes, root, par) && ChildOk(nodes, root, par, id);
    assert nodes[par].ino > 0;
    var up := ClimbsToRoot(nodes, root, nextIno, files, temps, par);
    chain := [id] + up;
    assert forall k :: 0 < k < |chain| ==> chain[k] == up[k - 1];
  }

  /** vfs_resolve */
  function Resolve(nodes: Nodes, root: int, path: string): Result {
    if path == [] || path[0] != '/' then Err(EINVAL) else Walk(nodes, root, Segments(path))
  }

  /** Start of the last component. */
  function LastStart(s: string): (i: int)
    ensures 0 <= i <= |s|
    ensures forall k :: i <= k < |s| ==> s[k] != '/'
    ensures i > 0 ==> s[i - 1] == '/'
    decreases |s|
  {
    if s == [] || s[|s| - 1] == '/' then |s| else LastStart(s[..|s| - 1])
  }

  datatype Place = Place(dir: int, name: string) | NoPlace(error: Errno)

  /** split_parent: the directory a path lives in and its last component. */
  function SplitParent(nodes: Nodes, root: int, path: string): Place {
    if path == [] || |path| > PATH_MAX then NoPlace(ENAMETOOLONG)
    else
      var i := LastStart(path);
      if i == |path| then NoPlace(EINVAL)
      else if |path| - i > NAME_MAX then NoPlace(ENAMETOOLONG)
      else
        var r := Resolve(nodes, root, if i == 0 then "/" else path[..i]);
        if r.Err? then NoPlace(r.error) else Place(r.id, path[i..])
  }
}
