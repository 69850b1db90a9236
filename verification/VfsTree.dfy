/** The vnode tree of the file server (src/userspace/vfs/vfs.c and ramfs.c): nodes, links,
    reference counts, and the invariant that ties them together. */
module VfsTree {

  const NAME_MAX: int := 255

  datatype Node = Node(ino: int, dir: bool, parent: int, refs: int, name: string, children: seq<int>, data: seq<int>)

  type Nodes = map<int, Node>

  /** The flag word of vfs_open: the access mode (1 read-only, 2 write-only, 3 both) and the bits. */
  datatype OpenFlags = OpenFlags(acc: int, creat: bool, excl: bool, trunc: bool, append: bool)

  predicate MayRead(fl: OpenFlags) {
    fl.acc != 2
  }

  predicate MayWrite(fl: OpenFlags) {
    fl.acc != 1
  }

  /** An open file: the vnode it holds, its offset and how many descriptors share it. */
  datatype File = File(vn: int, flags: OpenFlags, offset: int, refs: int)

  type Files = map<int, File>

  datatype Errno = ENOENT | ENOTDIR | EISDIR | EEXIST | EINVAL | ENOMEM | ENAMETOOLONG | ENOTEMPTY | ENODEV | EBADF

  datatype Result = Ok(id: int) | Err(error: Errno)

  /** The parent's child list, or the mount, holds one reference on it. */
  predicate Linked(nodes: Nodes, root: int, id: int) {
    id == root || (id in nodes && nodes[id].parent in nodes && id in nodes[nodes[id].parent].children)
  }

  ghost function Holders(files: Files, id: int): set<int> {
    set f | f in files && files[f].vn == id
  }

  /** Open files on the node. */
  ghost function Opens(files: Files, id: int): int {
    |Holders(files, id)|
  }

  function Link(nodes: Nodes, root: int, id: int): int {
    if Linked(nodes, root, id) then 1 else 0
  }

  ghost predicate NoDup(s: seq<int>) {
    forall i, j :: 0 <= i < j < |s| ==> s[i] != s[j]
  }

  ghost predicate ChildOk(nodes: Nodes, root: int, d: int, c: int)
    requires d in nodes
  {
    c in nodes && c != root && nodes[c].parent == d && nodes[c].ino > nodes[d].ino
  }

  ghost predicate NamesDiffer(nodes: Nodes, s: seq<int>) {
    forall i, j :: 0 <= i < j < |s| && s[i] in nodes && s[j] in nodes ==> nodes[s[i]].name != nodes[s[j]].name
  }

  /** A directory's children know their parent, are listed once and have different names; only a
      linked directory has children. */
  ghost predicate DirOk(nodes: Nodes, root: int, d: int)
    requires d in nodes
  {
    var cs := nodes[d].children;
    && (forall c {:trigger ChildOk(nodes, root, d, c)} :: c in cs ==> ChildOk(nodes, root, d, c))
    && NoDup(cs) && NamesDiffer(nodes, cs)
    && (cs != [] ==> nodes[d].dir && Linked(nodes, root, d))
  }

  /** The reference count is the link, plus the open files, plus the references `temps` that the
      running operation holds; a node without references does not exist. */
  ghost predicate RefsOk(nodes: Nodes, root: int, files: Files, temps: multiset<int>, id: int)
    requires id in nodes
  {
    nodes[id].refs == Link(nodes, root, id) + Opens(files, id) + temps[id] && nodes[id].refs > 0
  }

  ghost predicate Inv(nodes: Nodes, root: int, nextIno: int, files: Files, temps: multiset<int>) {
    && root in nodes && nodes[root].dir && nodes[root].parent == root && nextIno > 0
    && (forall d {:trigger DirOk(nodes, root, d)} :: d in nodes ==> DirOk(nodes, root, d))
    && (forall d {:trigger RefsOk(nodes, root, files, temps, d)} :: d in nodes ==> RefsOk(nodes, root, files, temps, d))
    && (forall d {:trigger nodes[d].ino} :: d in nodes ==> 0 < nodes[d].ino < nextIno)
    && (forall f :: f in files ==> files[f].vn in nodes && files[f].offset >= 0)
    && (forall d :: d in temps ==> d in nodes)
  }

  // ---- elementary changes --------------------------------------------------------------

  function AddRef(nodes: Nodes, id: int, k: int): Nodes
    requires id in nodes
  {
    nodes[id := nodes[id].(refs := nodes[id].refs + k)]
  }

  /** vnode_unref: the last reference destroys the node. */
  function Drop(nodes: Nodes, id: int): Nodes
    requires id in nodes
  {
    if nodes[id].refs == 1 then nodes - {id} else AddRef(nodes, id, -1)
  }

  /** The same tree, whatever the counts and contents. */
  ghost predicate SameTree(n: Nodes, n': Nodes) {
    && n.Keys == n'.Keys
    && forall x :: x in n ==> n'[x] == n[x].(refs := n'[x].refs, data := n'[x].data)
  }

  lemma SameTreeOk(n: Nodes, n': Nodes, root: int, d: int)
    requires SameTree(n, n') && d in n && DirOk(n, root, d)
    ensures DirOk(n', root, d) && Linked(n', root, d) == Linked(n, root, d)
  {
    forall c | c in n'[d].children
      ensures ChildOk(n', root, d, c)
    {
      assert ChildOk(n, root, d, c);
    }
  }

  lemma RefInv(nodes: Nodes, root: int, nextIno: int, files: Files, temps: multiset<int>, id: int)
    requires Inv(nodes, root, nextIno, files, temps) && id in nodes
    ensures Inv(AddRef(nodes, id, 1), root, nextIno, files, temps + multiset{id})
  {
    var n := AddRef(nodes, id, 1);
    forall d | d in n
      ensures DirOk(n, root, d) && RefsOk(n, root, files, temps + multiset{id}, d)
    {
      SameTreeOk(nodes, n, root, d);
      assert RefsOk(nodes, root, files, temps, d);
    }
  }

  lemma UnrefInv(nodes: Nodes, root: int, nextIno: int, files: Files, temps: multiset<int>, id: int)
    requires Inv(nodes, root, nextIno, files, temps) && id in temps
    ensures Inv(Drop(nodes, id), root, nextIno, files, temps - multiset{id})
  {
    assert RefsOk(nodes, root, files, temps, id);
    if nodes[id].refs == 1 {
      RemoveInv(nodes, root, nextIno, files, temps, id);
    } else {
      var n := AddRef(nodes, id, -1);
      forall d | d in n
        ensures DirOk(n, root, d) && RefsOk(n, root, files, temps - multiset{id}, d)
      {
        SameTreeOk(nodes, n, root, d);
        assert RefsOk(nodes, root, files, temps, d);
      }
    }
  }

  /** A node whose last reference goes is not linked, is on no list, and has no children left. */
  lemma LastRef(nodes: Nodes, root: int, nextIno: int, files: Files, temps: multiset<int>, id: int)
    requires Inv(nodes, root, nextIno, files, temps) && id in temps && nodes[id].refs == 1
    ensures !Linked(nodes, root, id) && Opens(files, id) == 0 && temps[id] == 1 && nodes[id].children == []
    ensures forall d :: d in nodes ==> id !in nodes[d].children
    ensures forall f :: f in files ==> files[f].vn != id
  {
    assert RefsOk(nodes, root, files, temps, id) && DirOk(nodes, root, id);
    forall d | d in nodes
      ensures id !in nodes[d].children
    {
      assert DirOk(nodes, root, d);
      assert id in nodes[d].children ==> ChildOk(nodes, root, d, id);
    }
    forall f | f in files
      ensures files[f].vn != id
    {
      assert files[f].vn == id ==> f in Holders(files, id);
    }
  }

  lemma RemoveInv(nodes: Nodes, root: int, nextIno: int, files: Files, temps: multiset<int>, id: int)
    requires Inv(nodes, root, nextIno, files, temps) && id in temps && nodes[id].refs == 1
    ensures Inv(nodes - {id}, root, nextIno, files, temps - multiset{id})
  {
    LastRef(nodes, root, nextIno, files, temps, id);
    var n := nodes - {id};
    forall d | d in n
      ensures DirOk(n, root, d) && RefsOk(n, root, files, temps - multiset{id}, d)
    {
      assert DirOk(nodes, root, d) && RefsOk(nodes, root, files, temps, d);
      assert Linked(n, root, d) == Linked(nodes, root, d);
      forall c | c in n[d].children
        ensures ChildOk(n, root, d, c)
      {
        assert ChildOk(nodes, root, d, c);
      }
    }
  }

  lemma OpensAdded(files: Files, f: int, file: File, d: int)
    requires f !in files
    ensures Opens(files[f := file], d) == Opens(files, d) + if d == file.vn then 1 else 0
  {
    assert Holders(files[f := file], d) == Holders(files, d) + if d == file.vn then {f} else {};
  }

  lemma OpensRemoved(files: Files, f: int, d: int)
    requires f in files
    ensures Opens(files, d) == Opens(files - {f}, d) + if d == files[f].vn then 1 else 0
  {
    assert Holders(files, d) == Holders(files - {f}, d) + if d == files[f].vn then {f} else {};
  }

  /** Opening hands the reference of the running operation to the file. */
  lemma OpenInv(nodes: Nodes, root: int, nextIno: int, files: Files, temps: multiset<int>, f: int, file: File)
    requires Inv(nodes, root, nextIno, files, temps) && file.vn in temps && f !in files && file.offset >= 0
    ensures Inv(nodes, root, nextIno, files[f := file], temps - multiset{file.vn})
  {
    var files', t := files[f := file], temps - multiset{file.vn};
    forall d | d in nodes
      ensures RefsOk(nodes, root, files', t, d)
    {
      assert RefsOk(nodes, root, files, temps, d);
      OpensAdded(files, f, file, d);
    }
  }

  /** Closing takes it back. */
  lemma CloseInv(nodes: Nodes, root: int, nextIno: int, files: Files, temps: multiset<int>, f: int)
    requires Inv(nodes, root, nextIno, files, temps) && f in files
    ensures Inv(nodes, root, nextIno, files - {f}, temps + multiset{files[f].vn})
  {
    var files', t := files - {f}, temps + multiset{files[f].vn};
    forall d | d in nodes
      ensures RefsOk(nodes, root, files', t, d)
    {
      assert RefsOk(nodes, root, files, temps, d);
      OpensRemoved(files, f, d);
    }
  }

  // ---- links -----------------------------------------------------------------------------

  /** A new node at the head of the child list of `d`. */
  function Attach(nodes: Nodes, d: int, c: int, node: Node): Nodes
    requires d in nodes
  {
    nodes[c := node][d := nodes[d].(children := [c] + nodes[d].children)]
  }

  predicate HasName(nodes: Nodes, d: int, name: string)
    requires d in nodes
  {
    exists c :: c in nodes[d].children && c in nodes && nodes[c].name == name
  }

  ghost predicate Attachable(nodes: Nodes, root: int, nextIno: int, d: int, c: int, node: Node) {
    && d in nodes && nodes[d].dir && Linked(nodes, root, d) && c !in nodes
    && !HasName(nodes, d, node.name) && node.parent == d && node.children == [] && node.ino == nextIno
  }

  lemma AttachDirOk(nodes: Nodes, root: int, nextIno: int, files: Files, temps: multiset<int>, d: int, c: int,
                    node: Node, x: int)
    requires Inv(nodes, root, nextIno, files, temps) && Attachable(nodes, root, nextIno, d, c, node)
    requires x in nodes || x == c
    ensures DirOk(Attach(nodes, d, c, node), root, x)
    ensures x in nodes ==> Linked(Attach(nodes, d, c, node), root, x) == Linked(nodes, root, x)
    ensures Linked(Attach(nodes, d, c, node), root, c)
  {
    var n := Attach(nodes, d, c, node);
    assert c in n[d].children;
    if x in nodes {
      assert DirOk(nodes, root, x) && DirOk(nodes, root, d);
      assert c in nodes[x].children ==> ChildOk(nodes, root, x, c);
      assert n[c].children == [];
      assert Linked(n, root, x) == Linked(nodes, root, x);
      forall y | y in n[x].children
        ensures ChildOk(n, root, x, y)
      {
        if y != c { assert ChildOk(nodes, root, x, y); }
      }
    }
  }

  lemma AttachInv(nodes: Nodes, root: int, nextIno: int, files: Files, temps: multiset<int>, d: int, c: int,
                  node: Node, t: multiset<int>)
    requires Inv(nodes, root, nextIno, files, temps) && Attachable(nodes, root, nextIno, d, c, node)
    requires t == temps || t == temps + multiset{c}
    requires node.refs == 1 + t[c]
    ensures Inv(Attach(nodes, d, c, node), root, nextIno + 1, files, t)
  {
    var n := Attach(nodes, d, c, node);
    assert temps[c] == 0 && Opens(files, c) == 0 by {
      assert forall f :: f in files ==> files[f].vn != c;
      assert Holders(files, c) == {};
    }
    forall x | x in n
      ensures DirOk(n, root, x) && RefsOk(n, root, files, t, x)
    {
      AttachDirOk(nodes, root, nextIno, files, temps, d, c, node, x);
      if x in nodes { assert RefsOk(nodes, root, files, temps, x); }
    }
    AttachDirOk(nodes, root, nextIno, files, temps, d, c, node, root);
  }

  /** Taking entry `i` off the child list of `d`. */
  function Detach(nodes: Nodes, d: int, i: int): Nodes
    requires d in nodes && 0 <= i < |nodes[d].children|
  {
    var cs := nodes[d].children;
    nodes[d := nodes[d].(children := cs[..i] + cs[i + 1..])]
  }

  lemma DetachLinks(nodes: Nodes, root: int, nextIno: int, files: Files, temps: multiset<int>, d: int, i: int, x: int)
    requires Inv(nodes, root, nextIno, files, temps) && d in nodes && 0 <= i < |nodes[d].children| && x in nodes
    ensures Linked(Detach(nodes, d, i), root, x) == (Linked(nodes, root, x) && x != nodes[d].children[i])
  {
    var n, cs, c := Detach(nodes, d, i), nodes[d].children, nodes[d].children[i];
    var cs' := cs[..i] + cs[i + 1..];
    assert DirOk(nodes, root, d);
    assert ChildOk(nodes, root, d, c);
    assert forall k :: 0 <= k < |cs'| ==> cs'[k] == if k < i then cs[k] else cs[k + 1];
    assert c !in cs';
    forall k | 0 <= k < |cs| && k != i
      ensures cs[k] in cs'
    {
      assert cs[k] == cs'[if k < i then k else k - 1];
    }
  }

  lemma DetachDirOk(nodes: Nodes, root: int, nextIno: int, files: Files, temps: multiset<int>, d: int, i: int, x: int)
    requires Inv(nodes, root, nextIno, files, temps) && d in nodes && 0 <= i < |nodes[d].children| && x in nodes
    requires nodes[d].children[i] in nodes && nodes[nodes[d].children[i]].children == []
    ensures DirOk(Detach(nodes, d, i), root, x)
  {
    var n, cs := Detach(nodes, d, i), nodes[d].children;
    assert DirOk(nodes, root, x) && DirOk(nodes, root, d);
    DetachLinks(nodes, root, nextIno, files, temps, d, i, x);
    forall y | y in n[x].children
      ensures ChildOk(n, root, x, y)
    {
      assert ChildOk(nodes, root, x, y);
    }
    if x == d { ThinnedOk(nodes, cs, i); }
  }

  lemma ThinnedOk(nodes: Nodes, cs: seq<int>, i: int)
    requires NoDup(cs) && NamesDiffer(nodes, cs) && 0 <= i < |cs|
    ensures NoDup(cs[..i] + cs[i + 1..]) && NamesDiffer(nodes, cs[..i] + cs[i + 1..])
  {
    var cs' := cs[..i] + cs[i + 1..];
    forall j, k | 0 <= j < k < |cs'|
      ensures cs'[j] != cs'[k] && (cs'[j] in nodes && cs'[k] in nodes ==> nodes[cs'[j]].name != nodes[cs'[k]].name)
    {
      var j0, k0 := if j < i then j else j + 1, if k < i then k else k + 1;
      assert cs'[j] == cs[j0] && cs'[k] == cs[k0];
    }
  }

  /** Unlinking turns the list's reference into one of the running operation. */
  lemma DetachInv(nodes: Nodes, root: int, nextIno: int, files: Files, temps: multiset<int>, d: int, i: int)
    requires Inv(nodes, root, nextIno, files, temps) && d in nodes && 0 <= i < |nodes[d].children|
    requires nodes[d].children[i] in nodes && nodes[nodes[d].children[i]].children == []
    ensures Inv(Detach(nodes, d, i), root, nextIno, files, temps + multiset{nodes[d].children[i]})
  {
    var n, c := Detach(nodes, d, i), nodes[d].children[i];
    assert DirOk(nodes, root, d) && ChildOk(nodes, root, d, c);
    forall x | x in n
      ensures DirOk(n, root, x) && RefsOk(n, root, files, temps + multiset{c}, x)
    {
      DetachDirOk(nodes, root, nextIno, files, temps, d, i, x);
      DetachLinks(nodes, root, nextIno, files, temps, d, i, x);
      assert RefsOk(nodes, root, files, temps, x);
      assert c in nodes[nodes[c].parent].children;
    }
  }
}
