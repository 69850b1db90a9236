/** The operations of the file server on the vnode tree (src/userspace/vfs/vfs.c, ramfs.c).  The
    ghost `temps` counts the references an operation holds while it runs; between operations
    there are none, and then every reference count is the link plus the open files. */
module Vfs {
  import opened Basics
  import opened VfsTree
  import opened PathWalk
  import opened RamFile

  function NewNode(ino: int, dir: bool, parent: int, refs: int, name: string): Node {
    Node(ino, dir, parent, refs, name, [], [])
  }

  /** Moving the running operation's reference from `a` to `b`. */
  lemma HopRefs(n0: Nodes, a: int, b: int)
    requires a in n0 && b in n0 && n0[a].refs > 0
    ensures Drop(AddRef(AddRef(n0, a, 1), b, 1), a) == AddRef(n0, b, 1)
  {
  }

  lemma RefUnref(n0: Nodes, a: int)
    requires a in n0 && n0[a].refs > 0
    ensures Drop(AddRef(n0, a, 1), a) == n0
  {
  }

  lemma RemoveUpdated(nodes: Nodes, id: int, n: Node)
    ensures nodes[id := n] - {id} == nodes - {id}
  {
  }

  lemma Counted(nodes: Nodes, root: int, nextIno: int, files: Files, temps: multiset<int>, id: int)
    requires Inv(nodes, root, nextIno, files, temps) && id in temps
    ensures id in nodes && nodes[id].refs > 0 && (nodes[id].refs == 1 ==> nodes[id].children == [])
  {
    assert RefsOk(nodes, root, files, temps, id);
    if nodes[id].refs == 1 { LastRef(nodes, root, nextIno, files, temps, id); }
  }

  lemma AddRefSame(n0: Nodes, a: int, k: int)
    requires a in n0
    ensures SameTree(n0, AddRef(n0, a, k))
  {
  }

  class Server {
    var nodes: Nodes
    var root: int
    var nextIno: int
    var files: Files
    ghost var temps: multiset<int>

    ghost predicate Mid()
      reads this
    {
      Inv(nodes, root, nextIno, files, temps)
    }

    ghost predicate Valid()
      reads this
    {
      Mid() && temps == multiset{}
    }

    /** ramfs_create_root, mounted. */
    constructor (r: int)
      ensures Valid() && files == map[] && root == r
      ensures nodes == map[r := NewNode(1, true, r, 1, "")] && nextIno == 2
    {
      nodes := map[r := NewNode(1, true, r, 1, "")];
      root, nextIno, files, temps := r, 2, map[], multiset{};
      new;
      assert Holders(files, r) == {};
    }

    /** vnode_ref */
    method Ref(id: int)
      requires Mid() && id in nodes
      modifies this`nodes, this`temps
      ensures Mid() && nodes == AddRef(old(nodes), id, 1) && temps == old(temps) + multiset{id}
    {
      RefInv(nodes, root, nextIno, files, temps, id);
      nodes := nodes[id := nodes[id].(refs := nodes[id].refs + 1)];
      temps := temps + multiset{id};
    }

    /** vnode_unref; ramfs_destroy finds no child to release. */
    method Unref(id: int)
      requires Mid() && id in temps
      modifies this`nodes, this`temps
      ensures Mid() && nodes == Drop(old(nodes), id) && temps == old(temps) - multiset{id}
      ensures old(nodes)[id].refs == 1 ==> old(nodes)[id].children == []
    {
      UnrefInv(nodes, root, nextIno, files, temps, id);
      Counted(nodes, root, nextIno, files, temps, id);
      var n := nodes[id].(refs := nodes[id].refs - 1);
      RemoveUpdated(nodes, id, n);
      temps := temps - multiset{id};
      if nodes[id].refs == 0 {
        return;
      }
      nodes := nodes[id := n];
      if n.refs == 0 {
        nodes := nodes - {id};
      }
    }

    /** Apart from `t0`, the running operation holds one reference, on `cur`. */
    ghost predicate Holds(n0: Nodes, t0: multiset<int>, cur: int)
      reads this
    {
      cur in n0 && nodes == AddRef(n0, cur, 1) && temps == t0 + multiset{cur}
    }

    /** The walk moves on: take the next node, give up this one. */
    method Hop(cur: int, next: int, ghost n0: Nodes, ghost t0: multiset<int>)
      requires Mid() && Holds(n0, t0, cur) && next in n0 && n0[cur].refs > 0
      modifies this`nodes, this`temps
      ensures Mid() && Holds(n0, t0, next)
    {
      HopRefs(n0, cur, next);
      Ref(next);
      Unref(cur);
      assert t0 + multiset{cur} + multiset{next} - multiset{cur} == t0 + multiset{next};
    }

    /** The walk stops and gives its node back. */
    method GiveUp(cur: int, ghost n0: Nodes, ghost t0: multiset<int>)
      requires Mid() && Holds(n0, t0, cur) && n0[cur].refs > 0
      modifies this`nodes, this`temps
      ensures Mid() && nodes == n0 && temps == t0
    {
      RefUnref(n0, cur);
      Unref(cur);
      assert t0 + multiset{cur} - multiset{cur} == t0;
    }

    /** ramfs_find */
    method Find(d: int, name: string) returns (k: int)
      requires d in nodes
      ensures k == FindChild(nodes, nodes[d].children, name)
    {
      var cs := nodes[d].children;
      k := 0;
      while k < |cs|
        invariant 0 <= k <= |cs|
        invariant FindChild(nodes, cs, name) == k + FindChild(nodes, cs[k..], name)
      {
        if cs[k] in nodes && nodes[cs[k]].name == name {
          return;
        }
        assert cs[k..][1..] == cs[k + 1..];
        k := k + 1;
      }
    }

    /** Scan one component from `p`; `len` stops at NAME_MAX when it is longer. */
    method Scan(path: string, p: int) returns (len: int, long: bool)
      requires 0 <= p <= |path|
      ensures long == (SegLen(path[p..]) > NAME_MAX)
      ensures !long ==> len == SegLen(path[p..])
    {
      len := 0;
      while p + len < |path| && path[p + len] != '/'
        invariant 0 <= len <= NAME_MAX && p + len <= |path|
        invariant SegLen(path[p..]) == len + SegLen(path[p + len..])
      {
        assert path[p + len..][1..] == path[p + len + 1..];
        if len >= NAME_MAX {
          return len, true;
        }
        len := len + 1;
      }
      return len, false;
    }

    method SkipSlashes(path: string, p: int) returns (q: int)
      requires 0 <= p <= |path|
      ensures p <= q <= |path| && Segments(path[q..]) == Segments(path[p..])
      ensures q < |path| ==> path[q] != '/'
    {
      q := p;
      while q < |path| && path[q] == '/'
        invariant p <= q <= |path| && Segments(path[q..]) == Segments(path[p..])
      {
        assert path[q..][1..] == path[q + 1..];
        q := q + 1;
      }
    }

    /** One turn of the walking loop, holding a reference on `cur`. */
    method Advance(cur: int, name: string, ghost n0: Nodes, ghost t0: multiset<int>) returns (r: Result)
      requires Inv(n0, root, nextIno, files, t0) && cur in n0 && Linked(n0, root, cur) && |name| <= NAME_MAX
      requires Mid() && Holds(n0, t0, cur)
      modifies this`nodes, this`temps
      ensures Mid() && r == Step(n0, cur, name)
      ensures r.Ok? ==> r.id in n0 && Linked(n0, root, r.id) && Holds(n0, t0, r.id)
      ensures r.Err? ==> nodes == n0 && temps == t0
    {
      StepLinked(n0, root, nextIno, files, t0, cur, name);
      assert RefsOk(n0, root, files, t0, cur);
      if name == "." {
        return Ok(cur);
      }
      if name == ".." {
        var par := nodes[cur].parent;
        if par != cur {
          Hop(cur, par, n0, t0);
        }
        return Ok(par);
      }
      r := Descend(cur, name, n0, t0);
    }

    /** The lookup of an ordinary component. */
    method Descend(cur: int, name: string, ghost n0: Nodes, ghost t0: multiset<int>) returns (r: Result)
      requires Mid() && Holds(n0, t0, cur) && n0[cur].refs > 0
      requires Lookup(n0, cur, name).Ok? ==> Lookup(n0, cur, name).id in n0
      modifies this`nodes, this`temps
      ensures Mid() && r == if !n0[cur].dir then Err(ENOTDIR) else Lookup(n0, cur, name)
      ensures r.Ok? ==> Holds(n0, t0, r.id)
      ensures r.Err? ==> nodes == n0 && temps == t0
    {
      if !nodes[cur].dir {
        GiveUp(cur, n0, t0);
        return Err(ENOTDIR);
      }
      AddRefSame(n0, cur, 1);
      LookupSame(n0, nodes, n0[cur].children, name);
      var k := Find(cur, name);
      if k == |nodes[cur].children| {
        GiveUp(cur, n0, t0);
        return Err(ENOENT);
      }
      var next := nodes[cur].children[k];
      Hop(cur, next, n0, t0);
      return Ok(next);
    }

    /** The next component of the path and the rest of it. */
    method NextName(path: string, p: int) returns (q: int, name: string, long: bool)
      requires 0 <= p < |path| && path[p] != '/'
      ensures long ==> Segments(path[p..]) != [] && |Segments(path[p..])[0]| > NAME_MAX
      ensures !long ==> |name| <= NAME_MAX && p < q <= |path| && Segments(path[p..]) == [name] + Segments(path[q..])
    {
      var len;
      len, long := Scan(path, p);
      ghost var n, s := SegLen(path[p..]), path[p..];
      assert s[0] == path[p] && n > 0;
      assert Segments(s) == [s[..n]] + Segments(s[n..]);
      assert s[..n] == path[p..p + n] && s[n..] == path[p + n..];
      if long {
        return p, [], true;
      }
      return p + len, path[p..p + len], false;
    }

    /** resolve_from the root: the walk's result, with exactly one reference added to it. */
    method ResolveFrom(path: string) returns (r: Result)
      requires Mid()
      modifies this`nodes, this`temps
      ensures Mid() && r == Walk(old(nodes), root, Segments(path))
      ensures r.Ok? ==> Linked(old(nodes), root, r.id) && Holds(old(nodes), old(temps), r.id)
      ensures r.Err? ==> nodes == old(nodes) && temps == old(temps)
    {
      ghost var n0, t0, goal := nodes, temps, Walk(nodes, root, Segments(path));
      Ref(root);
      var cur, p := root, 0;
      assert path[0..] == path;
      while p < |path|
        invariant 0 <= p <= |path| && Mid()
        invariant cur in n0 && Linked(n0, root, cur) && Holds(n0, t0, cur)
        invariant Walk(n0, cur, Segments(path[p..])) == goal
      {
        p := SkipSlashes(path, p);
        if p == |path| {
          break;
        }
        var q, name, long := NextName(path, p);
        ghost var segs := Segments(path[p..]);
        if long {
          assert RefsOk(n0, root, files, t0, cur);
          GiveUp(cur, n0, t0);
          return Err(ENAMETOOLONG);
        }
        assert segs[0] == name && segs[1..] == Segments(path[q..]);
        r := Advance(cur, name, n0, t0);
        if r.Err? {
          return;
        }
        cur, p := r.id, q;
      }
      return Ok(cur);
    }

    /** split_parent, keeping a reference on the directory found. */
    method FindPlace(path: string) returns (pl: Place)
      requires Valid()
      modifies this`nodes, this`temps
      ensures Mid() && pl == SplitParent(old(nodes), root, path)
      ensures pl.Place? ==> Linked(old(nodes), root, pl.dir) && Holds(old(nodes), multiset{}, pl.dir)
      ensures pl.NoPlace? ==> nodes == old(nodes) && temps == multiset{}
    {
      if path == [] || |path| > PATH_MAX {
        return NoPlace(ENAMETOOLONG);
      }
      var i := |path|;
      assert path[..|path|] == path;
      while i > 0 && path[i - 1] != '/'
        invariant 0 <= i <= |path| && LastStart(path) == LastStart(path[..i])
      {
        assert path[..i][..i - 1] == path[..i - 1];
        i := i - 1;
      }
      assert path[..0] == [];
      assert LastStart(path[..i]) == i;
      if i == |path| {
        return NoPlace(EINVAL);
      }
      if |path| - i > NAME_MAX {
        return NoPlace(ENAMETOOLONG);
      }
      var dirpath := if i == 0 then "/" else path[..i];
      var r := Locate(dirpath);
      return if r.Err? then NoPlace(r.error) else Place(r.id, path[i..]);
    }

    /** vfs_resolve */
    method Locate(path: string) returns (r: Result)
      requires Mid()
      modifies this`nodes, this`temps
      ensures Mid() && r == Resolve(old(nodes), root, path)
      ensures r.Ok? ==> Linked(old(nodes), root, r.id) && Holds(old(nodes), old(temps), r.id)
      ensures r.Err? ==> nodes == old(nodes) && temps == old(temps)
    {
      if path == [] || path[0] != '/' {
        return Err(EINVAL);
      }
      r := ResolveFrom(path);
    }

    /** The linking part of ramfs_create and ramfs_mkdir; `extra` is the caller's reference. */
    method LinkNew(d: int, name: string, dir: bool, addr: int, extra: int)
      requires Mid() && d in nodes && nodes[d].dir && Linked(nodes, root, d) && addr !in nodes && 0 <= extra <= 1
      requires !HasName(nodes, d, name)
      modifies this`nodes, this`nextIno, this`temps
      ensures Mid() && nextIno == old(nextIno) + 1
      ensures nodes == Attach(old(nodes), d, addr, NewNode(old(nextIno), dir, d, 1 + extra, name))
      ensures temps == if extra == 0 then old(temps) else old(temps) + multiset{addr}
    {
      ghost var t := if extra == 0 then temps else temps + multiset{addr};
      var node := NewNode(nextIno, dir, d, 1 + extra, name);
      assert temps[addr] == 0;
      AttachInv(nodes, root, nextIno, files, temps, d, addr, node, t);
      nodes := nodes[addr := node];
      nodes := nodes[d := nodes[d].(children := [addr] + nodes[d].children)];
      nextIno, temps := nextIno + 1, t;
    }

    /** Give the directory back after an entry was added to it. */
    method LeaveDir(d: int, c: int, node: Node, ghost n0: Nodes, ghost t0: multiset<int>)
      requires Mid() && d in n0 && n0[d].refs > 0 && c !in n0
      requires nodes == Attach(AddRef(n0, d, 1), d, c, node) && temps == t0 + multiset{d}
      modifies this`nodes, this`temps
      ensures Mid() && nodes == Attach(n0, d, c, node) && temps == t0
    {
      AttachThenDrop(n0, d, c, node);
      Unref(d);
      assert t0 + multiset{d} - multiset{d} == t0;
    }

    /** vfs_mkdir; `addr` is what calloc returned, 0 for failure. */
    method Mkdir(path: string, addr: int) returns (r: Result)
      requires Valid() && (addr == 0 || addr !in nodes)
      modifies this`nodes, this`nextIno, this`temps
      ensures Valid() && r == MakeResult(old(nodes), root, path, addr)
      ensures r.Err? ==> nodes == old(nodes)
      ensures r.Ok? ==>
                var pl := SplitParent(old(nodes), root, path);
                nodes == Attach(old(nodes), pl.dir, addr, NewNode(old(nextIno), true, pl.dir, 1, pl.name))
    {
      ghost var n0 := nodes;
      var pl := FindPlace(path);
      if pl.NoPlace? {
        return Err(pl.error);
      }
      var d := pl.dir;
      r := AddEntry(d, pl.name, true, addr, 0, n0);
    }

    /** ramfs_create or ramfs_mkdir on a held directory, which is then given back. */
    method AddEntry(d: int, name: string, dir: bool, addr: int, extra: int, ghost n0: Nodes) returns (r: Result)
      requires Inv(n0, root, nextIno, files, multiset{}) && Mid() && Holds(n0, multiset{}, d) && Linked(n0, root, d)
      requires (addr == 0 || addr !in n0) && 0 <= extra <= 1
      modifies this`nodes, this`nextIno, this`temps
      ensures Mid() && r == EntryResult(n0, d, name, addr)
      ensures r.Err? ==> nodes == n0 && temps == multiset{}
      ensures r.Ok? ==> nodes == Attach(n0, d, addr, NewNode(old(nextIno), dir, d, 1 + extra, name))
      ensures r.Ok? ==> temps == if extra == 0 then multiset{} else multiset{addr}
    {
      assert RefsOk(n0, root, files, multiset{}, d);
      if !nodes[d].dir {
        GiveUp(d, n0, multiset{});
        return Err(ENOTDIR);
      }
      AddRefSame(n0, d, 1);
      LookupSame(n0, nodes, n0[d].children, name);
      var k := Find(d, name);
      var found := k < |nodes[d].children|;
      if found || addr == 0 {
        GiveUp(d, n0, multiset{});
        return Err(if found then EEXIST else ENOMEM);
      }
      NoSuchName(n0, d, name);
      var ino := nextIno;
      SameLinked(n0, nodes, root, d);
      LinkNew(d, name, dir, addr, extra);
      LeaveDir(d, addr, NewNode(ino, dir, d, 1 + extra, name), n0, if extra == 0 then multiset{} else multiset{addr});
      return Ok(addr);
    }

    /** ramfs_unlink or ramfs_rmdir on a held directory, which is then given back. */
    method RemoveEntry(d: int, name: string, dir: bool, ghost n0: Nodes) returns (r: Result)
      requires Inv(n0, root, nextIno, files, multiset{}) && Mid() && Holds(n0, multiset{}, d)
      modifies this`nodes, this`temps
      ensures Valid() && r == GoneResult(n0, d, name, dir)
      ensures nodes == if r.Err? then n0 else Gone(n0, d, name)
    {
      assert RefsOk(n0, root, files, multiset{}, d);
      if !nodes[d].dir {
        GiveUp(d, n0, multiset{});
        return Err(ENOTDIR);
      }
      AddRefSame(n0, d, 1);
      LookupSame(n0, nodes, n0[d].children, name);
      assert DirOk(n0, root, d);
      var k := Find(d, name);
      if k == |nodes[d].children| {
        GiveUp(d, n0, multiset{});
        return Err(ENOENT);
      }
      var c := nodes[d].children[k];
      assert ChildOk(n0, root, d, c);
      if nodes[c].dir != dir || (dir && nodes[c].children != []) {
        r := Err(if nodes[c].dir != dir then (if dir then ENOTDIR else EISDIR) else ENOTEMPTY);
        GiveUp(d, n0, multiset{});
        return;
      }
      assert DirOk(n0, root, c);
      TakeOut(d, k, c, n0);
      return Ok(c);
    }

    /** Take entry `k` off the child list; its reference is now the operation's. */
    method Splice(d: int, k: int)
      requires Mid() && d in nodes && 0 <= k < |nodes[d].children|
      requires nodes[d].children[k] in nodes && nodes[nodes[d].children[k]].children == []
      modifies this`nodes, this`temps
      ensures Mid() && nodes == Detach(old(nodes), d, k) && temps == old(temps) + multiset{old(nodes)[d].children[k]}
    {
      DetachInv(nodes, root, nextIno, files, temps, d, k);
      temps := temps + multiset{nodes[d].children[k]};
      var cs := nodes[d].children;
      nodes := nodes[d := nodes[d].(children := cs[..k] + cs[k + 1..])];
    }

    /** Unlink a child without children and give the directory back. */
    method TakeOut(d: int, k: int, c: int, ghost n0: Nodes)
      requires Inv(n0, root, nextIno, files, multiset{}) && Mid() && Holds(n0, multiset{}, d)
      requires 0 <= k < |n0[d].children| && n0[d].children[k] == c && c in n0 && c != d && n0[c].children == []
      modifies this`nodes, this`temps
      ensures Valid() && nodes == Drop(Detach(n0, d, k), c)
    {
      assert RefsOk(n0, root, files, multiset{}, c) && RefsOk(n0, root, files, multiset{}, d);
      DetachOrder(n0, d, k, c);
      Splice(d, k);
      Unref(c);
      assert multiset{d} + multiset{c} - multiset{c} == multiset{d};
      Unref(d);
    }

    /** vfs_unlink */
    method Unlink(path: string) returns (r: Result)
      requires Valid()
      modifies this`nodes, this`temps
      ensures Valid() && r == RemoveResult(old(nodes), root, path, false)
      ensures nodes == if r.Err? then old(nodes) else Removed(old(nodes), root, path)
    {
      ghost var n0 := nodes;
      var pl := FindPlace(path);
      if pl.NoPlace? {
        return Err(pl.error);
      }
      r := RemoveEntry(pl.dir, pl.name, false, n0);
    }

    /** vfs_rmdir */
    method Rmdir(path: string) returns (r: Result)
      requires Valid()
      modifies this`nodes, this`temps
      ensures Valid() && r == RemoveResult(old(nodes), root, path, true)
      ensures nodes == if r.Err? then old(nodes) else Removed(old(nodes), root, path)
    {
      ghost var n0 := nodes;
      var pl := FindPlace(path);
      if pl.NoPlace? {
        return Err(pl.error);
      }
      r := RemoveEntry(pl.dir, pl.name, true, n0);
    }

    /** The O_TRUNC step: ramfs_truncate to 0 of a regular file never fails. */
    method Empty(id: int, flags: OpenFlags)
      requires Mid() && id in nodes
      modifies this`nodes
      ensures Mid() && nodes == Emptied(old(nodes), id, flags)
    {
      if flags.trunc && MayWrite(flags) && !nodes[id].dir {
        ContentsInv(nodes, root, nextIno, files, temps, id, []);
        nodes := nodes[id := nodes[id].(data := [])];
      }
    }

    /** The last part of vfs_open: the file takes over the reference, or it is dropped. */
    method MakeFile(vn: int, flags: OpenFlags, faddr: int) returns (r: Result)
      requires Mid() && temps == multiset{vn} && (faddr == 0 || faddr !in files)
      modifies this`nodes, this`files, this`temps
      ensures Valid() && r == if faddr == 0 then Err(ENOMEM) else Ok(faddr)
      ensures r.Ok? ==> nodes == old(nodes) && files == old(files)[faddr := File(vn, flags, 0, 1)]
      ensures r.Err? ==> nodes == Drop(old(nodes), vn) && files == old(files)
    {
      if faddr == 0 {
        Unref(vn);
        return Err(ENOMEM);
      }
      OpenInv(nodes, root, nextIno, files, temps, faddr, File(vn, flags, 0, 1));
      files := files[faddr := File(vn, flags, 0, 1)];
      temps := temps - multiset{vn};
      return Ok(faddr);
    }

    /** vfs_open of a path that names a node. */
    method OpenFound(vn: int, flags: OpenFlags, faddr: int, ghost n0: Nodes) returns (r: Result)
      requires Inv(n0, root, nextIno, files, multiset{}) && Mid() && Holds(n0, multiset{}, vn)
      requires faddr == 0 || faddr !in files
      modifies this`nodes, this`files, this`temps
      ensures Valid() && r == FoundResult(flags, faddr)
      ensures r.Ok? ==>
              nodes == AddRef(Emptied(n0, vn, flags), vn, 1)
              && files == old(files)[faddr := File(vn, flags, 0, 1)]
      ensures r.Err? ==> files == old(files) && nodes == if r.error == EEXIST then n0 else Emptied(n0, vn, flags)
    {
      assert RefsOk(n0, root, files, multiset{}, vn);
      if flags.creat && flags.excl {
        GiveUp(vn, n0, multiset{});
        return Err(EEXIST);
      }
      Empty(vn, flags);
      EmptiedRefs(n0, vn, flags);
      r := MakeFile(vn, flags, faddr);
    }

    /** vfs_open that creates the file. */
    method OpenNew(path: string, flags: OpenFlags, addr: int, faddr: int) returns (r: Result)
      requires Valid() && (addr == 0 || addr !in nodes) && (faddr == 0 || faddr !in files)
      modifies this`nodes, this`nextIno, this`files, this`temps
      ensures Valid() && r == NewResult(old(nodes), root, path, addr, faddr)
      ensures nodes == NewNodes(old(nodes), root, old(nextIno), path, addr, faddr)
      ensures files == if r.Ok? then old(files)[faddr := File(addr, flags, 0, 1)] else old(files)
    {
      ghost var n0, ino := nodes, nextIno;
      var pl := FindPlace(path);
      if pl.NoPlace? {
        return Err(pl.error);
      }
      r := AddEntry(pl.dir, pl.name, false, addr, 1, n0);
      if r.Err? {
        return;
      }
      r := Finish(addr, flags, faddr, n0, pl.dir, NewNode(ino, false, pl.dir, 2, pl.name));
    }

    /** The created node, with O_TRUNC a no-op on it, becomes an open file. */
    method Finish(addr: int, flags: OpenFlags, faddr: int, ghost n0: Nodes, ghost d: int, ghost node: Node)
      returns (r: Result)
      requires Mid() && temps == multiset{addr} && d in n0 && addr !in n0 && node.data == [] && node.refs == 2
      requires nodes == Attach(n0, d, addr, node) && (faddr == 0 || faddr !in files)
      modifies this`nodes, this`files, this`temps
      ensures Valid() && r == if faddr == 0 then Err(ENOMEM) else Ok(faddr)
      ensures nodes == Attach(n0, d, addr, node.(refs := if r.Ok? then 2 else 1))
      ensures files == if r.Ok? then old(files)[faddr := File(addr, flags, 0, 1)] else old(files)
    {
      NewIsEmpty(n0, d, addr, node, flags);
      Empty(addr, flags);
      r := MakeFile(addr, flags, faddr);
    }

    /** vfs_open */
    method Open(path: string, flags: OpenFlags, addr: int, faddr: int) returns (r: Result)
      requires Valid() && (addr == 0 || addr !in nodes) && (faddr == 0 || faddr !in files)
      modifies this`nodes, this`nextIno, this`files, this`temps
      ensures Valid()
      ensures var w := Resolve(old(nodes), root, path);
              && r == OpenResult(old(nodes), root, w, path, flags, addr, faddr)
              && files == (if r.Ok? then old(files)[faddr := File(if w.Ok? then w.id else addr, flags, 0, 1)]
                           else old(files))
              && nodes == OpenNodes(old(nodes), root, w, old(nextIno), path, flags, addr, faddr)
    {
      ghost var n0 := nodes;
      var w := Locate(path);
      r := OpenAt(w, path, flags, addr, faddr, n0);
    }

    /** vfs_open behind its lookup. */
    method OpenAt(w: Result, path: string, flags: OpenFlags, addr: int, faddr: int, ghost n0: Nodes) returns (r: Result)
      requires Inv(n0, root, nextIno, files, multiset{}) && Mid() && (addr == 0 || addr !in n0)
               && (faddr == 0 || faddr !in files)
      requires w.Ok? ==> Holds(n0, multiset{}, w.id)
      requires w.Err? ==> nodes == n0 && temps == multiset{}
      modifies this`nodes, this`nextIno, this`files, this`temps
      ensures Valid() && r == OpenResult(n0, root, w, path, flags, addr, faddr)
      ensures files == if r.Ok? then old(files)[faddr := File(if w.Ok? then w.id else addr, flags, 0, 1)]
              else old(files)
      ensures nodes == OpenNodes(n0, root, w, old(nextIno), path, flags, addr, faddr)
    {
      if w == Err(ENOENT) && flags.creat {
        r := OpenNew(path, flags, addr, faddr);
      } else if w.Ok? {
        r := OpenFound(w.id, flags, faddr, n0);
      } else {
        r := w;
      }
    }

    /** vfs_read, on the contents that RamFile's buffer stands for. */
    method Read(f: int, n: int) returns (r: Count, buf: seq<int>)
      requires Valid() && f in files && 0 <= n
      modifies this`files
      ensures Valid()
      ensures var file := old(files)[f];
              && r == (if !MayRead(file.flags) then Fail(EBADF) else if nodes[file.vn].dir then Fail(EISDIR)
                       else Done(|buf|))
              && (r.Done? ==> buf == Slice(nodes[file.vn].data, file.offset, n))
              && files == if r.Done? then old(files)[f := file.(offset := file.offset + |buf|)] else old(files)
    {
      var file := files[f];
      buf := [];
      if !MayRead(file.flags) {
        return Fail(EBADF), [];
      }
      if nodes[file.vn].dir {
        return Fail(EISDIR), [];
      }
      buf := Slice(nodes[file.vn].data, file.offset, n);
      ShareInv(nodes, root, nextIno, files, f, file.(offset := file.offset + |buf|));
      files := files[f := file.(offset := file.offset + |buf|)];
      r := Done(|buf|);
    }

    /** vfs_write, on the contents that RamFile's buffer stands for; `fill` is what the buffer shows in
        the gap of a write past the end, `mem` whether it could grow. */
    method Write(f: int, buf: seq<int>, fill: seq<int>, mem: bool) returns (r: Count)
      requires Valid() && f in files
      requires |fill| >= WriteAt(nodes, files[f]) - |nodes[files[f].vn].data|
      modifies this`nodes, this`files
      ensures Valid() && r == WriteOutcome(old(nodes), old(files)[f], |buf|, mem)
      ensures var file := old(files)[f];
              if r.Done? && |buf| > 0 then
                && nodes == old(nodes)[file.vn := Written(old(nodes), file, buf, fill)]
                && files == old(files)[f := file.(offset := WriteAt(old(nodes), file) + |buf|)]
              else nodes == old(nodes) && files == old(files)
    {
      var file := files[f];
      r := WriteOutcome(nodes, file, |buf|, mem);
      if r.Fail? || |buf| == 0 {
        return;
      }
      var off, node := WriteAt(nodes, file), Written(nodes, file, buf, fill);
      ContentsInv(nodes, root, nextIno, files, temps, file.vn, node.data);
      ghost var n1 := nodes[file.vn := node];
      ShareInv(n1, root, nextIno, files, f, file.(offset := off + |buf|));
      nodes := nodes[file.vn := node];
      files := files[f := file.(offset := off + |buf|)];
    }

    /** vfs_close: the vnode is destroyed exactly when it is unlinked and this was its last open file.
        A null file is refused. */
    method Close(f: int) returns (r: Result)
      requires Valid() && (f == 0 || f in files)
      modifies this`nodes, this`files, this`temps
      ensures Valid() && r == if f == 0 then Err(EINVAL) else Ok(0)
      ensures f == 0 ==> nodes == old(nodes) && files == old(files)
      ensures f != 0 && old(files)[f].refs > 1 ==>
                nodes == old(nodes) && files == old(files)[f := old(files)[f].(refs := old(files)[f].refs - 1)]
      ensures f != 0 && old(files)[f].refs <= 1 ==>
                var vn := old(files)[f].vn;
                && files == old(files) - {f} && nodes == Drop(old(nodes), vn)
                && (vn !in nodes <==> !Linked(old(nodes), root, vn) && Opens(old(files), vn) == 1)
    {
      if f == 0 {
        return Err(EINVAL);
      }
      r := Ok(0);
      var file := files[f];
      if file.refs > 1 {
        ShareInv(nodes, root, nextIno, files, f, file.(refs := file.refs - 1));
        files := files[f := file.(refs := file.refs - 1)];
        return;
      }
      CloseInv(nodes, root, nextIno, files, temps, f);
      assert RefsOk(nodes, root, files, temps, file.vn);
      OpensRemoved(files, f, file.vn);
      temps := temps + multiset{file.vn};
      files := files - {f};
      Unref(file.vn);
    }
  }

  /** Where a write through the file goes. */
  function WriteAt(nodes: Nodes, file: File): int
    requires file.vn in nodes
  {
    if file.flags.append then |nodes[file.vn].data| else file.offset
  }

  function WriteOutcome(nodes: Nodes, file: File, n: int, mem: bool): Count
    requires file.vn in nodes
  {
    if !MayWrite(file.flags) then Fail(EBADF)
    else if nodes[file.vn].dir then Fail(EISDIR)
    else if n == 0 then Done(0)
    else if WriteAt(nodes, file) + n >= WORD then Fail(EINVAL)
    else if !mem then Fail(ENOMEM)
    else Done(n)
  }

  function Written(nodes: Nodes, file: File, buf: seq<int>, fill: seq<int>): Node
    requires file.vn in nodes && 0 <= WriteAt(nodes, file)
    requires |fill| >= WriteAt(nodes, file) - |nodes[file.vn].data|
  {
    var off, data := WriteAt(nodes, file), nodes[file.vn].data;
    var gap := if off > |data| then fill[..off - |data|] else [];
    nodes[file.vn].(data := RamFile.Splice(Padded(data, off, gap), off, buf))
  }

  function Emptied(nodes: Nodes, id: int, flags: OpenFlags): Nodes
    requires id in nodes
  {
    if flags.trunc && MayWrite(flags) && !nodes[id].dir then nodes[id := nodes[id].(data := [])] else nodes
  }

  function FoundResult(flags: OpenFlags, faddr: int): Result {
    if flags.creat && flags.excl then Err(EEXIST) else if faddr == 0 then Err(ENOMEM) else Ok(faddr)
  }

  function NewResult(nodes: Nodes, root: int, path: string, addr: int, faddr: int): Result {
    var m := MakeResult(nodes, root, path, addr);
    if m.Err? then m else if faddr == 0 then Err(ENOMEM) else Ok(faddr)
  }

  function NewNodes(nodes: Nodes, root: int, ino: int, path: string, addr: int, faddr: int): Nodes {
    var pl := SplitParent(nodes, root, path);
    if MakeResult(nodes, root, path, addr).Err? || pl.NoPlace? || pl.dir !in nodes then nodes
    else Attach(nodes, pl.dir, addr, NewNode(ino, false, pl.dir, if faddr == 0 then 1 else 2, pl.name))
  }

  /** The outcome of vfs_open when the lookup of the path gave `w`. */
  function OpenResult(nodes: Nodes, root: int, w: Result, path: string, flags: OpenFlags, addr: int,
                      faddr: int): Result {
    if w == Err(ENOENT) && flags.creat then NewResult(nodes, root, path, addr, faddr)
    else if w.Err? then w
    else FoundResult(flags, faddr)
  }

  function OpenNodes(nodes: Nodes, root: int, w: Result, ino: int, path: string, flags: OpenFlags, addr: int,
                     faddr: int): Nodes {
    var r := FoundResult(flags, faddr);
    if w == Err(ENOENT) && flags.creat then NewNodes(nodes, root, ino, path, addr, faddr)
    else if w.Err? || w.id !in nodes || r == Err(EEXIST) then nodes
    else if r.Ok? then AddRef(Emptied(nodes, w.id, flags), w.id, 1)
    else Emptied(nodes, w.id, flags)
  }

  /** Contents do not matter to the counts. */
  lemma ContentsInv(nodes: Nodes, root: int, nextIno: int, files: Files, temps: multiset<int>, id: int, data: seq<int>)
    requires Inv(nodes, root, nextIno, files, temps) && id in nodes
    ensures Inv(nodes[id := nodes[id].(data := data)], root, nextIno, files, temps)
  {
    var n := nodes[id := nodes[id].(data := data)];
    forall d | d in n
      ensures DirOk(n, root, d) && RefsOk(n, root, files, temps, d)
    {
      assert DirOk(nodes, root, d);
      SameTreeOk(nodes, n, root, d);
      assert RefsOk(nodes, root, files, temps, d);
    }
  }

  lemma EmptiedRefs(n0: Nodes, vn: int, flags: OpenFlags)
    requires vn in n0 && n0[vn].refs > 0
    ensures Emptied(AddRef(n0, vn, 1), vn, flags) == AddRef(Emptied(n0, vn, flags), vn, 1)
    ensures Drop(AddRef(Emptied(n0, vn, flags), vn, 1), vn) == Emptied(n0, vn, flags)
  {
  }

  lemma NewIsEmpty(n0: Nodes, d: int, c: int, node: Node, flags: OpenFlags)
    requires d in n0 && c !in n0 && node.data == [] && node.refs == 2
    ensures Emptied(Attach(n0, d, c, node), c, flags) == Attach(n0, d, c, node)
    ensures Drop(Attach(n0, d, c, node), c) == Attach(n0, d, c, node.(refs := 1))
  {
  }

  /** Sharing a file between descriptors does not change how many files are open. */
  lemma ShareInv(nodes: Nodes, root: int, nextIno: int, files: Files, f: int, file: File)
    requires Inv(nodes, root, nextIno, files, multiset{}) && f in files && file.vn == files[f].vn && file.offset >= 0
    ensures Inv(nodes, root, nextIno, files[f := file], multiset{})
  {
    var files' := files[f := file];
    forall d | d in nodes
      ensures RefsOk(nodes, root, files', multiset{}, d)
    {
      assert RefsOk(nodes, root, files, multiset{}, d);
      assert Holders(files', d) == Holders(files, d);
    }
  }

  /** Unlinking a file that is still open keeps it, contents and all, held by its open files alone;
      one that is not open is destroyed at once. */
  lemma UnlinkWhileOpen(nodes: Nodes, root: int, nextIno: int, files: Files, path: string, dir: bool)
    requires Inv(nodes, root, nextIno, files, multiset{}) && RemoveResult(nodes, root, path, dir).Ok?
    ensures var c, n := RemoveResult(nodes, root, path, dir).id, Removed(nodes, root, path);
            c in nodes && Linked(nodes, root, c) && !Linked(n, root, c)
            && (c in n <==> Opens(files, c) > 0)
            && (c in n ==> n[c] == nodes[c].(refs := Opens(files, c)))
  {
    var pl := SplitParent(nodes, root, path);
    var d, k := pl.dir, FindChild(nodes, nodes[pl.dir].children, pl.name);
    var c := nodes[d].children[k];
    assert DirOk(nodes, root, d);
    assert ChildOk(nodes, root, d, c);
    assert RefsOk(nodes, root, files, multiset{}, c);
    DetachLinks(nodes, root, nextIno, files, multiset{}, d, k, c);
    assert c in nodes[nodes[c].parent].children;
  }

  /** The outcome of removing an entry, and the tree without it. */
  function GoneResult(nodes: Nodes, d: int, name: string, dir: bool): Result
    requires d in nodes
  {
    var k := FindChild(nodes, nodes[d].children, name);
    if !nodes[d].dir then Err(ENOTDIR)
    else if k == |nodes[d].children| then Err(ENOENT)
    else
      var c := nodes[d].children[k];
      if nodes[c].dir != dir then Err(if dir then ENOTDIR else EISDIR)
      else if dir && nodes[c].children != [] then Err(ENOTEMPTY)
      else Ok(c)
  }

  function Gone(nodes: Nodes, d: int, name: string): Nodes
    requires d in nodes
  {
    var k := FindChild(nodes, nodes[d].children, name);
    if k == |nodes[d].children| then nodes else Drop(Detach(nodes, d, k), nodes[d].children[k])
  }

  function RemoveResult(nodes: Nodes, root: int, path: string, dir: bool): Result {
    var pl := SplitParent(nodes, root, path);
    if pl.NoPlace? then Err(pl.error)
    else if pl.dir in nodes then GoneResult(nodes, pl.dir, pl.name, dir)
    else Err(ENOENT)
  }

  function Removed(nodes: Nodes, root: int, path: string): Nodes {
    var pl := SplitParent(nodes, root, path);
    if pl.Place? && pl.dir in nodes then Gone(nodes, pl.dir, pl.name) else nodes
  }

  lemma DetachOrder(n0: Nodes, d: int, k: int, c: int)
    requires d in n0 && 0 <= k < |n0[d].children| && c in n0 && c != d && n0[d].refs > 0 && n0[c].refs > 0
    ensures Drop(Drop(Detach(AddRef(n0, d, 1), d, k), c), d) == Drop(Detach(n0, d, k), c)
  {
    var x, y := Detach(AddRef(n0, d, 1), d, k), Detach(n0, d, k);
    assert x == AddRef(y, d, 1);
    if n0[c].refs == 1 {
      assert Drop(x, c) == x - {c};
    }
  }

  lemma AttachThenDrop(n0: Nodes, d: int, c: int, node: Node)
    requires d in n0 && n0[d].refs > 0 && c !in n0
    ensures Drop(Attach(AddRef(n0, d, 1), d, c, node), d) == Attach(n0, d, c, node)
  {
  }

  lemma NoSuchName(n0: Nodes, d: int, name: string)
    requires d in n0 && FindChild(n0, n0[d].children, name) == |n0[d].children|
    ensures !HasName(AddRef(n0, d, 1), d, name)
  {
    var cs := n0[d].children;
    forall c | c in cs && c in n0
      ensures n0[c].name != name
    {
      var j :| 0 <= j < |cs| && cs[j] == c;
    }
  }

  lemma SameLinked(n: Nodes, n': Nodes, root: int, d: int)
    requires SameTree(n, n') && d in n
    ensures Linked(n', root, d) == Linked(n, root, d)
  {
  }

  /** The outcome of adding an entry to a directory. */
  function EntryResult(nodes: Nodes, d: int, name: string, addr: int): Result
    requires d in nodes
  {
    if !nodes[d].dir then Err(ENOTDIR)
    else if FindChild(nodes, nodes[d].children, name) < |nodes[d].children| then Err(EEXIST)
    else if addr == 0 then Err(ENOMEM)
    else Ok(addr)
  }

  function MakeResult(nodes: Nodes, root: int, path: string, addr: int): Result {
    var pl := SplitParent(nodes, root, path);
    if pl.NoPlace? then Err(pl.error)
    else if pl.dir in nodes then EntryResult(nodes, pl.dir, pl.name, addr)
    else Err(ENOENT)
  }
}
