/** The server's files hold byte sequences and ramfs keeps growable buffers: reading and writing
    through either gives the same results and leaves them in step, for every open file at once. */
module VfsFiles {
  import opened Basics
  import opened VfsTree
  import opened RamFile
  import opened Vfs

  /** What one sees through an open file. */
  datatype View = View(flags: OpenFlags, offset: int, dir: bool, data: seq<int>)

  ghost function FileView(s: Server, f: int): View
    requires f in s.files && s.files[f].vn in s.nodes
    reads s
  {
    var file := s.files[f];
    View(file.flags, file.offset, s.nodes[file.vn].dir, s.nodes[file.vn].data)
  }

  ghost function BufferView(o: OpenFile): View
    requires o.Valid()
    reads o, o.node, o.node.data
  {
    View(o.flags, o.offset, o.node.dir, o.node.Contents())
  }

  /** File `f` of the server and the open file `o` over a buffer are the same file. */
  ghost predicate Same(s: Server, f: int, o: OpenFile)
    reads s, o, o.node, o.node.data
  {
    s.Valid() && o.Valid() && f in s.files && s.files[f].vn in s.nodes && FileView(s, f) == BufferView(o)
  }

  /** Two files are one, share a node, or have nothing in common, on both sides alike. */
  ghost predicate Alike(s: Server, f: int, o: OpenFile, g: int, p: OpenFile)
    reads s, o.node, p.node
  {
    && f in s.files && g in s.files && (f == g <==> o == p)
    && (s.files[f].vn == s.files[g].vn <==> o.node == p.node)
    && (o.node != p.node ==> o.node.data != p.node.data)
  }

  /** What a read through `v` does to the view `w` of a file. */
  function AfterRead(w: View, self: bool, r: Count): View {
    if self && r.Done? then w.(offset := w.offset + r.n) else w
  }

  function At(v: View): int {
    if v.flags.append then |v.data| else v.offset
  }

  predicate GapFits(v: View, gap: seq<int>) {
    0 <= At(v) && (At(v) > |v.data| ==> |gap| == At(v) - |v.data|)
  }

  lemma GapOf(o: OpenFile, n: int)
    requires o.Valid() && 0 <= n
    ensures GapFits(BufferView(o), o.Gap(n)) && At(BufferView(o)) == o.Target()
  {
  }

  /** The result of a write through `v` into a buffer of `cap` bytes. */
  function Outcome(v: View, n: int, cap: int, limit: int): Count
    requires cap >= 0
  {
    if !MayWrite(v.flags) then Fail(EBADF) else WriteResult(v.dir, n, At(v), cap, limit)
  }

  /** What a write through `v` does to the view `w` of a file, the same one, one on the same node, or
      another. */
  function AfterWrite(v: View, w: View, self: bool, shares: bool, buf: seq<int>, gap: seq<int>, r: Count): View
    requires GapFits(v, gap)
  {
    if r.Fail? || buf == [] then w
    else
      var w1 := if shares then w.(data := Splice(Padded(v.data, At(v), gap), At(v), buf)) else w;
      if self then w1.(offset := At(v) + |buf|) else w1
  }

  /** The read of the server's model and that of the buffer. */
  method ReadBoth(s: Server, f: int, o: OpenFile, n: int, ghost g: int, ghost p: OpenFile)
    returns (r: Count, buf: seq<int>, r': Count, buf': seq<int>)
    requires Same(s, f, o) && Same(s, g, p) && Alike(s, f, o, g, p) && 0 <= n
    modifies s`files, o`offset
    ensures Same(s, f, o) && Same(s, g, p) && Alike(s, f, o, g, p)
    ensures r == r' == if !MayRead(o.flags) then Fail(EBADF) else if o.node.dir then Fail(EISDIR) else Done(|buf|)
    ensures r.Done? ==> buf == buf' == Slice(BufferView(o).data, old(o.offset), n)
    ensures FileView(s, g) == AfterRead(old(FileView(s, g)), f == g, r)
  {
    r, buf := s.Read(f, n);
    r', buf' := o.Read(n);
  }

  method WriteServer(s: Server, f: int, buf: seq<int>, gap: seq<int>, cap: int, limit: int, ghost g: int)
    returns (r: Count)
    requires s.Valid() && f in s.files && g in s.files && s.files[f].vn in s.nodes && s.files[g].vn in s.nodes
    requires GapFits(FileView(s, f), gap) && cap >= 0
    modifies s`nodes, s`files
    ensures s.Valid() && r == Outcome(old(FileView(s, f)), |buf|, cap, limit)
    ensures f in s.files && g in s.files && s.files[f].vn == old(s.files)[f].vn && s.files[g].vn == old(s.files)[g].vn
    ensures s.files[f].vn in s.nodes && s.files[g].vn in s.nodes
    ensures FileView(s, g) == AfterWrite(old(FileView(s, f)), old(FileView(s, g)), f == g,
                                         s.files[f].vn == s.files[g].vn, buf, gap, r)
    ensures FileView(s, f) == AfterWrite(old(FileView(s, f)), old(FileView(s, f)), true, true, buf, gap, r)
  {
    assert At(FileView(s, f)) > |FileView(s, f).data| ==> gap[..|gap|] == gap;
    r := s.Write(f, buf, gap, NewCap(cap, WriteAt(s.nodes, s.files[f]) + |buf|, limit) != -1);
  }

  method WriteBuffer(o: OpenFile, buf: seq<int>, limit: int, junk: int -> int, ghost p: OpenFile) returns (r: Count)
    requires o.Valid() && p.Valid() && |buf| < WORD && (o.node != p.node ==> o.node.data != p.node.data)
    modifies o`offset, o.node, o.node.data
    ensures o.Valid() && p.Valid() && (o.node != p.node ==> o.node.data != p.node.data)
    ensures r == Outcome(old(BufferView(o)), |buf|, old(o.node.data.Length), limit)
    ensures GapFits(old(BufferView(o)), old(o.Gap(|buf|)))
    ensures BufferView(p) == AfterWrite(old(BufferView(o)), old(BufferView(p)), o == p, o.node == p.node, buf,
                                        old(o.Gap(|buf|)), r)
    ensures BufferView(o) == AfterWrite(old(BufferView(o)), old(BufferView(o)), true, true, buf,
                                        old(o.Gap(|buf|)), r)
  {
    GapOf(o, |buf|);
    r := o.Write(buf, limit, junk);
  }

  /** The write of the server's model and that of the buffer, whose gap is what the buffer shows there and
      whose memory is what the buffer can get: equal results, and every file stays in step. */
  method WriteBoth(s: Server, f: int, o: OpenFile, buf: seq<int>, limit: int, junk: int -> int,
                   ghost g: int, ghost p: OpenFile)
    returns (r: Count, r': Count)
    requires Same(s, f, o) && Same(s, g, p) && Alike(s, f, o, g, p) && |buf| < WORD
    modifies s`nodes, s`files, o`offset, o.node, o.node.data
    ensures r == r' && Same(s, f, o) && Same(s, g, p) && Alike(s, f, o, g, p)
    ensures GapFits(old(BufferView(o)), old(o.Gap(|buf|)))
    ensures FileView(s, g) == AfterWrite(old(FileView(s, f)), old(FileView(s, g)), f == g, o.node == p.node, buf,
                                         old(o.Gap(|buf|)), r)
    ensures r == Outcome(old(BufferView(o)), |buf|, old(o.node.data.Length), limit)
  {
    GapOf(o, |buf|);
    r := WriteServer(s, f, buf, o.Gap(|buf|), o.node.data.Length, limit, g);
    r' := WriteBuffer(o, buf, limit, junk, p);
  }
}
