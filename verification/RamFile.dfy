/** File contents (src/userspace/vfs/ramfs.c, vfs.c) and the chunked client write
    (src/userspace/libc/vfs_client.c): a growable buffer that should behave as a byte sequence. */
module RamFile {
  import opened Basics
  import opened VfsTree

  const CAP_LIMIT: int := 0x4000_0000_0000_0000
  const DATA_MAX: int := 512

  datatype Count = Done(n: int) | Fail(error: Errno)

  function Zeros(n: int): seq<int> {
    seq(if n < 0 then 0 else n, i => 0)
  }

  /** Writing `buf` over `s` at `off`, which must not lie past the end. */
  function Splice(s: seq<int>, off: int, buf: seq<int>): seq<int>
    requires 0 <= off <= |s|
  {
    s[..off] + buf + if off + |buf| < |s| then s[off + |buf|..] else []
  }

  /** A write past the end first fills the gap. */
  function Padded(s: seq<int>, off: int, fill: seq<int>): seq<int> {
    if off <= |s| then s else s + fill
  }

  /** What the gap of a write of `n` bytes holds: zeros when the buffer has to grow, otherwise the
      bytes `hidden` that it happens to hold there. */
  function Fill(size: int, cap: int, off: int, n: int, hidden: seq<int>): seq<int> {
    if off + n > cap then Zeros(off - size) else hidden
  }

  function Slice(s: seq<int>, off: int, n: int): seq<int>
    requires 0 <= off && 0 <= n
  {
    if off >= |s| then [] else if off + n < |s| then s[off..off + n] else s[off..]
  }

  function Resized(s: seq<int>, size: int): seq<int>
    requires 0 <= size
  {
    if size <= |s| then s[..size] else s + Zeros(size - |s|)
  }

  /** The doubling loop of ramfs_write; -1 when it gives up. */
  function Doubled(cap: int, need: int): (r: int)
    requires cap > 0
    ensures r == -1 || (r >= need && r >= cap)
    decreases if cap < need then need - cap else 0
  {
    if cap >= need then cap
    else if cap > CAP_LIMIT then -1
    else Doubled(cap * 2, need)
  }

  /** The loop takes the first doubling that is large enough, less than twice what is needed, and gives up
      only beyond 2^62. */
  lemma {:induction false} DoubledIs(cap: int, need: int)
    requires 0 < cap < need
    ensures Doubled(cap, need) != -1 ==> need <= Doubled(cap, need) < 2 * need
    ensures need <= 0x4000_0000_0000_0000 ==> Doubled(cap, need) != -1
    decreases need - cap
  {
    if cap <= CAP_LIMIT && cap * 2 < need { DoubledIs(cap * 2, need); }
  }

  function FirstCap(cap: int): int {
    if cap == 0 then 64 else cap
  }

  /** The capacity after a write that ends at `need`; -1 when the memory is not to be had. */
  function NewCap(cap: int, need: int, limit: int): int
    requires cap >= 0
  {
    if need <= cap then cap
    else var c := Doubled(FirstCap(cap), need); if c > limit then -1 else c
  }

  /** Doubling in two goes reaches the same capacity as in one. */
  lemma {:induction false} DoubledTwice(cap: int, n1: int, n2: int)
    requires cap > 0 && n1 <= n2
    ensures Doubled(cap, n1) == -1 ==> Doubled(cap, n2) == -1
    ensures Doubled(cap, n1) != -1 ==> Doubled(Doubled(cap, n1), n2) == Doubled(cap, n2)
    decreases if cap < n2 then n2 - cap else 0
  {
    if cap < n1 && cap <= CAP_LIMIT { DoubledTwice(cap * 2, n1, n2); }
  }

  /** A write split in two needs no more memory than the whole, and leaves the same capacity. */
  lemma NewCapTwice(cap: int, n1: int, n2: int, limit: int)
    requires cap >= 0 && 0 < n1 <= n2
    ensures NewCap(cap, n2, limit) != -1
            <==> NewCap(cap, n1, limit) != -1 && NewCap(NewCap(cap, n1, limit), n2, limit) != -1
    ensures NewCap(cap, n2, limit) != -1 ==> NewCap(NewCap(cap, n1, limit), n2, limit) == NewCap(cap, n2, limit)
  {
    DoubledTwice(FirstCap(cap), n1, n2);
  }

  lemma SpliceTwice(s: seq<int>, off: int, a: seq<int>, b: seq<int>)
    requires 0 <= off <= |s|
    ensures |Splice(s, off, a)| >= off + |a|
    ensures Splice(Splice(s, off, a), off + |a|, b) == Splice(s, off, a + b)
  {
  }

  class RamNode {
    const dir: bool
    var data: array<int>
    var size: int

    ghost predicate Valid()
      reads this, data
    {
      0 <= size <= data.Length && (dir ==> size == 0)
    }

    ghost function Contents(): seq<int>
      requires Valid()
      reads this, data
    {
      data[..size]
    }

    constructor (d: bool)
      ensures Valid() && dir == d && Contents() == [] && data.Length == 0 && fresh(data)
    {
      dir, size := d, 0;
      data := new int[0];
    }

    /** ramfs_read */
    method Read(n: int, off: int) returns (r: Count, buf: seq<int>)
      requires Valid() && 0 <= n && 0 <= off
      ensures r == if dir then Fail(EISDIR) else Done(|buf|)
      ensures !dir ==> buf == Slice(Contents(), off, n)
    {
      buf := [];
      if dir {
        return Fail(EISDIR), [];
      }
      if off >= size {
        return Done(0), [];
      }
      var m := if n > size - off then size - off else n;
      var i := 0;
      while i < m
        invariant 0 <= i <= m && buf == data[off..off + i]
      {
        buf := buf + [data[off + i]];
        i := i + 1;
      }
      r := Done(m);
    }

    /** The reallocation of ramfs_write: old bytes copied, the gap up to `off` zeroed.  `junk` is what
        the memory from malloc happens to hold; it stays behind the gap. */
    method Regrow(cap: int, off: int, junk: int -> int)
      requires Valid() && size <= cap && 0 <= off <= cap
      modifies this`data
      ensures Valid() && data.Length == cap && fresh(data)
      ensures data[..size] == old(data[..size])
      ensures forall k :: size <= k < off ==> data[k] == 0
      ensures forall k :: size <= k < cap && off <= k ==> data[k] == junk(k)
    {
      var nd, src := new int[cap](i => junk(i)), data;
      var i := 0;
      while i < size
        invariant 0 <= i <= size && data == src && nd[..i] == src[..i]
        invariant forall k :: i <= k < cap ==> nd[k] == junk(k)
      {
        nd[i] := src[i];
        i := i + 1;
      }
      while i < off && i < cap
        invariant size <= i <= cap && data == src && nd[..size] == src[..size]
        invariant forall k :: size <= k < i ==> nd[k] == 0
        invariant forall k :: i <= k < cap ==> nd[k] == junk(k)
        invariant i <= size || i <= off
        decreases off - i
      {
        nd[i] := 0;
        i := i + 1;
      }
      data := nd;
    }

    /** The copy loop of ramfs_write. */
    method Store(buf: seq<int>, off: int)
      requires Valid() && !dir && 0 <= off && off + |buf| <= data.Length
      modifies this`size, data
      ensures Valid() && size == (if off + |buf| > old(size) then off + |buf| else old(size))
      ensures forall k :: 0 <= k < data.Length ==>
                data[k] == if off <= k < off + |buf| then buf[k - off] else old(data[k])
    {
      var i := 0;
      while i < |buf|
        invariant 0 <= i <= |buf| && size == old(size)
        invariant forall k :: 0 <= k < data.Length ==>
                    data[k] == if off <= k < off + i then buf[k - off] else old(data[k])
      {
        data[off + i] := buf[i];
        i := i + 1;
      }
      if off + |buf| > size {
        size := off + |buf|;
      }
    }

    /** ramfs_write, when malloc can provide up to `limit` bytes.  A write past the end leaves a gap of
        zeros exactly when the buffer had to grow or held zeros there; otherwise what it held shows:
        bytes that a truncation cut off, or what malloc returned. */
    method Write(buf: seq<int>, off: int, limit: int, junk: int -> int) returns (r: Count)
      requires Valid() && |buf| < WORD && 0 <= off < WORD
      modifies this, data
      ensures Valid() && (data == old(data) || fresh(data))
      ensures r == WriteResult(dir, |buf|, off, old(data.Length), limit)
      ensures r.Done? ==> r.n == |buf|
      ensures r.Fail? ==> r.error == if dir then EISDIR else if off + |buf| >= WORD then EINVAL else ENOMEM
      ensures !dir && (|buf| == 0 || (off + |buf| <= old(data.Length) && off + |buf| < WORD)) ==> r.Done?
      ensures r.Fail? || |buf| == 0 ==> data == old(data) && data[..] == old(data[..]) && size == old(size)
      ensures r.Done? && |buf| > 0 ==> data.Length == NewCap(old(data.Length), off + |buf|, limit)
      ensures r.Done? && |buf| > 0 ==>
                var s, fill := old(Contents()), Fill(old(size), old(data.Length), off, |buf|, old(Hidden(off)));
                |Padded(s, off, fill)| >= off && Contents() == Splice(Padded(s, off, fill), off, buf)
      ensures r.Done? && |buf| > 0 && off > old(size) ==>
                (Contents() == Splice(old(Contents()) + Zeros(off - old(size)), off, buf)
                 <==> off + |buf| > old(data.Length) || old(Hidden(off)) == Zeros(off - old(size)))
      ensures r.Done? && |buf| > 0 && off + |buf| > old(data.Length) ==>
                forall k :: old(size) <= k < data.Length && off + |buf| <= k ==> data[k] == junk(k)
    {
      if dir {
        return Fail(EISDIR);
      }
      if |buf| == 0 {
        return Done(0);
      }
      var need := (off + |buf|) % WORD;
      if need < off {
        return Fail(EINVAL);
      }
      var ok := Reserve(need, off, limit, junk);
      if !ok {
        return Fail(ENOMEM);
      }
      ghost var before := data[..];
      Store(buf, off);
      StoredIs(before, data[..], old(size), size, off, buf);
      GapIsZeroIff(old(Contents()), off, Fill(old(size), old(data.Length), off, |buf|, old(Hidden(off))), buf);
      r := Done(|buf|);
    }

    /** The capacity step of ramfs_write. */
    method Reserve(need: int, off: int, limit: int, junk: int -> int) returns (ok: bool)
      requires Valid() && 0 <= off < need
      modifies this`data
      ensures Valid() && (data == old(data) || fresh(data))
      ensures ok == (NewCap(old(data.Length), need, limit) != -1)
      ensures !ok ==> data == old(data)
      ensures ok ==> data.Length == NewCap(old(data.Length), need, limit) && data[..size] == old(data[..size])
      ensures ok && size < off ==>
                data[size..off] == if need > old(data.Length) then Zeros(off - size) else old(data[size..off])
      ensures data == old(data) ==> data[..] == old(data[..])
      ensures ok && need > old(data.Length) ==> forall k :: size <= k < data.Length && off <= k ==> data[k] == junk(k)
    {
      ok := true;
      if need > data.Length {
        var newcap := FirstCap(data.Length);
        ghost var c0 := newcap;
        while newcap < need
          invariant newcap > 0 && Doubled(newcap, need) == Doubled(c0, need)
          decreases need - newcap
        {
          if newcap > CAP_LIMIT {
            return false;
          }
          newcap := newcap * 2;
        }
        if newcap > limit {
          return false;
        }
        Regrow(newcap, off, junk);
      }
    }

    /** ramfs_truncate: a prefix, or the contents followed by zeros. */
    method Truncate(sz: int, limit: int) returns (r: Count)
      requires Valid() && 0 <= sz < WORD
      modifies this, data
      ensures Valid() && (data == old(data) || fresh(data))
      ensures r == if dir then Fail(EISDIR) else if sz > old(data.Length) && sz > limit then Fail(ENOMEM) else Done(0)
      ensures r.Done? ==> Contents() == Resized(old(Contents()), sz) && size == sz
      ensures r.Done? ==> forall k :: 0 <= k < sz ==> data[k] == if k < old(size) then old(data[k]) else 0
      ensures r.Fail? || sz <= old(size) ==> data == old(data) && data[..] == old(data[..])
      ensures r.Fail? ==> size == old(size)
    {
      if dir {
        return Fail(EISDIR);
      }
      if sz == size {
        return Done(0);
      }
      if sz <= data.Length {
        ghost var n := size;
        if sz > size {
          var i := size;
          while i < sz
            invariant n <= i <= sz && size == n && data == old(data)
            invariant forall k :: 0 <= k < data.Length ==> data[k] == if n <= k < i then 0 else old(data[k])
          {
            data[i] := 0;
            i := i + 1;
          }
        }
        size := sz;
        return Done(0);
      }
      if sz > limit {
        return Fail(ENOMEM);
      }
      var nd, src := new int[sz](_ => 0), data;
      var i := 0;
      while i < size && i < sz
        invariant 0 <= i <= size && data == src && size == old(size) && src[..] == old(data[..])
        invariant forall k :: 0 <= k < sz ==> nd[k] == if k < i then src[k] else 0
      {
        nd[i] := src[i];
        i := i + 1;
      }
      assert nd[..sz] == src[..size] + Zeros(sz - size);
      data, size := nd, sz;
      r := Done(0);
    }

    /** The bytes between the end of the file and `off` that the buffer still holds. */
    function Hidden(off: int): seq<int>
      requires Valid()
      reads this, data
    {
      if size <= off <= data.Length then data[size..off] else []
    }
  }

  /** What a store into the buffer shows as file contents. */
  lemma StoredIs(before: seq<int>, after: seq<int>, size: int, size': int, off: int, buf: seq<int>)
    requires |before| == |after| && 0 <= size <= |before| && 0 <= off && off + |buf| <= |before|
    requires size' == if off + |buf| > size then off + |buf| else size
    requires forall k :: 0 <= k < |after| ==> after[k] == if off <= k < off + |buf| then buf[k - off] else before[k]
    ensures var fill := if size < off then before[size..off] else [];
            |Padded(before[..size], off, fill)| >= off
            && after[..size'] == Splice(Padded(before[..size], off, fill), off, buf)
  {
  }

  function WriteResult(dir: bool, n: int, off: int, cap: int, limit: int): Count
    requires cap >= 0
  {
    if dir then Fail(EISDIR)
    else if n == 0 then Done(0)
    else if off + n >= WORD then Fail(EINVAL)
    else if NewCap(cap, off + n, limit) == -1 then Fail(ENOMEM)
    else Done(n)
  }

  /** Two fillings of the gap show the same contents only if they are equal. */
  lemma GapIsZeroIff(s: seq<int>, off: int, fill: seq<int>, buf: seq<int>)
    requires 0 <= off && (off > |s| ==> |fill| == off - |s|)
    ensures (Splice(Padded(s, off, fill), off, buf) == Splice(Padded(s, off, Zeros(off - |s|)), off, buf))
            <==> (off <= |s| || fill == Zeros(off - |s|))
  {
    if off > |s| {
      var x, y := Splice(Padded(s, off, fill), off, buf), Splice(Padded(s, off, Zeros(off - |s|)), off, buf);
      assert x[|s|..off] == fill && y[|s|..off] == Zeros(off - |s|);
    }
  }

  /** Bytes that a truncation cut off come back in the gap of a later write past the end. */
  method StaleGap() returns (s: seq<int>)
    ensures s == [1, 2, 9]
  {
    var f := new RamNode(false);
    assert Doubled(64, 3) == 64 && Doubled(64, 1) == 64;
    var r := f.Write([1, 2, 3], 0, 64, _ => 0);
    assert f.Contents() == [1, 2, 3] && f.data.Length == 64;
    assert f.data[0] == f.Contents()[0] && f.data[1] == f.Contents()[1];
    r := f.Truncate(0, 64);
    assert f.Hidden(2) == [1, 2];
    r := f.Write([9], 2, 64, _ => 0);
    r, s := f.Read(3, 0);
  }

  /** Nor need anything be cut off: bytes that malloc returned and nobody wrote show as well. */
  method UnwrittenGap(junk: int -> int) returns (s: seq<int>)
    ensures s == [5, junk(1), 9]
  {
    var f := new RamNode(false);
    assert Doubled(64, 1) == 64;
    var r := f.Write([5], 0, 64, junk);
    assert f.Contents() == [5] && f.data.Length == 64 && f.data[1] == junk(1);
    assert f.Hidden(2) == [junk(1)];
    r := f.Write([9], 2, 64, junk);
    r, s := f.Read(3, 0);
  }

  /** What was written is what is read back. */
  lemma ReadBack(s: seq<int>, off: int, buf: seq<int>, k: int, n: int)
    requires 0 <= off <= |s| && 0 <= k && 0 <= n && k + n <= |buf|
    ensures Slice(Splice(s, off, buf), off + k, n) == buf[k..k + n]
  {
    var t := Splice(s, off, buf);
    assert t[off..off + |buf|] == buf;
    if off + k < |t| { assert t[off + k..off + k + n] == buf[k..k + n]; }
  }

  /** Reads before and behind the written bytes see the old contents. */
  lemma ReadElsewhere(s: seq<int>, off: int, buf: seq<int>, o: int, n: int)
    requires 0 <= off <= |s| && 0 <= o && 0 <= n && (o + n <= off || o >= off + |buf|)
    ensures Slice(Splice(s, off, buf), o, n) == Slice(s, o, n)
  {
    var t := Splice(s, off, buf);
    if o + n <= off {
      assert t[..off] == s[..off];
      if o < |s| && o < |t| { assert t[o..o + n] == s[o..o + n]; }
    } else if o < |s| {
      assert |t| == |s| && t[o..] == s[o..];
    }
  }

  /** An open file: vfs_read and vfs_write move its offset. */
  class OpenFile {
    const node: RamNode
    const flags: OpenFlags
    var offset: int

    ghost predicate Valid()
      reads this, node, node.data
    {
      node.Valid() && 0 <= offset < WORD && node.size < WORD
    }

    constructor (n: RamNode, fl: OpenFlags)
      requires n.Valid() && n.size < WORD
      ensures Valid() && node == n && flags == fl && offset == 0
    {
      node, flags, offset := n, fl, 0;
    }

    /** vfs_read */
    method Read(n: int) returns (r: Count, buf: seq<int>)
      requires Valid() && 0 <= n
      modifies this`offset
      ensures Valid()
      ensures r == if flags.acc == 2 then Fail(EBADF) else if node.dir then Fail(EISDIR) else Done(|buf|)
      ensures r.Done? ==> buf == Slice(node.Contents(), old(offset), n)
      ensures offset == old(offset) + if r.Done? then |buf| else 0
    {
      if !MayRead(flags) {
        return Fail(EBADF), [];
      }
      r, buf := node.Read(n, offset);
      if r.Done? && r.n > 0 {
        offset := offset + r.n;
      }
    }

    /** Where the next write goes. */
    function Target(): int
      reads this, node
    {
      if flags.append then node.size else offset
    }

    /** What the gap of a write of `n` bytes would hold. */
    function Gap(n: int): seq<int>
      requires Valid()
      reads this, node, node.data
    {
      Fill(node.size, node.data.Length, Target(), n, node.Hidden(Target()))
    }

    /** vfs_write */
    method Write(buf: seq<int>, limit: int, junk: int -> int) returns (r: Count)
      requires Valid() && |buf| < WORD
      modifies this`offset, node, node.data
      ensures Valid() && (node.data == old(node.data) || fresh(node.data))
      ensures r == if flags.acc == 1 then Fail(EBADF)
                   else WriteResult(node.dir, |buf|, old(Target()), old(node.data.Length), limit)
      ensures r.Fail? || |buf| == 0 ==> node.data == old(node.data) && node.data[..] == old(node.data[..])
                                        && node.size == old(node.size) && offset == old(offset)
      ensures r.Done? && |buf| > 0 ==>
                && offset == old(Target()) + |buf|
                && node.data.Length == NewCap(old(node.data.Length), old(Target()) + |buf|, limit)
                && old(Target()) <= |Padded(old(node.Contents()), old(Target()), old(Gap(|buf|)))|
                && node.Contents() == Splice(Padded(old(node.Contents()), old(Target()), old(Gap(|buf|))),
                                             old(Target()), buf)
    {
      if !MayWrite(flags) {
        return Fail(EBADF);
      }
      var off := Target();
      r := node.Write(buf, off, limit, junk);
      if r.Done? && r.n > 0 {
        offset := off + r.n;
      }
    }

    /** The first `total` bytes of a client write have reached the file. */
    ghost predicate Sent(buf: seq<int>, total: int, off: int, off0: int, s: seq<int>, gap: seq<int>, cap: int,
                         limit: int)
      reads this, node, node.data
    {
      && Valid() && 0 <= total <= |buf| && 0 <= off <= |Padded(s, off, gap)| && cap >= 0
      && node.Contents() == (if total == 0 then s else Splice(Padded(s, off, gap), off, buf[..total]))
      && offset == (if total == 0 then off0 else off + total)
      && Target() == off + total && (total > 0 ==> off + total <= node.size)
      && (total == 0 && buf != [] ==> gap == Gap(FirstChunk(buf)))
      && node.data.Length == CapAfter(cap, off, total, limit)
      && (total > 0 ==> MayWrite(flags) && WriteResult(node.dir, total, off, cap, limit).Done?)
    }

    /** One request of a client write. */
    method SendChunk(buf: seq<int>, total: int, chunk: int, limit: int, junk: int -> int, ghost off: int,
                     ghost off0: int, ghost s: seq<int>, ghost gap: seq<int>, ghost cap: int, ghost whole: bool)
      returns (r: Count, ghost t: int)
      requires whole ==> MayWrite(flags) && cap >= 0 && WriteResult(node.dir, |buf|, off, cap, limit).Done?
      requires Sent(buf, total, off, off0, s, gap, cap, limit) && 0 < chunk && total + chunk <= |buf| < WORD
      requires total == 0 ==> chunk == FirstChunk(buf)
      modifies this`offset, node, node.data
      ensures node.data == old(node.data) || fresh(node.data)
      ensures whole ==> r.Done?
      ensures t == (if r.Done? then total + chunk else total) && (r.Done? ==> r.n == chunk)
      ensures Sent(buf, t, off, off0, s, gap, cap, limit)
    {
      ghost var start := Padded(s, off, gap);
      if total > 0 {
        ChunkContents(start, off, buf, total, chunk);
      } else {
        assert buf[total..total + chunk] == buf[..total + chunk];
      }
      ChunkStep(node.dir, off, total, chunk, |buf|, cap, limit);
      r := Write(buf[total..total + chunk], limit, junk);
      t := if r.Done? then total + chunk else total;
      assert r.Done? ==> node.Contents() == Splice(start, off, buf[..t]);
    }

    /** vfs_client_write with no other writer in between: one request per 512 bytes.  It succeeds
        exactly when one large write would, and then splices the bytes in behind the gap that its first
        request leaves; otherwise it stops after `t` bytes. */
    method ClientWrite(buf: seq<int>, limit: int, junk: int -> int) returns (ok: bool, ghost t: int)
      requires Valid() && |buf| < WORD
      modifies this`offset, node, node.data
      ensures Valid() && 0 <= t <= |buf|
      ensures ok <==> |buf| == 0 || (MayWrite(flags)
                                     && WriteResult(node.dir, |buf|, old(Target()), old(node.data.Length), limit).Done?)
      ensures ok ==> t == |buf|
      ensures !ok ==> t % DATA_MAX == 0 && t < |buf|
      ensures t == 0 ==> node.Contents() == old(node.Contents()) && offset == old(offset)
      ensures t > 0 ==>
                var off, start := old(Target()), Padded(old(node.Contents()), old(Target()), old(Gap(FirstChunk(buf))));
                off <= |start| && node.Contents() == Splice(start, off, buf[..t]) && offset == off + t
      ensures ok && t > 0 ==> node.data.Length == NewCap(old(node.data.Length), old(Target()) + t, limit)
    {
      ghost var off, off0, cap, s, gap := Target(), offset, node.data.Length, node.Contents(), Gap(FirstChunk(buf));
      ghost var whole := MayWrite(flags) && WriteResult(node.dir, |buf|, off, cap, limit).Done?;
      if |buf| == 0 {
        return true, 0;
      }
      ok, t := SendAll(buf, limit, junk, off, off0, s, gap, cap, whole);
    }

    /** The loop of vfs_client_write. */
    method SendAll(buf: seq<int>, limit: int, junk: int -> int, ghost off: int, ghost off0: int,
                   ghost s: seq<int>, ghost gap: seq<int>, ghost cap: int, ghost whole: bool)
      returns (ok: bool, ghost t: int)
      requires whole ==> MayWrite(flags) && cap >= 0 && WriteResult(node.dir, |buf|, off, cap, limit).Done?
      requires Sent(buf, 0, off, off0, s, gap, cap, limit) && |buf| < WORD
      modifies this`offset, node, node.data
      ensures Sent(buf, t, off, off0, s, gap, cap, limit)
      ensures ok ==> t == |buf|
      ensures !ok ==> t % DATA_MAX == 0 && t < |buf| && !whole
    {
      var total := 0;
      t := 0;
      ghost var n := 0;
      ok := true;
      while ok && total < |buf|
        invariant ok ==> t == total && (total < |buf| ==> total == n * DATA_MAX)
        invariant !ok ==> t == n * DATA_MAX < |buf| && !whole
        invariant node.data == old(node.data) || fresh(node.data)
        invariant Sent(buf, t, off, off0, s, gap, cap, limit)
        decreases ok, |buf| - total
      {
        var chunk := if |buf| - total > DATA_MAX then DATA_MAX else |buf| - total;
        var r;
        r, t := SendChunk(buf, total, chunk, limit, junk, off, off0, s, gap, cap, whole);
        if r.Fail? || r.n <= 0 {
          ok := false;
        } else {
          total, n := total + r.n, n + 1;
        }
      }
    }
  }

  /** The length of the first request of a client write. */
  function FirstChunk(buf: seq<int>): int {
    if |buf| > DATA_MAX then DATA_MAX else |buf|
  }

  /** A client write leaves what one large write would leave, exactly unless it starts past the end, its
      first request fits the buffer, the whole does not, and the buffer holds something there. */
  lemma SplitIsWholeIff(s: seq<int>, off: int, cap: int, hidden: seq<int>, buf: seq<int>)
    requires 0 <= off && |s| <= cap && buf != [] && (|s| < off <= cap ==> |hidden| == off - |s|)
    ensures var first := Padded(s, off, Fill(|s|, cap, off, FirstChunk(buf), hidden));
            var whole := Padded(s, off, Fill(|s|, cap, off, |buf|, hidden));
            && off <= |first| && off <= |whole|
            && (Splice(first, off, buf) == Splice(whole, off, buf)
                <==> off <= |s| || off + FirstChunk(buf) > cap || off + |buf| <= cap || hidden == Zeros(off - |s|))
  {
    if off > |s| {
      var f := Fill(|s|, cap, off, FirstChunk(buf), hidden);
      GapIsZeroIff(s, off, f, buf);
    }
  }

  /** A file of 1024 ones, cut to nothing, with its offset moved to 500. */
  method CutFile() returns (o: OpenFile)
    ensures fresh(o) && fresh(o.node) && fresh(o.node.data)
    ensures o.Valid() && MayWrite(o.flags) && !o.flags.append && !o.node.dir && o.offset == 500
    ensures o.node.size == 0 && o.node.data.Length == 1024 && o.node.Hidden(500) == seq(500, _ => 1)
  {
    var node := new RamNode(false);
    o := new OpenFile(node, OpenFlags(0, false, false, false, false));
    var ones := seq(1024, _ => 1);
    DoubledTo1024();
    var r := o.Write(ones, 4096, _ => 0);
    assert node.Contents() == ones;
    assert forall k :: 0 <= k < 1024 ==> node.data[k] == node.Contents()[k];
    r := node.Truncate(0, 4096);
    o.offset := 500;
  }

  lemma DoubledTo1024()
    ensures Doubled(64, 1024) == 1024
  {
    assert Doubled(256, 1024) == Doubled(512, 1024) == 1024;
  }

  /** 600 bytes from offset 500 on, once in requests of 512 bytes and once in one piece: the requests
      bring back a byte that was cut off, the one piece does not. */
  method SplitDiffers() returns (split: seq<int>, whole: seq<int>)
    ensures |split| == |whole| == 1100 && split[500..] == whole[500..] && split[0] == 1 && whole[0] == 0
  {
    var buf := seq(600, _ => 7);
    assert Doubled(1024, 1100) == 2048;
    var a := CutFile();
    var ok, t := a.ClientWrite(buf, 4096, _ => 0);
    assert buf[..t] == buf;
    var b := CutFile();
    var r := b.Write(buf, 4096, _ => 0);
    r, split := a.node.Read(1100, 0);
    r, whole := b.node.Read(1100, 0);
  }

  function CapAfter(cap: int, off: int, total: int, limit: int): int
    requires cap >= 0
  {
    if total == 0 then cap else NewCap(cap, off + total, limit)
  }

  /** A request behind `total` bytes continues the splice. */
  lemma ChunkContents(p: seq<int>, off: int, buf: seq<int>, total: int, chunk: int)
    requires 0 <= off <= |p| && 0 < total && 0 < chunk && total + chunk <= |buf|
    ensures var before := Splice(p, off, buf[..total]);
            && off + total <= |before|
            && Splice(before, off + total, buf[total..total + chunk]) == Splice(p, off, buf[..total + chunk])
  {
    SpliceTwice(p, off, buf[..total], buf[total..total + chunk]);
    assert buf[..total + chunk] == buf[..total] + buf[total..total + chunk];
  }

  /** A request after `total` bytes succeeds exactly when a write of all the bytes so far would have;
      a write of all `n` bytes would need no less. */
  lemma ChunkStep(dir: bool, off: int, total: int, chunk: int, n: int, cap: int, limit: int)
    requires 0 <= off && 0 <= total && 0 < chunk && total + chunk <= n && cap >= 0
    requires total > 0 ==> WriteResult(dir, total, off, cap, limit).Done?
    ensures CapAfter(cap, off, total, limit) >= 0
    ensures WriteResult(dir, chunk, off + total, CapAfter(cap, off, total, limit), limit).Done?
            <==> WriteResult(dir, total + chunk, off, cap, limit).Done?
    ensures WriteResult(dir, total + chunk, off, cap, limit).Done? ==>
              NewCap(CapAfter(cap, off, total, limit), off + total + chunk, limit)
                  == NewCap(cap, off + total + chunk, limit)
    ensures WriteResult(dir, n, off, cap, limit).Done? ==> WriteResult(dir, total + chunk, off, cap, limit).Done?
  {
    if total > 0 { NewCapTwice(cap, off + total, off + total + chunk, limit); }
    NewCapTwice(cap, off + total + chunk, off + n, limit);
  }
}
