/** The boundary-tag allocator of the C library (src/userspace/libc/stdlib.c).  Headers live in
    the same memory as the payloads: writing one destroys the sixteen bytes under it. */
module Arena {
  import opened Tiling

  const HDR: int := 16
  const ARENA_SIZE: int := 0x40_0000
  const SIZE_MAX: int := 0xFFFF_FFFF_FFFF_FFFF

  datatype Header = Header(size: int, prevSize: int, free: bool)

  /** align_up on a 64-bit size_t: the addition wraps. */
  function AlignUp(n: int): int {
    (n + 15) % (SIZE_MAX + 1) / 16 * 16
  }

  /** The payload malloc and realloc look for. */
  function Need(size: int): int {
    if AlignUp(size) < MIN_PAYLOAD then MIN_PAYLOAD else AlignUp(size)
  }

  /** A request is covered exactly when rounding it does not wrap; a larger one gets sixteen bytes. */
  lemma NeedCovers(size: int)
    requires 0 < size <= SIZE_MAX
    ensures MIN_PAYLOAD <= Need(size) && Need(size) % 16 == 0
    ensures Need(size) >= size <==> size <= SIZE_MAX - 15
    ensures size <= SIZE_MAX - 15 ==> Need(size) < size + 16
    ensures size > SIZE_MAX - 15 ==> Need(size) == MIN_PAYLOAD
  {
    if size > SIZE_MAX - 15 {
      assert (size + 15) % (SIZE_MAX + 1) == size + 15 - (SIZE_MAX + 1);
    }
  }

  /** Every block's header is in memory, and `prevSize` is the payload of the block before. */
  ghost predicate HeaderOk(hdr: map<int, Header>, bs: seq<Block>, i: int)
    requires 0 <= i < |bs|
  {
    bs[i].addr in hdr && hdr[bs[i].addr] == Header(bs[i].size, if i == 0 then 0 else bs[i - 1].size, bs[i].free)
  }

  ghost predicate HeadersOk(hdr: map<int, Header>, bs: seq<Block>) {
    forall i :: 0 <= i < |bs| ==> HeaderOk(hdr, bs, i)
  }

  lemma ClobberSame(d: map<int, int>, a: int, lo: int, hi: int)
    requires hi <= a || a + HDR <= lo
    ensures Same(d, Clobber(HDR, d, a), lo, hi)
  {
  }

  // ---- what the operations do to the list of blocks ---------------------------------

  /** The header stores of a split: the tail's, the front's, and the follower's back link. */
  function SplitHeaders(hdr: map<int, Header>, bs: seq<Block>, i: int, need: int): map<int, Header>
    requires 0 <= i < |bs| && HeadersOk(hdr, bs)
  {
    var b, rest := bs[i], bs[i].size - need - HDR;
    assert HeaderOk(hdr, bs, i);
    var h1 := hdr[b.addr + HDR + need := Header(rest, need, true)][b.addr := Header(need, hdr[b.addr].prevSize, false)];
    if i + 1 < |bs| then
      assert HeaderOk(hdr, bs, i + 1);
      h1[bs[i + 1].addr := hdr[bs[i + 1].addr].(prevSize := rest)]
    else h1
  }

  lemma SplitHeadersOk(hdr: map<int, Header>, bs: seq<Block>, lo: int, hi: int, i: int, need: int)
    requires Tiled(HDR, bs, lo, hi) && HeadersOk(hdr, bs) && 0 <= i < |bs|
    requires MIN_PAYLOAD <= need && need % 16 == 0 && Splits(HDR, bs[i].size, need)
    ensures HeadersOk(SplitHeaders(hdr, bs, i, need), Split(HDR, bs, i, need))
  {
    var bs', hdr' := Split(HDR, bs, i, need), SplitHeaders(hdr, bs, i, need);
    forall k | 0 <= k < |bs'|
      ensures HeaderOk(hdr', bs', k)
    {
      if i + 1 < |bs| { assert Touch(HDR, bs, i); }
      if k < i {
        assert HeaderOk(hdr, bs, k);
        Ordered(HDR, bs, lo, hi, k, i);
        if i + 1 < |bs| { Ordered(HDR, bs, lo, hi, k, i + 1); }
      } else if k == i {
        assert HeaderOk(hdr, bs, i);
      } else if k > i + 1 {
        assert bs'[k] == bs[k - 1] && HeaderOk(hdr, bs, k - 1);
        Ordered(HDR, bs, lo, hi, i, k - 1);
        if k > i + 2 { Ordered(HDR, bs, lo, hi, i + 1, k - 1); }
      }
    }
  }

  /** The header stores of a merge: the front's, and the follower's back link. */
  function MergeHeaders(hdr: map<int, Header>, bs: seq<Block>, i: int, free: bool): map<int, Header>
    requires 0 <= i < |bs| - 1 && HeadersOk(hdr, bs)
  {
    assert HeaderOk(hdr, bs, i);
    var sum := bs[i].size + HDR + bs[i + 1].size;
    var h1 := hdr[bs[i].addr := Header(sum, hdr[bs[i].addr].prevSize, free)];
    if i + 2 < |bs| then
      assert HeaderOk(hdr, bs, i + 2);
      h1[bs[i + 2].addr := hdr[bs[i + 2].addr].(prevSize := sum)]
    else h1
  }

  lemma MergeHeadersOk(hdr: map<int, Header>, bs: seq<Block>, lo: int, hi: int, i: int, free: bool)
    requires Tiled(HDR, bs, lo, hi) && HeadersOk(hdr, bs) && 0 <= i < |bs| - 1
    ensures HeadersOk(MergeHeaders(hdr, bs, i, free), Merge(HDR, bs, i, free))
  {
    var bs', hdr' := Merge(HDR, bs, i, free), MergeHeaders(hdr, bs, i, free);
    forall k | 0 <= k < |bs'|
      ensures HeaderOk(hdr', bs', k)
    {
      if k < i {
        assert HeaderOk(hdr, bs, k);
        PayloadsDisjoint(HDR, bs, lo, hi, k, i);
        if i + 2 < |bs| { PayloadsDisjoint(HDR, bs, lo, hi, k, i + 2); }
      } else if k == i {
        assert HeaderOk(hdr, bs, i);
        if i + 2 < |bs| { PayloadsDisjoint(HDR, bs, lo, hi, i, i + 2); }
      } else {
        assert bs'[k] == bs[k + 1] && HeaderOk(hdr, bs, k + 1);
        PayloadsDisjoint(HDR, bs, lo, hi, i, k + 1);
        if k > i + 1 { PayloadsDisjoint(HDR, bs, lo, hi, i + 2, k + 1); }
      }
    }
  }

  // ---- live blocks, coalescing and conservation -------------------------------------

  /** Shrinking in place keeps free blocks apart exactly when it cuts nothing off or the next block
      is in use: realloc does not merge the tail it creates. */
  lemma ShrinkCoalescedIff(bs: seq<Block>, i: int, need: int)
    requires 0 <= i < |bs| && Coalesced(bs) && !bs[i].free
    ensures Coalesced(Split(HDR, bs, i, need)) <==>
              !Splits(HDR, bs[i].size, need) || i + 1 == |bs| || !bs[i + 1].free
  {
    var r := Split(HDR, bs, i, need);
    if !Splits(HDR, bs[i].size, need) {
      assert r == bs;
    } else {
      assert forall k :: 0 <= k < |r| && k != i && k != i + 1 ==> r[k] == if k < i then bs[k] else bs[k - 1];
      if i + 1 < |bs| && bs[i + 1].free {
        assert r[i + 1].free && r[i + 2].free;
      } else {
        forall k | 0 <= k < |r| - 1
          ensures !(r[k].free && r[k + 1].free)
        {
          if k < i { assert !(bs[k].free && bs[k + 1].free); }
          if k > i + 1 { assert !(bs[k - 1].free && bs[k].free); }
        }
      }
    }
  }

  /** Resizing a live block exchanges it for the resized one and nothing else. */
  lemma TrimLive(bs: seq<Block>, lo: int, hi: int, i: int, need: int)
    requires Tiled(HDR, bs, lo, hi) && 0 <= i < |bs| && !bs[i].free
    ensures Live(Split(HDR, bs, i, need)) == Live(bs) - {bs[i]} + {Split(HDR, bs, i, need)[i]}
  {
    var r := Split(HDR, bs, i, need);
    forall k | 0 <= k < |bs| && k != i
      ensures bs[k] in r && bs[k] != bs[i]
    {
      assert bs[k] == if k < i || |r| == |bs| then r[k] else r[k + 1];
      PayloadsDisjoint(HDR, bs, lo, hi, k, i);
    }
    forall k | 0 <= k < |r| && k != i && !r[k].free
      ensures r[k] in bs && r[k] != bs[i]
    {
      var m := if k < i || |r| == |bs| then k else k - 1;
      assert r[k] == bs[m];
    }
    assert !r[i].free;
  }

  lemma AbsorbLive(bs: seq<Block>, lo: int, hi: int, i: int)
    requires Tiled(HDR, bs, lo, hi) && 0 <= i < |bs| - 1 && !bs[i].free && bs[i + 1].free
    ensures Live(Merge(HDR, bs, i, false)) == Live(bs) - {bs[i]} + {Merge(HDR, bs, i, false)[i]}
    ensures Merge(HDR, bs, i, false)[i] !in Live(bs)
  {
    var r := Merge(HDR, bs, i, false);
    forall k | 0 <= k < |bs| && k != i && k != i + 1
      ensures bs[k] in r && bs[k] != bs[i] && bs[k] != r[i]
    {
      assert bs[k] == if k < i then r[k] else r[k - 1];
      PayloadsDisjoint(HDR, bs, lo, hi, k, i);
    }
    assert Sized(bs[i + 1]);
    forall k | 0 <= k < |r| && k != i
      ensures r[k] in bs && r[k] != bs[i]
    {
      var m := if k < i then k else k + 1;
      assert r[k] == bs[m];
    }
    assert !r[i].free;
  }

  predicate CanGrow(bs: seq<Block>, i: int, need: int)
    requires 0 <= i < |bs|
  {
    i + 1 < |bs| && bs[i + 1].free && bs[i].size + HDR + bs[i + 1].size >= need
  }

  function Grown(bs: seq<Block>, i: int, need: int): seq<Block>
    requires 0 <= i < |bs| - 1
  {
    Split(HDR, Merge(HDR, bs, i, false), i, need)
  }

  lemma GrownLive(bs: seq<Block>, lo: int, hi: int, i: int, need: int)
    requires Tiled(HDR, bs, lo, hi) && 0 <= i < |bs| - 1 && !bs[i].free && bs[i + 1].free
    ensures Live(Grown(bs, i, need)) == Live(bs) - {bs[i]} + {Grown(bs, i, need)[i]}
  {
    AbsorbLive(bs, lo, hi, i);
    MergeTiled(HDR, bs, lo, hi, i, false);
    TrimLive(Merge(HDR, bs, i, false), lo, hi, i, need);
  }

  /** Growing in place may cut a new free tail, but the block after it is in use. */
  lemma GrownCoalesced(bs: seq<Block>, i: int, need: int)
    requires 0 <= i < |bs| - 1 && !bs[i].free && bs[i + 1].free && Coalesced(bs)
    ensures Coalesced(Grown(bs, i, need))
  {
    var r := Merge(HDR, bs, i, false);
    assert forall k :: 0 <= k < |r| && k != i ==> r[k] == if k < i then bs[k] else bs[k + 1];
    assert i + 2 < |bs| ==> !(bs[i + 1].free && bs[i + 2].free);
    forall k | 0 <= k < |r| - 1
      ensures !(r[k].free && r[k + 1].free)
    {
      assert k < i ==> !(bs[k].free && bs[k + 1].free);
      assert k > i ==> !(bs[k + 1].free && bs[k + 2].free);
    }
    ShrinkCoalescedIff(r, i, need);
  }

  // ---- contents -----------------------------------------------------------------------

  /** How many bytes realloc promises to keep; the last bound only matters when rounding wraps. */
  function Surviving(cur: int, size: int): int {
    Min(Min(cur, size), Need(size))
  }

  predicate ReallocFails(bs: seq<Block>, i: int, need: int)
    requires 0 <= i < |bs|
  {
    bs[i].size < need && !CanGrow(bs, i, need) && forall b :: b in bs ==> !Fits(b, need)
  }

  /** The smaller of the two sizes survives, where rounding the request does not wrap. */
  lemma SurvivingExactly(cur: int, size: int)
    requires 0 <= cur && 0 < size <= SIZE_MAX
    ensures size <= SIZE_MAX - 15 ==> Surviving(cur, size) == if cur < size then cur else size
    ensures size > SIZE_MAX - 15 ==> Surviving(cur, size) == if cur < 16 then cur else 16
  {
    NeedCovers(size);
  }

  /** realloc gives up exactly when the block is too small, the next one is in use or too small to add, and
      no free block is large enough. */
  lemma FailsExactly(bs: seq<Block>, i: int, need: int)
    requires 0 <= i < |bs|
    ensures ReallocFails(bs, i, need)
            <==> bs[i].size < need
                 && (i + 1 == |bs| || !bs[i + 1].free || bs[i].size + 16 + bs[i + 1].size < need)
                 && forall j :: 0 <= j < |bs| && bs[j].free ==> bs[j].size < need
  {
    if ReallocFails(bs, i, need) {
      assert forall j :: 0 <= j < |bs| ==> bs[j] in bs;
    }
  }

  /** A shrinking realloc cuts a free tail in front of a free block. */
  predicate LeavesTail(bs: seq<Block>, i: int, need: int)
    requires 0 <= i < |bs|
  {
    Splits(HDR, bs[i].size, need) && i + 1 < |bs| && bs[i + 1].free
  }

  class Arena {
    var first: int
    var last: int
    var hi: int
    var hdr: map<int, Header>
    var data: map<int, int>
    ghost var blocks: seq<Block>

    ghost predicate Valid()
      reads this
    {
      && Tiled(HDR, blocks, first, hi)
      && last == blocks[|blocks| - 1].addr
      && HeadersOk(hdr, blocks)
    }

    /** arena_append of the one mapped region: a single free block. */
    constructor (p: int)
      requires p > 0 && p % 16 == 0
      ensures Valid() && blocks == [Block(p, ARENA_SIZE - HDR, true)]
    {
      first, last, hi := p, p, p + ARENA_SIZE;
      hdr := map[p := Header(ARENA_SIZE - HDR, 0, true)];
      data := map[];
      blocks := [Block(p, ARENA_SIZE - HDR, true)];
    }

    method WriteHeader(a: int, h: Header)
      modifies this`hdr, this`data
      ensures hdr == old(hdr)[a := h] && data == Clobber(HDR, old(data), a)
    {
      hdr := hdr[a := h];
      data := Clobber(HDR, data, a);
    }

    /** blk_next */
    method Next(b: int, ghost i: int) returns (n: int)
      requires Valid() && 0 <= i < |blocks| && blocks[i].addr == b
      ensures if i < |blocks| - 1 then n == blocks[i + 1].addr else n == 0
    {
      assert HeaderOk(hdr, blocks, i);
      InRange(HDR, blocks, first, hi, i);
      if i < |blocks| - 1 { assert Touch(HDR, blocks, i); InRange(HDR, blocks, first, hi, i + 1); }
      var p := b + HDR + hdr[b].size;
      return if p >= hi then 0 else p;
    }

    /** blk_prev inverts blk_next. */
    method Prev(b: int, ghost i: int) returns (p: int)
      requires Valid() && 0 <= i < |blocks| && blocks[i].addr == b
      ensures if i > 0 then p == blocks[i - 1].addr else p == 0
    {
      assert HeaderOk(hdr, blocks, i);
      if i > 0 { assert Touch(HDR, blocks, i - 1); InRange(HDR, blocks, first, hi, i - 1); }
      if hdr[b].prevSize == 0 {
        return 0;
      }
      p := b - HDR - hdr[b].prevSize;
      return if p < first then 0 else p;
    }

    /** split_block */
    method SplitBlock(b: int, need: int, ghost i: int)
      requires Valid() && 0 <= i < |blocks| && blocks[i].addr == b
      requires MIN_PAYLOAD <= need <= blocks[i].size && need % 16 == 0
      modifies this`hdr, this`data, this`last, this`blocks
      ensures Valid() && blocks == Split(HDR, old(blocks), i, need)
      ensures Same(old(data), data, b + HDR, b + HDR + need) && OthersSame(old(data), data, old(blocks), i)
    {
      assert HeaderOk(hdr, blocks, i);
      var cur := hdr[b].size;
      if cur < need + HDR + MIN_PAYLOAD {
        SplitTiled(HDR, blocks, first, hi, i, need);
        ToggleFree(b, false, i);
        return;
      }
      CutBlock(b, need, i);
    }

    /** The cutting half of split_block. */
    method CutBlock(b: int, need: int, ghost i: int)
      requires Valid() && 0 <= i < |blocks| && blocks[i].addr == b
      requires MIN_PAYLOAD <= need && need % 16 == 0 && Splits(HDR, blocks[i].size, need)
      modifies this`hdr, this`data, this`last, this`blocks
      ensures Valid() && blocks == Split(HDR, old(blocks), i, need)
      ensures Same(old(data), data, b + HDR, b + HDR + need) && OthersSame(old(data), data, old(blocks), i)
    {
      SplitTiled(HDR, blocks, first, hi, i, need);
      SplitHeadersOk(hdr, blocks, first, hi, i, need);
      CutSame(data, blocks, first, hi, i, need);
      assert HeaderOk(hdr, blocks, i);
      var cur := hdr[b].size;
      var nb := b + HDR + need;
      var after := Next(b, i);
      if after != 0 { assert HeaderOk(hdr, blocks, i + 1); assert Touch(HDR, blocks, i); }
      WriteHeader(nb, Header(cur - need - HDR, need, true));
      WriteHeader(b, Header(need, hdr[b].prevSize, false));
      if after != 0 {
        WriteHeader(after, hdr[after].(prevSize := cur - need - HDR));
      } else {
        last := nb;
      }
      blocks := Split(HDR, blocks, i, need);
    }

    /** blk_set_free */
    method ToggleFree(b: int, free: bool, ghost i: int)
      requires Valid() && 0 <= i < |blocks| && blocks[i].addr == b
      modifies this`hdr, this`data, this`blocks
      ensures Valid() && blocks == old(blocks)[i := old(blocks)[i].(free := free)]
      ensures AllSame(old(data), data, old(blocks))
    {
      assert HeaderOk(hdr, blocks, i);
      ToggleOk(hdr, blocks, first, hi, i, free);
      HeaderStoreSame(data, blocks, first, hi, i);
      WriteHeader(b, hdr[b].(free := free));
      blocks := blocks[i := blocks[i].(free := free)];
    }

    /** Blocks `i` and `i + 1` become one: the merge step of free and of a growing realloc. */
    method Absorb(b: int, free: bool, ghost i: int)
      requires Valid() && 0 <= i < |blocks| - 1 && blocks[i].addr == b
      modifies this`hdr, this`data, this`last, this`blocks
      ensures Valid() && blocks == Merge(HDR, old(blocks), i, free)
      ensures AllSame(old(data), data, old(blocks))
    {
      MergeTiled(HDR, blocks, first, hi, i, free);
      MergeHeadersOk(hdr, blocks, first, hi, i, free);
      AbsorbSame(data, blocks, first, hi, i);
      assert HeaderOk(hdr, blocks, i) && HeaderOk(hdr, blocks, i + 1);
      var nxt := Next(b, i);
      var sum := hdr[b].size + HDR + hdr[nxt].size;
      var after := Next(nxt, i + 1);
      if after != 0 {
        assert HeaderOk(hdr, blocks, i + 2);
        PayloadsDisjoint(HDR, blocks, first, hi, i, i + 2);
      }
      WriteHeader(b, Header(sum, hdr[b].prevSize, free));
      if after != 0 {
        WriteHeader(after, hdr[after].(prevSize := sum));
      } else {
        last := b;
      }
      blocks := Merge(HDR, blocks, i, free);
    }

    /** malloc's walk over the blocks. */
    method FirstFit(need: int) returns (b: int, ghost i: int)
      requires Valid()
      ensures b == 0 ==> forall x :: x in blocks ==> !Fits(x, need)
      ensures b != 0 ==> 0 <= i < |blocks| && blocks[i].addr == b && Fits(blocks[i], need)
      ensures forall j :: 0 <= j < i <= |blocks| ==> !Fits(blocks[j], need)
    {
      b, i := first, 0;
      assert Sized(blocks[0]);
      while b != 0
        invariant b != 0 ==> 0 <= i < |blocks| && blocks[i].addr == b
        invariant b == 0 ==> i == |blocks|
        invariant forall j :: 0 <= j < i ==> !Fits(blocks[j], need)
        decreases |blocks| - i
      {
        assert HeaderOk(hdr, blocks, i);
        if hdr[b].free && hdr[b].size >= need {
          return;
        }
        b := Next(b, i);
        i := i + 1;
        assert i < |blocks| ==> Sized(blocks[i]);
      }
    }

    /** malloc: first fit, and null exactly when nothing fits. */
    method Malloc(size: int) returns (r: int, ghost i: int)
      requires Valid() && 0 <= size <= SIZE_MAX
      modifies this`hdr, this`data, this`last, this`blocks
      ensures Valid() && r % 16 == 0
      ensures r == 0 <==> size == 0 || forall b :: b in old(blocks) ==> !Fits(b, Need(size))
      ensures r == 0 ==> blocks == old(blocks) && data == old(data)
      ensures r != 0 ==> Allocates(HDR, old(blocks), blocks, i, Need(size), r)
      ensures r != 0 ==> !blocks[i].free && blocks[i] !in old(blocks) && blocks[i].size >= Need(size)
      ensures r != 0 ==> Live(blocks) == Live(old(blocks)) + {blocks[i]}
      ensures Kept(HDR, old(data), data, Live(old(blocks)))
      ensures Coalesced(old(blocks)) ==> Coalesced(blocks)
    {
      if size == 0 {
        return 0, 0;
      }
      NeedCovers(size);
      var need := Need(size);
      var b;
      b, i := FirstFit(need);
      if b == 0 {
        return 0, i;
      }
      NotSeenBefore(HDR, blocks, first, hi, i, need);
      SplitLive(HDR, blocks, i, need);
      assert Sized(blocks[i]);
      SplitBlock(b, need, i);
      r := b + HDR;
    }

    /** A pointer that free and realloc refuse to look at. */
    predicate Foreign(p: int)
      reads this
    {
      p == 0 || p % 16 != 0 || p < first + HDR || p >= hi
    }

    lemma OwnIsNotForeign(p: int, i: int)
      requires Valid() && 0 <= i < |blocks| && blocks[i].addr + HDR == p
      ensures !Foreign(p)
    {
      InRange(HDR, blocks, first, hi, i);
      assert Sized(blocks[i]);
    }

    /** The caller passes null, a pointer outside the arena, or one malloc handed out. */
    ghost predicate Names(p: int, i: int)
      reads this
    {
      Foreign(p) || (0 <= i < |blocks| && blocks[i].addr + HDR == p)
    }

    method MergeForward(b: int, ghost i: int)
      requires Valid() && 0 <= i < |blocks| && blocks[i].addr == b && blocks[i].free
      modifies this`hdr, this`data, this`last, this`blocks
      ensures Valid()
      ensures blocks == if i + 1 < |old(blocks)| && old(blocks)[i + 1].free then Merge(HDR, old(blocks), i, true)
                        else old(blocks)
      ensures Kept(HDR, old(data), data, Live(old(blocks))) && Live(blocks) == Live(old(blocks))
    {
      var nxt := Next(b, i);
      if nxt != 0 {
        assert HeaderOk(hdr, blocks, i + 1);
        if hdr[nxt].free {
          MergeLive(HDR, blocks, i);
          Absorb(b, true, i);
        }
      }
    }

    method MergeBackward(b: int, ghost i: int)
      requires Valid() && 0 <= i < |blocks| && blocks[i].addr == b && blocks[i].free
      modifies this`hdr, this`data, this`last, this`blocks
      ensures Valid()
      ensures blocks == if i > 0 && old(blocks)[i - 1].free then Merge(HDR, old(blocks), i - 1, true) else old(blocks)
      ensures Kept(HDR, old(data), data, Live(old(blocks))) && Live(blocks) == Live(old(blocks))
    {
      var prv := Prev(b, i);
      assert i > 0 ==> Sized(blocks[i - 1]);
      if prv != 0 {
        assert HeaderOk(hdr, blocks, i - 1);
        if hdr[prv].free {
          MergeLive(HDR, blocks, i - 1);
          Absorb(prv, true, i - 1);
        }
      }
    }

    method Coalesce(b: int, ghost i: int)
      requires Valid() && 0 <= i < |blocks| && blocks[i].addr == b && blocks[i].free
      modifies this`hdr, this`data, this`last, this`blocks
      ensures Valid() && blocks == Joined(HDR, old(blocks), i) && Live(blocks) == Live(old(blocks))
      ensures Kept(HDR, old(data), data, Live(old(blocks)))
    {
      ghost var d0, live := data, Live(blocks);
      MergeForward(b, i);
      ghost var d1 := data;
      MergeBackward(b, i);
      KeptTrans(HDR, d0, d1, data, live, live);
    }

    /** free: foreign pointers and double frees change nothing. */
    method Free(p: int, ghost i: int)
      requires Valid() && Names(p, i)
      modifies this`hdr, this`data, this`last, this`blocks
      ensures Valid()
      ensures old(Foreign(p)) || old(blocks)[i].free ==> blocks == old(blocks) && data == old(data)
      ensures !old(Foreign(p)) && !old(blocks)[i].free ==>
                blocks == Freed(HDR, old(blocks), i) && Live(blocks) == Live(old(blocks)) - {old(blocks)[i]}
      ensures Kept(HDR, old(data), data, Live(blocks))
      ensures Coalesced(old(blocks)) ==> Coalesced(blocks)
    {
      if Foreign(p) {
        return;
      }
      var b := p - HDR;
      assert HeaderOk(hdr, blocks, i);
      if hdr[b].free {
        return;
      }
      MarkLive(HDR, blocks, first, hi, i);
      if Coalesced(blocks) { FreedCoalesced(HDR, blocks, i); }
      ghost var d0 := data;
      ToggleFree(b, true, i);
      ghost var d1, live := data, Live(blocks);
      assert Kept(HDR, d0, d1, live);
      Coalesce(b, i);
      KeptTrans(HDR, d0, d1, data, live, live);
    }

    /** free of a live block. */
    method Release(p: int, ghost i: int)
      requires Valid() && 0 <= i < |blocks| && blocks[i].addr + HDR == p && !blocks[i].free
      modifies this`hdr, this`data, this`last, this`blocks
      ensures Valid() && Live(blocks) == Live(old(blocks)) - {old(blocks)[i]}
      ensures Kept(HDR, old(data), data, Live(blocks))
      ensures Coalesced(old(blocks)) ==> Coalesced(blocks)
    {
      OwnIsNotForeign(p, i);
      Free(p, i);
    }

    /** The in-place branch of a growing realloc. */
    method Grow(b: int, need: int, ghost i: int) returns (ok: bool)
      requires Valid() && 0 <= i < |blocks| && blocks[i].addr == b && !blocks[i].free
      requires blocks[i].size < need && need % 16 == 0
      modifies this`hdr, this`data, this`last, this`blocks
      ensures Valid() && ok == CanGrow(old(blocks), i, need)
      ensures blocks == if ok then Grown(old(blocks), i, need) else old(blocks)
      ensures !ok ==> data == old(data) && hdr == old(hdr)
      ensures Kept(HDR, old(data), data, Live(old(blocks)))
    {
      var nxt := Next(b, i);
      assert HeaderOk(hdr, blocks, i) && Sized(blocks[i]);
      if nxt != 0 {
        assert HeaderOk(hdr, blocks, i + 1);
        if hdr[nxt].free && hdr[b].size + HDR + hdr[nxt].size >= need {
          ghost var d0, bs := data, blocks;
          Absorb(b, false, i);
          ghost var d1 := data;
          SplitBlock(b, need, i);
          GrowKeeps(d0, d1, data, bs, first, hi, i, need);
          return true;
        }
      }
      return false;
    }

    /** memcpy of a live payload into a fresh one; bytes never written stay unwritten. */
    method Copy(dst: int, src: int, n: int)
      requires 0 <= n && (dst + n <= src || src + n <= dst)
      modifies this`data
      ensures Moved(old(data), data, src, dst, n)
      ensures forall lo, h :: h <= dst || dst + n <= lo ==> Same(old(data), data, lo, h)
    {
      var k := 0;
      while k < n
        invariant 0 <= k <= n
        invariant Moved(old(data), data, src, dst, k)
        invariant forall x :: x in old(data) && !(dst <= x < dst + n) ==> x in data && data[x] == old(data)[x]
        invariant forall x :: x in data && x !in old(data) ==> dst <= x < dst + n
      {
        data := if src + k in data then data[dst + k := data[src + k]] else data - {dst + k};
        k := k + 1;
      }
    }

    /** The fallback of realloc: allocate elsewhere, copy what fits, release the old block. */
    method Relocate(p: int, size: int, ghost i: int) returns (r: int, ghost n: Block)
      requires Valid() && 0 < size <= SIZE_MAX && 0 <= i < |blocks| && blocks[i].addr + HDR == p
      requires !blocks[i].free && blocks[i].size < Need(size)
      modifies this`hdr, this`data, this`last, this`blocks
      ensures Valid()
      ensures r == 0 <==> forall b :: b in old(blocks) ==> !Fits(b, Need(size))
      ensures r == 0 ==> blocks == old(blocks) && data == old(data)
      ensures r != 0 ==> Replaces(HDR, old(blocks), blocks, i, n, r, Need(size))
      ensures r != 0 ==> Kept(HDR, old(data), data, Live(old(blocks)) - {old(blocks)[i]})
      ensures r != 0 ==> Moved(old(data), data, p, r, Surviving(old(blocks)[i].size, size))
      ensures Coalesced(old(blocks)) ==> Coalesced(blocks)
    {
      NeedCovers(size);
      ghost var bs, d0, b := blocks, data, blocks[i];
      assert Sized(b) && HeaderOk(hdr, blocks, i);
      var cur := hdr[p - HDR].size;
      r, n := Allocate(size);
      if r == 0 {
        return;
      }
      ghost var d1 := data;
      assert b in Live(blocks) && n in Live(blocks) && b != n;
      ghost var i1 :| 0 <= i1 < |blocks| && blocks[i1] == b;
      ghost var j :| 0 <= j < |blocks| && blocks[j] == n;
      MoveOver(p, r, Min(cur, size), i1, j);
      RelocateKeeps(HDR, d0, d1, data, bs, i, n, r, Min(cur, size));
    }

    /** malloc in terms of live blocks. */
    method Allocate(size: int) returns (r: int, ghost n: Block)
      requires Valid() && 0 < size <= SIZE_MAX
      modifies this`hdr, this`data, this`last, this`blocks
      ensures Valid()
      ensures r == 0 <==> forall b :: b in old(blocks) ==> !Fits(b, Need(size))
      ensures r == 0 ==> blocks == old(blocks) && data == old(data)
      ensures r != 0 ==> n.addr + HDR == r && !n.free && n.size >= Need(size) && n !in Live(old(blocks))
      ensures r != 0 ==> Live(blocks) == Live(old(blocks)) + {n}
      ensures Kept(HDR, old(data), data, Live(old(blocks)))
      ensures Coalesced(old(blocks)) ==> Coalesced(blocks)
    {
      ghost var j;
      r, j := Malloc(size);
      n := if r == 0 then Block(0, 0, false) else blocks[j];
    }

    /** memcpy, then free of the source. */
    method MoveOver(p: int, r: int, len: int, ghost i: int, ghost j: int)
      requires Valid() && 0 <= i < |blocks| && 0 <= j < |blocks| && i != j && !blocks[i].free && !blocks[j].free
      requires blocks[i].addr + HDR == p && blocks[j].addr + HDR == r && 0 <= len <= blocks[i].size
               && len <= blocks[j].size
      modifies this`hdr, this`data, this`last, this`blocks
      ensures Valid() && Live(blocks) == Live(old(blocks)) - {old(blocks)[i]}
      ensures Kept(HDR, old(data), data, Live(old(blocks)) - {old(blocks)[i], old(blocks)[j]})
      ensures Moved(old(data), data, p, r, len)
      ensures Coalesced(old(blocks)) ==> Coalesced(blocks)
    {
      ghost var d0, bs := data, blocks;
      CopyPayload(p, r, len, i, j);
      ghost var d1 := data;
      Release(p, i);
      SurvivorsKept(HDR, d0, d1, data, bs, first, hi, blocks, i, j, len);
    }

    method CopyPayload(p: int, r: int, len: int, ghost i: int, ghost j: int)
      requires Valid() && 0 <= i < |blocks| && 0 <= j < |blocks| && i != j
      requires blocks[i].addr + HDR == p && blocks[j].addr + HDR == r && 0 <= len <= blocks[i].size
               && len <= blocks[j].size
      modifies this`data
      ensures Valid() && Kept(HDR, old(data), data, Live(blocks) - {blocks[j]})
      ensures Moved(old(data), data, p, r, len)
    {
      ghost var d0 := data;
      PayloadsDisjoint(HDR, blocks, first, hi, i, j);
      Copy(r, p, len);
      CopySpares(HDR, d0, data, blocks, first, hi, j, r, len);
    }

    /** realloc */
    method Realloc(p: int, size: int, ghost i: int) returns (r: int, ghost n: Block)
      requires Valid() && 0 <= size <= SIZE_MAX && Names(p, i)
      requires !Foreign(p) ==> !blocks[i].free
      modifies this`hdr, this`data, this`last, this`blocks
      ensures Valid()
      ensures p == 0 && size > 0 ==> (r == 0 <==> forall b :: b in old(blocks) ==> !Fits(b, Need(size)))
      ensures p == 0 && r != 0 ==> n.addr + HDR == r && n.size >= Need(size) && Live(blocks) == Live(old(blocks)) + {n}
      ensures p == 0 ==> Kept(HDR, old(data), data, Live(old(blocks)))
      ensures (p != 0 && old(Foreign(p))) || p == size == 0 ==> r == 0 && blocks == old(blocks) && data == old(data)
      ensures !old(Foreign(p)) && size == 0 ==> r == 0 && blocks == Freed(HDR, old(blocks), i)
      ensures !old(Foreign(p)) && size > 0 ==>
                (r == 0 <==> ReallocFails(old(blocks), i, Need(size)))
                && (r == 0 ==> blocks == old(blocks) && data == old(data))
                && (r != 0 ==> Replaces(HDR, old(blocks), blocks, i, n, r, Need(size))
                               && Moved(old(data), data, p, r, Surviving(old(blocks)[i].size, size)))
      ensures !old(Foreign(p)) ==> Kept(HDR, old(data), data, Live(old(blocks)) - {old(blocks)[i]})
      ensures Coalesced(old(blocks)) ==>
                (Coalesced(blocks) <==> old(Foreign(p)) || size == 0 || !LeavesTail(old(blocks), i, Need(size)))
    {
      n := Block(0, 0, false);
      if p == 0 {
        ghost var j;
        r, j := Malloc(size);
        if r != 0 { n := blocks[j]; }
        return;
      }
      if size == 0 {
        if !Foreign(p) { FreedLive(HDR, blocks, first, hi, i); }
        Free(p, i);
        return 0, n;
      }
      if Foreign(p) {
        return 0, n;
      }
      r, n := Resize(p, size, i);
    }

    /** realloc of a live block to a positive size. */
    method Resize(p: int, size: int, ghost i: int) returns (r: int, ghost n: Block)
      requires Valid() && 0 < size <= SIZE_MAX && 0 <= i < |blocks| && blocks[i].addr + HDR == p && !blocks[i].free
      modifies this`hdr, this`data, this`last, this`blocks
      ensures Valid()
      ensures r == 0 <==> ReallocFails(old(blocks), i, Need(size))
      ensures r == 0 ==> blocks == old(blocks) && data == old(data)
      ensures r != 0 ==> Replaces(HDR, old(blocks), blocks, i, n, r, Need(size))
      ensures r != 0 ==> Moved(old(data), data, p, r, Surviving(old(blocks)[i].size, size))
      ensures Kept(HDR, old(data), data, Live(old(blocks)) - {old(blocks)[i]})
      ensures Coalesced(old(blocks)) ==> (Coalesced(blocks) <==> !LeavesTail(old(blocks), i, Need(size)))
    {
      NeedCovers(size);
      var b, need := p - HDR, Need(size);
      assert HeaderOk(hdr, blocks, i) && Sized(blocks[i]);
      if hdr[b].size >= need {
        r, n := Shrink(p, size, i);
        return;
      }
      if CanGrow(blocks, i, need) {
        GrownLive(blocks, first, hi, i, need);
        if Coalesced(blocks) { GrownCoalesced(blocks, i, need); }
      }
      var ok := Grow(b, need, i);
      if ok {
        return p, blocks[i];
      }
      r, n := Relocate(p, size, i);
    }

    /** The shrinking branch of realloc: the tail it cuts is not merged. */
    method Shrink(p: int, size: int, ghost i: int) returns (r: int, ghost n: Block)
      requires Valid() && 0 < size <= SIZE_MAX && 0 <= i < |blocks| && blocks[i].addr + HDR == p
      requires !blocks[i].free && Need(size) <= blocks[i].size
      modifies this`hdr, this`data, this`last, this`blocks
      ensures Valid() && r == p != 0
      ensures Replaces(HDR, old(blocks), blocks, i, n, r, Need(size))
      ensures Moved(old(data), data, p, r, Surviving(old(blocks)[i].size, size))
      ensures Kept(HDR, old(data), data, Live(old(blocks)) - {old(blocks)[i]})
      ensures Coalesced(old(blocks)) ==> (Coalesced(blocks) <==> !LeavesTail(old(blocks), i, Need(size)))
    {
      NeedCovers(size);
      TrimLive(blocks, first, hi, i, Need(size));
      if Coalesced(blocks) { ShrinkCoalescedIff(blocks, i, Need(size)); }
      assert Sized(blocks[i]);
      SplitBlock(p - HDR, Need(size), i);
      return p, blocks[i];
    }
  }

  lemma ToggleOk(hdr: map<int, Header>, bs: seq<Block>, lo: int, hi: int, i: int, free: bool)
    requires Tiled(HDR, bs, lo, hi) && HeadersOk(hdr, bs) && 0 <= i < |bs| && bs[i].addr in hdr
    ensures var bs', hdr' := bs[i := bs[i].(free := free)], hdr[bs[i].addr := hdr[bs[i].addr].(free := free)];
            Tiled(HDR, bs', lo, hi) && HeadersOk(hdr', bs')
  {
    var bs', hdr' := bs[i := bs[i].(free := free)], hdr[bs[i].addr := hdr[bs[i].addr].(free := free)];
    SpliceTiled(HDR, bs, lo, hi, i, i + 1, [bs[i].(free := free)]);
    assert Splice(bs, i, i + 1, [bs[i].(free := free)]) == bs';
    forall k | 0 <= k < |bs'|
      ensures HeaderOk(hdr', bs', k)
    {
      assert HeaderOk(hdr, bs, k) && HeaderOk(hdr, bs, i);
      if k != i { PayloadsDisjoint(HDR, bs, lo, hi, k, i); }
    }
  }

  /** The payloads of all blocks read as before. */
  ghost predicate AllSame(d: map<int, int>, d': map<int, int>, bs: seq<Block>) {
    forall k :: 0 <= k < |bs| ==> Same(d, d', bs[k].addr + HDR, End(HDR, bs[k]))
  }

  ghost predicate OthersSame(d: map<int, int>, d': map<int, int>, bs: seq<Block>, i: int) {
    forall k :: 0 <= k < |bs| && k != i ==> Same(d, d', bs[k].addr + HDR, End(HDR, bs[k]))
  }

  /** A store to the header of a block touches no payload. */
  lemma HeaderStoreSame(d: map<int, int>, bs: seq<Block>, lo: int, hi: int, i: int)
    requires Tiled(HDR, bs, lo, hi) && 0 <= i < |bs|
    ensures AllSame(d, Clobber(HDR, d, bs[i].addr), bs)
  {
    forall k | 0 <= k < |bs|
      ensures Same(d, Clobber(HDR, d, bs[i].addr), bs[k].addr + HDR, End(HDR, bs[k]))
    {
      if k != i { PayloadsDisjoint(HDR, bs, lo, hi, k, i); }
      ClobberSame(d, bs[i].addr, bs[k].addr + HDR, End(HDR, bs[k]));
    }
  }

  /** The three stores of a split spare every other payload and the kept front of this one. */
  lemma CutSame(d: map<int, int>, bs: seq<Block>, lo: int, hi: int, i: int, need: int)
    requires Tiled(HDR, bs, lo, hi) && 0 <= i < |bs| && MIN_PAYLOAD <= need && Splits(HDR, bs[i].size, need)
    ensures var d2 := Clobber(HDR, Clobber(HDR, d, bs[i].addr + HDR + need), bs[i].addr);
            var d3 := if i + 1 < |bs| then Clobber(HDR, d2, bs[i + 1].addr) else d2;
            OthersSame(d, d3, bs, i) && Same(d, d3, bs[i].addr + HDR, bs[i].addr + HDR + need)
  {
    var b := bs[i];
    var d1 := Clobber(HDR, d, b.addr + HDR + need);
    var d2 := Clobber(HDR, d1, b.addr);
    var d3 := if i + 1 < |bs| then Clobber(HDR, d2, bs[i + 1].addr) else d2;
    HeaderStoreSame(d1, bs, lo, hi, i);
    if i + 1 < |bs| { HeaderStoreSame(d2, bs, lo, hi, i + 1); }
    ClobberSame(d, b.addr + HDR + need, b.addr + HDR, b.addr + HDR + need);
    assert Same(d1, d2, b.addr + HDR, End(HDR, b)) && Same(d2, d3, b.addr + HDR, End(HDR, b));
    forall k | 0 <= k < |bs| && k != i
      ensures Same(d, d3, bs[k].addr + HDR, End(HDR, bs[k]))
    {
      PayloadsDisjoint(HDR, bs, lo, hi, k, i);
      ClobberSame(d, b.addr + HDR + need, bs[k].addr + HDR, End(HDR, bs[k]));
      SameTrans(d, d1, d2, bs[k].addr + HDR, End(HDR, bs[k]));
      SameTrans(d, d2, d3, bs[k].addr + HDR, End(HDR, bs[k]));
    }
  }

  /** The stores of a merge spare every payload. */
  lemma AbsorbSame(d: map<int, int>, bs: seq<Block>, lo: int, hi: int, i: int)
    requires Tiled(HDR, bs, lo, hi) && 0 <= i < |bs| - 1
    ensures var d1 := Clobber(HDR, d, bs[i].addr);
            AllSame(d, if i + 2 < |bs| then Clobber(HDR, d1, bs[i + 2].addr) else d1, bs)
  {
    var d1 := Clobber(HDR, d, bs[i].addr);
    HeaderStoreSame(d, bs, lo, hi, i);
    if i + 2 < |bs| {
      HeaderStoreSame(d1, bs, lo, hi, i + 2);
      var d2 := Clobber(HDR, d1, bs[i + 2].addr);
      forall k | 0 <= k < |bs|
        ensures Same(d, d2, bs[k].addr + HDR, End(HDR, bs[k]))
      {
        SameTrans(d, d1, d2, bs[k].addr + HDR, End(HDR, bs[k]));
      }
    }
  }

  lemma GrowKeeps(d: map<int, int>, d1: map<int, int>, d2: map<int, int>, bs: seq<Block>, lo: int, hi: int, i: int,
                  need: int)
    requires Tiled(HDR, bs, lo, hi) && 0 <= i < |bs| - 1 && bs[i + 1].free && bs[i].size < need
    requires AllSame(d, d1, bs) && OthersSame(d1, d2, Merge(HDR, bs, i, false), i)
    requires Same(d1, d2, bs[i].addr + HDR, bs[i].addr + HDR + need)
    ensures Kept(HDR, d, d2, Live(bs))
  {
    var r := Merge(HDR, bs, i, false);
    forall b | b in Live(bs)
      ensures Same(d, d2, b.addr + HDR, End(HDR, b))
    {
      var k :| 0 <= k < |bs| && bs[k] == b;
      if k != i {
        var m := if k < i then k else k - 1;
        assert r[m] == b && m != i;
      }
      SameTrans(d, d1, d2, b.addr + HDR, End(HDR, b));
    }
  }

  /** malloc, then a shrinking realloc: the tail stays apart from the free block behind it. */
  method UnmergedTail(p: int) returns (a: Arena)
    requires p > 0 && p % 16 == 0
    ensures a.Valid() && !Coalesced(a.blocks)
  {
    a := new Arena(p);
    var r, i := a.Malloc(1024);
    ghost var bs := [Block(p, ARENA_SIZE - HDR, true)];
    assert Fits(bs[0], Need(1024));
    assert a.blocks[0] == Block(p, 1024, false) && a.blocks[1].free;
    a.OwnIsNotForeign(r, 0);
    var r2, n := a.Realloc(r, 16, 0);
  }
}
