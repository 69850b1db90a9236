/** A range of memory tiled by blocks, each a header of `h` bytes and a payload.  Both allocators,
    of the C library and of the kernel, cut, join and hand out blocks of this kind. */
module Tiling {

  const MIN_PAYLOAD: int := 16

  /** A block of the abstract view: its header address, payload size and state. */
  datatype Block = Block(addr: int, size: int, free: bool)

  function End(h: int, b: Block): int {
    b.addr + h + b.size
  }

  predicate Sized(b: Block) {
    b.size >= MIN_PAYLOAD && b.size % 16 == 0 && b.addr % 16 == 0 && b.addr > 0
  }

  /** The blocks cover [lo, hi) exactly, in address order. */
  ghost predicate Tiled(h: int, bs: seq<Block>, lo: int, hi: int) {
    && h > 0 && h % 16 == 0 && bs != [] && bs[0].addr == lo && End(h, bs[|bs| - 1]) == hi
    && (forall i :: 0 <= i < |bs| ==> Sized(bs[i]))
    && (forall i :: 0 <= i < |bs| - 1 ==> Touch(h, bs, i))
  }

  ghost predicate Touch(h: int, bs: seq<Block>, i: int)
    requires 0 <= i < |bs| - 1
  {
    bs[i + 1].addr == End(h, bs[i])
  }

  /** No two neighbouring free blocks. */
  ghost predicate Coalesced(bs: seq<Block>) {
    forall i :: 0 <= i < |bs| - 1 ==> !(bs[i].free && bs[i + 1].free)
  }

  lemma {:induction false} Ordered(h: int, bs: seq<Block>, lo: int, hi: int, i: int, j: int)
    requires Tiled(h, bs, lo, hi) && 0 <= i < j < |bs|
    ensures End(h, bs[i]) <= bs[j].addr
    decreases j - i
  {
    assert Touch(h, bs, j - 1);
    if i < j - 1 {
      Ordered(h, bs, lo, hi, i, j - 1);
    }
  }

  lemma InRange(h: int, bs: seq<Block>, lo: int, hi: int, i: int)
    requires Tiled(h, bs, lo, hi) && 0 <= i < |bs|
    ensures lo <= bs[i].addr && End(h, bs[i]) <= hi
  {
    if i > 0 { Ordered(h, bs, lo, hi, 0, i); }
    if i < |bs| - 1 { Ordered(h, bs, lo, hi, i, |bs| - 1); }
  }

  /** Live payloads never overlap. */
  lemma PayloadsDisjoint(h: int, bs: seq<Block>, lo: int, hi: int, i: int, j: int)
    requires Tiled(h, bs, lo, hi) && 0 <= i < |bs| && 0 <= j < |bs| && i != j
    ensures End(h, bs[i]) <= bs[j].addr || End(h, bs[j]) <= bs[i].addr
    ensures bs[i].addr != bs[j].addr
  {
    if i < j { Ordered(h, bs, lo, hi, i, j); } else { Ordered(h, bs, lo, hi, j, i); }
  }

  /** Replacing a stretch of blocks by a tiling of the same bytes. */
  function Splice(bs: seq<Block>, i: int, j: int, mid: seq<Block>): seq<Block>
    requires 0 <= i <= j <= |bs|
  {
    bs[..i] + mid + bs[j..]
  }

  lemma SpliceTiled(h: int, bs: seq<Block>, lo: int, hi: int, i: int, j: int, mid: seq<Block>)
    requires Tiled(h, bs, lo, hi) && 0 <= i < j <= |bs| && Tiled(h, mid, bs[i].addr, End(h, bs[j - 1]))
    ensures Tiled(h, Splice(bs, i, j, mid), lo, hi)
  {
    var r := Splice(bs, i, j, mid);
    forall k | 0 <= k < |r| - 1
      ensures Touch(h, r, k)
    {
      if k < i - 1 {
        assert Touch(h, bs, k);
      } else if k == i - 1 {
        assert Touch(h, bs, k);
      } else if k < i + |mid| - 1 {
        assert Touch(h, mid, k - i);
      } else if k == i + |mid| - 1 {
        assert Touch(h, bs, j - 1);
      } else {
        assert Touch(h, bs, k - i - |mid| + j);
      }
    }
  }

  predicate Splits(h: int, size: int, need: int) {
    size >= need + h + MIN_PAYLOAD
  }

  /** A block is split exactly when the rest holds a header and sixteen bytes: then the front is as large as
      asked for, and otherwise less than that much is given away. */
  lemma SplitExactly(h: int, bs: seq<Block>, i: int, need: int)
    requires 0 <= i < |bs|
    ensures if bs[i].size - need >= h + 16
            then |Split(h, bs, i, need)| == |bs| + 1 && Split(h, bs, i, need)[i] == Block(bs[i].addr, need, false)
                 && Split(h, bs, i, need)[i + 1] == Block(bs[i].addr + h + need, bs[i].size - need - h, true)
            else Split(h, bs, i, need) == bs[i := Block(bs[i].addr, bs[i].size, false)]
  {
  }

  /** split_block: use the front, turn a worthwhile tail into a free block. */
  function Split(h: int, bs: seq<Block>, i: int, need: int): seq<Block>
    requires 0 <= i < |bs|
  {
    var b := bs[i];
    if Splits(h, b.size, need)
    then Splice(bs, i, i + 1, [Block(b.addr, need, false), Block(b.addr + h + need, b.size - need - h, true)])
    else bs[i := b.(free := false)]
  }

  /** Two neighbours become one block. */
  function Merge(h: int, bs: seq<Block>, i: int, free: bool): seq<Block>
    requires 0 <= i < |bs| - 1
  {
    Splice(bs, i, i + 2, [Block(bs[i].addr, bs[i].size + h + bs[i + 1].size, free)])
  }

  lemma PartsSized(h: int, b: Block, need: int)
    requires Sized(b) && h > 0 && h % 16 == 0 && MIN_PAYLOAD <= need && need % 16 == 0 && Splits(h, b.size, need)
    ensures Sized(Block(b.addr, need, false)) && Sized(Block(b.addr + h + need, b.size - need - h, true))
  {
  }

  lemma SplitTiled(h: int, bs: seq<Block>, lo: int, hi: int, i: int, need: int)
    requires Tiled(h, bs, lo, hi) && 0 <= i < |bs| && MIN_PAYLOAD <= need <= bs[i].size && need % 16 == 0
    ensures Tiled(h, Split(h, bs, i, need), lo, hi)
  {
    var b := bs[i];
    if Splits(h, b.size, need) {
      var mid := [Block(b.addr, need, false), Block(b.addr + h + need, b.size - need - h, true)];
      assert Sized(b);
      PartsSized(h, b, need);
      assert Touch(h, mid, 0);
      SpliceTiled(h, bs, lo, hi, i, i + 1, mid);
    } else {
      SpliceTiled(h, bs, lo, hi, i, i + 1, [b.(free := false)]);
      assert Splice(bs, i, i + 1, [b.(free := false)]) == bs[i := b.(free := false)];
    }
  }

  lemma MergeTiled(h: int, bs: seq<Block>, lo: int, hi: int, i: int, free: bool)
    requires Tiled(h, bs, lo, hi) && 0 <= i < |bs| - 1
    ensures Tiled(h, Merge(h, bs, i, free), lo, hi)
  {
    assert Touch(h, bs, i);
    SpliceTiled(h, bs, lo, hi, i, i + 2, [Block(bs[i].addr, bs[i].size + h + bs[i + 1].size, free)]);
  }

  ghost function Live(bs: seq<Block>): set<Block> {
    set b | b in bs && !b.free
  }

  predicate Fits(b: Block, need: int) {
    b.free && b.size >= need
  }

  /** What free does to the list: mark, then merge with a free follower and a free predecessor. */
  function Freed(h: int, bs: seq<Block>, i: int): seq<Block>
    requires 0 <= i < |bs|
  {
    Joined(h, bs[i := bs[i].(free := true)], i)
  }

  function Joined(h: int, s: seq<Block>, i: int): seq<Block>
    requires 0 <= i < |s|
  {
    var f := if i + 1 < |s| && s[i + 1].free then Merge(h, s, i, true) else s;
    if i > 0 && f[i - 1].free then Merge(h, f, i - 1, true) else f
  }

  lemma SplitLive(h: int, bs: seq<Block>, i: int, need: int)
    requires 0 <= i < |bs| && bs[i].free
    ensures Live(Split(h, bs, i, need)) == Live(bs) + {Split(h, bs, i, need)[i]}
    ensures Coalesced(bs) ==> Coalesced(Split(h, bs, i, need))
  {
    var r := Split(h, bs, i, need);
    forall k | 0 <= k < |bs| && k != i
      ensures bs[k] in r
    {
      assert bs[k] == if k < i || |r| == |bs| then r[k] else r[k + 1];
    }
    assert forall k :: 0 <= k < |r| && k != i ==> r[k] in bs || r[k].free;
    assert !r[i].free;
  }

  lemma MergeLive(h: int, bs: seq<Block>, i: int)
    requires 0 <= i < |bs| - 1 && bs[i].free && bs[i + 1].free
    ensures Live(Merge(h, bs, i, true)) == Live(bs)
  {
    var r := Merge(h, bs, i, true);
    assert forall k :: 0 <= k < |bs| && k != i && k != i + 1 ==> bs[k] == if k < i then r[k] else r[k - 1];
    assert forall k :: 0 <= k < |r| && k != i ==> r[k] == if k < i then bs[k] else bs[k + 1];
  }

  lemma MarkLive(h: int, bs: seq<Block>, lo: int, hi: int, i: int)
    requires Tiled(h, bs, lo, hi) && 0 <= i < |bs|
    ensures Live(bs[i := bs[i].(free := true)]) == Live(bs) - {bs[i]}
  {
    var r := bs[i := bs[i].(free := true)];
    forall k | 0 <= k < |bs| && k != i
      ensures bs[k] != bs[i] && r[k] == bs[k]
    {
      PayloadsDisjoint(h, bs, lo, hi, k, i);
    }
    assert forall k :: 0 <= k < |bs| && k != i ==> bs[k] in r;
  }

  /** free removes exactly the freed block from the live ones. */
  lemma FreedLive(h: int, bs: seq<Block>, lo: int, hi: int, i: int)
    requires Tiled(h, bs, lo, hi) && 0 <= i < |bs|
    ensures Live(Freed(h, bs, i)) == Live(bs) - {bs[i]}
  {
    var s := bs[i := bs[i].(free := true)];
    MarkLive(h, bs, lo, hi, i);
    if i + 1 < |s| && s[i + 1].free { MergeLive(h, s, i); }
    var f := if i + 1 < |s| && s[i + 1].free then Merge(h, s, i, true) else s;
    if i > 0 && f[i - 1].free { MergeLive(h, f, i - 1); }
  }

  ghost predicate CoalescedBut(bs: seq<Block>, j: int) {
    forall k :: 0 <= k < |bs| - 1 && k != j ==> !(bs[k].free && bs[k + 1].free)
  }

  /** After the forward merge only the border in front of the freed block can be free on both sides. */
  lemma ForwardCoalesced(h: int, bs: seq<Block>, i: int)
    requires 0 <= i < |bs| && Coalesced(bs) && !bs[i].free
    ensures var s := bs[i := bs[i].(free := true)];
            var f := if i + 1 < |s| && s[i + 1].free then Merge(h, s, i, true) else s;
            CoalescedBut(f, i - 1)
  {
    var s := bs[i := bs[i].(free := true)];
    if i + 1 < |s| && s[i + 1].free {
      var f := Merge(h, s, i, true);
      assert forall k :: 0 <= k < |f| && k != i ==> f[k] == if k < i then bs[k] else bs[k + 1];
      forall k | 0 <= k < |f| - 1 && k != i - 1
        ensures !(f[k].free && f[k + 1].free)
      {
        assert !(bs[k].free && bs[k + 1].free);
        assert !(bs[k + 1].free && bs[k + 2].free);
      }
    }
  }

  lemma BackwardCoalesced(h: int, f: seq<Block>, i: int)
    requires 0 < i < |f| && CoalescedBut(f, i - 1) && f[i].free && f[i - 1].free
    ensures Coalesced(Merge(h, f, i - 1, true))
  {
    var r := Merge(h, f, i - 1, true);
    assert forall k :: 0 <= k < |r| && k != i - 1 ==> r[k] == if k < i - 1 then f[k] else f[k + 1];
    forall k | 0 <= k < |r| - 1
      ensures !(r[k].free && r[k + 1].free)
    {
      assert k < i - 1 ==> !(f[k].free && f[k + 1].free);
      assert k >= i - 1 ==> !(f[k + 1].free && f[k + 2].free);
    }
  }

  /** free leaves no two neighbouring free blocks behind. */
  lemma FreedCoalesced(h: int, bs: seq<Block>, i: int)
    requires 0 <= i < |bs| && Coalesced(bs) && !bs[i].free
    ensures Coalesced(Freed(h, bs, i))
  {
    var s := bs[i := bs[i].(free := true)];
    var f := if i + 1 < |s| && s[i + 1].free then Merge(h, s, i, true) else s;
    ForwardCoalesced(h, bs, i);
    if i > 0 && f[i - 1].free { BackwardCoalesced(h, f, i); }
  }

  /** Total payload of the blocks in the given state. */
  function Payload(bs: seq<Block>, free: bool): int {
    if bs == [] then 0
    else Payload(bs[..|bs| - 1], free) + if bs[|bs| - 1].free == free then bs[|bs| - 1].size else 0
  }

  /** Live bytes, free bytes and headers always add up to the arena. */
  lemma {:induction false} BytesConserved(h: int, bs: seq<Block>, lo: int, hi: int)
    requires Tiled(h, bs, lo, hi)
    ensures Payload(bs, false) + Payload(bs, true) + h * |bs| == hi - lo
  {
    var front := bs[..|bs| - 1];
    if front != [] {
      assert Touch(h, bs, |bs| - 2);
      forall k | 0 <= k < |front| - 1
        ensures Touch(h, front, k)
      {
        assert Touch(h, bs, k);
      }
      BytesConserved(h, front, lo, bs[|bs| - 1].addr);
    }
  }

  /** The block malloc hands out is none of the old ones. */
  lemma NotSeenBefore(h: int, bs: seq<Block>, lo: int, hi: int, i: int, need: int)
    requires Tiled(h, bs, lo, hi) && 0 <= i < |bs| && bs[i].free
    ensures Split(h, bs, i, need)[i] !in bs
  {
    forall k | 0 <= k < |bs|
      ensures bs[k] != Split(h, bs, i, need)[i]
    {
      if k != i { PayloadsDisjoint(h, bs, lo, hi, k, i); }
    }
  }

  // ---- contents ---------------------------------------------------------------------

  /** The payload of `b` reads the same in both memories. */
  ghost predicate Same(d: map<int, int>, d': map<int, int>, lo: int, hi: int) {
    forall x :: lo <= x < hi && x in d ==> x in d' && d'[x] == d[x]
  }

  lemma SameTrans(d: map<int, int>, m: map<int, int>, d': map<int, int>, lo: int, hi: int)
    requires Same(d, m, lo, hi) && Same(m, d', lo, hi)
    ensures Same(d, d', lo, hi)
  {
  }

  /** All these blocks' payloads read as before. */
  ghost predicate Kept(h: int, d: map<int, int>, d': map<int, int>, s: set<Block>) {
    forall b :: b in s ==> Same(d, d', b.addr + h, End(h, b))
  }

  lemma KeptTrans(h: int, d: map<int, int>, m: map<int, int>, d': map<int, int>, s: set<Block>, t: set<Block>)
    requires Kept(h, d, m, s) && Kept(h, m, d', t) && s <= t
    ensures Kept(h, d, d', s)
  {
    forall b | b in s
      ensures Same(d, d', b.addr + h, End(h, b))
    {
      SameTrans(d, m, d', b.addr + h, End(h, b));
    }
  }

  function Shift(x: int, p: int, r: int): int {
    r + (x - p)
  }

  /** The first `n` bytes at `p` are now at `r`. */
  ghost predicate Moved(d: map<int, int>, d': map<int, int>, p: int, r: int, n: int) {
    forall x :: p <= x < p + n && x in d ==> Shift(x, p, r) in d' && d'[Shift(x, p, r)] == d[x]
  }

  function Min(a: int, b: int): int {
    if a < b then a else b
  }

  /** Of the live blocks only block `i` changed: it is now `n`, and its payload starts at `r`. */
  ghost predicate Replaces(h: int, bs: seq<Block>, bs': seq<Block>, i: int, n: Block, r: int, need: int)
    requires 0 <= i < |bs|
  {
    Live(bs') == Live(bs) - {bs[i]} + {n} && n.addr + h == r && n.size >= need
  }

  /** A first-fit allocation of `need` bytes at block `i`, answered by `r`. */
  ghost predicate Allocates(h: int, bs: seq<Block>, bs': seq<Block>, i: int, need: int, r: int) {
    && 0 <= i < |bs| && Fits(bs[i], need) && (forall j :: 0 <= j < i ==> !Fits(bs[j], need))
    && bs' == Split(h, bs, i, need) && r == bs[i].addr + h
  }

  /** Writing inside one block's payload spares all the others. */
  lemma CopySpares(h: int, d: map<int, int>, d': map<int, int>, bs: seq<Block>, lo: int, hi: int, j: int, r: int,
                   n: int)
    requires Tiled(h, bs, lo, hi) && 0 <= j < |bs| && r == bs[j].addr + h && 0 <= n <= bs[j].size
    requires forall lo, e :: e <= r || r + n <= lo ==> Same(d, d', lo, e)
    ensures Kept(h, d, d', Live(bs) - {bs[j]})
  {
    forall b | b in Live(bs) - {bs[j]}
      ensures Same(d, d', b.addr + h, End(h, b))
    {
      var k :| 0 <= k < |bs| && bs[k] == b;
      PayloadsDisjoint(h, bs, lo, hi, k, j);
    }
  }

  lemma RelocateKeeps(h: int, d0: map<int, int>, d1: map<int, int>, d2: map<int, int>, bs: seq<Block>, i: int,
                      n: Block, r: int, k: int)
    requires 0 <= i < |bs| && bs[i] in Live(bs) && n !in Live(bs) && k <= bs[i].size
    requires Kept(h, d0, d1, Live(bs)) && Kept(h, d1, d2, Live(bs) + {n} - {bs[i], n})
    requires Moved(d1, d2, bs[i].addr + h, r, k)
    ensures Kept(h, d0, d2, Live(bs) - {bs[i]}) && Moved(d0, d2, bs[i].addr + h, r, k)
  {
    KeptTrans(h, d0, d1, d2, Live(bs) - {bs[i]}, Live(bs) + {n} - {bs[i], n});
  }

  lemma SurvivorsKept(h: int, d0: map<int, int>, d1: map<int, int>, d2: map<int, int>,
                      bs: seq<Block>, lo: int, hi: int, bs': seq<Block>, i: int, j: int, len: int)
    requires Tiled(h, bs, lo, hi) && 0 <= i < |bs| && 0 <= j < |bs| && i != j && !bs[i].free && !bs[j].free
    requires Live(bs') == Live(bs) - {bs[i]} && len <= bs[j].size
    requires Kept(h, d0, d1, Live(bs) - {bs[j]}) && Moved(d0, d1, bs[i].addr + h, bs[j].addr + h, len)
    requires Kept(h, d1, d2, Live(bs'))
    ensures Kept(h, d0, d2, Live(bs) - {bs[i], bs[j]}) && Moved(d0, d2, bs[i].addr + h, bs[j].addr + h, len)
  {
    PayloadsDisjoint(h, bs, lo, hi, i, j);
    assert bs[j] in Live(bs');
    KeptTrans(h, d0, d1, d2, Live(bs) - {bs[i], bs[j]}, Live(bs'));
  }

  /** A store to a header at `a` destroys the payload bytes it overlays. */
  function Clobber(h: int, d: map<int, int>, a: int): map<int, int> {
    map x | x in d && !(a <= x < a + h) :: d[x]
  }

  // ---- payload sums -----------------------------------------------------------------

  lemma {:induction false} PayloadConcat(a: seq<Block>, b: seq<Block>, free: bool)
    ensures Payload(a + b, free) == Payload(a, free) + Payload(b, free)
    decreases |b|
  {
    if b == [] {
      assert a + b == a;
    } else {
      PayloadConcat(a, b[..|b| - 1], free);
      assert (a + b)[..|a + b| - 1] == a + b[..|b| - 1];
    }
  }

  lemma PayloadSplice(bs: seq<Block>, i: int, j: int, mid: seq<Block>, free: bool)
    requires 0 <= i <= j <= |bs|
    ensures Payload(Splice(bs, i, j, mid), free) - Payload(mid, free) == Payload(bs, free) - Payload(bs[i..j], free)
  {
    PayloadConcat(bs[..i], mid, free);
    PayloadConcat(bs[..i] + mid, bs[j..], free);
    PayloadConcat(bs[..i], bs[i..j], free);
    PayloadConcat(bs[..i] + bs[i..j], bs[j..], free);
    assert bs == bs[..i] + bs[i..j] + bs[j..];
  }

  lemma PayloadTwo(a: Block, b: Block, free: bool)
    ensures Payload([a], free) == if a.free == free then a.size else 0
    ensures Payload([a, b], free) == Payload([a], free) + Payload([b], free)
  {
    assert [a, b] == [a] + [b];
    PayloadConcat([a], [b], free);
    assert [a][..0] == [];
  }

  lemma MergePayload(h: int, bs: seq<Block>, i: int)
    requires 0 <= i < |bs| - 1 && bs[i].free && bs[i + 1].free
    ensures Payload(Merge(h, bs, i, true), false) == Payload(bs, false)
    ensures Payload(Merge(h, bs, i, true), true) == Payload(bs, true) + h
  {
    var m := Block(bs[i].addr, bs[i].size + h + bs[i + 1].size, true);
    assert bs[i..i + 2] == [bs[i], bs[i + 1]];
    PayloadSplice(bs, i, i + 2, [m], false);
    PayloadSplice(bs, i, i + 2, [m], true);
    PayloadTwo(bs[i], bs[i + 1], false); PayloadTwo(bs[i], bs[i + 1], true);
    PayloadTwo(bs[i + 1], m, false); PayloadTwo(bs[i + 1], m, true);
    PayloadTwo(m, m, false); PayloadTwo(m, m, true);
  }

  lemma UpdatePayload(bs: seq<Block>, i: int, b: Block, free: bool)
    requires 0 <= i < |bs|
    ensures Payload(bs[i := b], free) - Payload([b], free) == Payload(bs, free) - Payload([bs[i]], free)
  {
    PayloadSplice(bs, i, i + 1, [b], free);
    assert bs[i..i + 1] == [bs[i]] && Splice(bs, i, i + 1, [b]) == bs[i := b];
  }

  /** The headers that freeing block `i` saves: one for each free neighbour. */
  function SavedHeaders(h: int, bs: seq<Block>, i: int): int
    requires 0 <= i < |bs|
  {
    (if i + 1 < |bs| && bs[i + 1].free then h else 0) + if i > 0 && bs[i - 1].free then h else 0
  }

  /** free moves exactly the block's payload from live to free, plus one header for each merge. */
  lemma FreedPayload(h: int, bs: seq<Block>, i: int)
    requires 0 <= i < |bs| && !bs[i].free
    ensures Payload(Freed(h, bs, i), false) == Payload(bs, false) - bs[i].size
    ensures Payload(Freed(h, bs, i), true) == Payload(bs, true) + bs[i].size + SavedHeaders(h, bs, i)
  {
    var b := bs[i].(free := true);
    var s := bs[i := b];
    UpdatePayload(bs, i, b, false); UpdatePayload(bs, i, b, true);
    PayloadTwo(b, b, false); PayloadTwo(b, b, true);
    PayloadTwo(bs[i], b, false); PayloadTwo(bs[i], b, true);
    if i + 1 < |s| && s[i + 1].free { MergePayload(h, s, i); }
    var f := if i + 1 < |s| && s[i + 1].free then Merge(h, s, i, true) else s;
    if i > 0 && f[i - 1].free { MergePayload(h, f, i - 1); }
  }

  /** Allocating moves the payload of the block handed out from free to live. */
  lemma SplitPayload(h: int, bs: seq<Block>, i: int, need: int)
    requires 0 <= i < |bs| && bs[i].free
    ensures Payload(Split(h, bs, i, need), false) == Payload(bs, false) + Split(h, bs, i, need)[i].size
    ensures Payload(Split(h, bs, i, need), true)
            == Payload(bs, true) - Split(h, bs, i, need)[i].size - if Splits(h, bs[i].size, need) then h else 0
  {
    if Splits(h, bs[i].size, need) {
      CutPayload(bs, i, Block(bs[i].addr, need, false), Block(bs[i].addr + h + need, bs[i].size - need - h, true));
    } else {
      var u := bs[i].(free := false);
      PayloadTwo(u, bs[i], false); PayloadTwo(u, bs[i], true);
      PayloadTwo(bs[i], u, false); PayloadTwo(bs[i], u, true);
      UpdatePayload(bs, i, u, false); UpdatePayload(bs, i, u, true);
    }
  }

  lemma CutPayload(bs: seq<Block>, i: int, f: Block, t: Block)
    requires 0 <= i < |bs| && bs[i].free && !f.free && t.free
    ensures Payload(Splice(bs, i, i + 1, [f, t]), false) == Payload(bs, false) + f.size
    ensures Payload(Splice(bs, i, i + 1, [f, t]), true) == Payload(bs, true) - bs[i].size + t.size
  {
    assert bs[i..i + 1] == [bs[i]];
    PayloadSplice(bs, i, i + 1, [f, t], false); PayloadSplice(bs, i, i + 1, [f, t], true);
    PayloadTwo(f, t, false); PayloadTwo(f, t, true);
    PayloadTwo(t, f, false); PayloadTwo(t, f, true);
    PayloadTwo(bs[i], f, false); PayloadTwo(bs[i], f, true);
  }

  // ---- stores to headers --------------------------------------------------------------

  ghost predicate Under(h: int, x: int, heads: set<int>) {
    exists a :: a in heads && a <= x < a + h
  }

  /** Only bytes under these headers may have changed. */
  ghost predicate Spared(h: int, d: map<int, int>, d': map<int, int>, heads: set<int>) {
    forall x :: x in d && !Under(h, x, heads) ==> x in d' && d'[x] == d[x]
  }

  ghost function Headers(bs: seq<Block>): set<int> {
    set k | 0 <= k < |bs| :: bs[k].addr
  }

  lemma SparedTrans(h: int, d: map<int, int>, m: map<int, int>, d': map<int, int>, a: set<int>, b: set<int>,
                    c: set<int>)
    requires Spared(h, d, m, a) && Spared(h, m, d', b) && a <= c && b <= c
    ensures Spared(h, d, d', c)
  {
    forall x | x in d && !Under(h, x, c)
      ensures x in d' && d'[x] == d[x]
    {
      assert !Under(h, x, a) && !Under(h, x, b);
    }
  }

  lemma SparedMore(h: int, d: map<int, int>, d': map<int, int>, a: set<int>, b: set<int>)
    requires Spared(h, d, d', a) && a <= b
    ensures Spared(h, d, d', b)
  {
    forall x | x in d && !Under(h, x, b)
      ensures x in d' && d'[x] == d[x]
    {
      assert !Under(h, x, a);
    }
  }

  lemma ClobberSpares(h: int, d: map<int, int>, a: int, heads: set<int>)
    requires a in heads
    ensures Spared(h, d, Clobber(h, d, a), heads)
  {
  }

  /** A payload that is live before and after is never under a header. */
  lemma SparedKept(h: int, d: map<int, int>, d': map<int, int>, bs: seq<Block>, lo: int, hi: int, bs': seq<Block>,
                   lo': int, hi': int)
    requires bs != [] ==> Tiled(h, bs, lo, hi)
    requires bs' != [] ==> Tiled(h, bs', lo', hi')
    requires Spared(h, d, d', Headers(bs) + Headers(bs'))
    ensures Kept(h, d, d', Live(bs) * Live(bs'))
  {
    forall b, x | b in Live(bs) * Live(bs') && b.addr + h <= x < End(h, b)
      ensures !Under(h, x, Headers(bs) + Headers(bs'))
    {
      OffHeaders(h, bs, lo, hi, b, x);
      OffHeaders(h, bs', lo', hi', b, x);
    }
  }

  lemma OffHeaders(h: int, bs: seq<Block>, lo: int, hi: int, b: Block, x: int)
    requires Tiled(h, bs, lo, hi) && b in bs && b.addr + h <= x < End(h, b)
    ensures !Under(h, x, Headers(bs))
  {
    var i :| 0 <= i < |bs| && bs[i] == b;
    forall k | 0 <= k < |bs|
      ensures !(bs[k].addr <= x < bs[k].addr + h)
    {
      assert Sized(bs[k]);
      if k != i { PayloadsDisjoint(h, bs, lo, hi, i, k); }
    }
  }
}
