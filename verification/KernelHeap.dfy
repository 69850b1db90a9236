/** The kernel heap (src/kernel/core/heap.c): a growing range tiled by blocks whose free ones are
    threaded on an address-sorted list.  Each header field is a map from block address. */
module KernelHeap {
  import opened Basics
  import opened Tiling
  import opened FreeList

  const HDR: int := 32
  const PAGE: int := 4096
  const HEAP_BASE: int := 0x4010_0000
  const HEAP_MAX: int := 0x5000_0000

  ghost predicate Spans(bs: seq<Block>, lo: int, hi: int) {
    if bs == [] then lo == hi else Tiled(HDR, bs, lo, hi)
  }

  ghost predicate BlockOk(size: map<int, int>, flag: map<int, bool>, bs: seq<Block>, i: int)
    requires 0 <= i < |bs|
  {
    var a := bs[i].addr;
    a in size && size[a] == bs[i].size && a in flag && flag[a] == bs[i].free
  }

  ghost predicate FieldsOk(size: map<int, int>, flag: map<int, bool>, bs: seq<Block>) {
    forall i :: 0 <= i < |bs| ==> BlockOk(size, flag, bs, i)
  }

  /** Header fields describe the blocks, and the list visits exactly the free ones in order. */
  ghost predicate Threaded(size: map<int, int>, flag: map<int, bool>, next: map<int, int>, head: int,
                           bs: seq<Block>, lo: int, hi: int)
  {
    && Spans(bs, lo, hi)
    && FieldsOk(size, flag, bs)
    && Chain(next, head, FreeAddrs(bs))
  }

  /** Where block `i` is, or would be, on the list. */
  function Rank(bs: seq<Block>, i: int): int
    requires 0 <= i <= |bs|
  {
    |FreeAddrs(bs[..i])|
  }

  // ---- what each relinking does -------------------------------------------------------

  lemma MarkTiled(bs: seq<Block>, lo: int, hi: int, i: int, free: bool)
    requires Tiled(HDR, bs, lo, hi) && 0 <= i < |bs|
    ensures Tiled(HDR, bs[i := bs[i].(free := free)], lo, hi)
  {
    SpliceTiled(HDR, bs, lo, hi, i, i + 1, [bs[i].(free := free)]);
    assert Splice(bs, i, i + 1, [bs[i].(free := free)]) == bs[i := bs[i].(free := free)];
  }

  /** Linking a used block in at its rank makes it a free one. */
  lemma LinkOk(size: map<int, int>, flag: map<int, bool>, next: map<int, int>, head: int,
               bs: seq<Block>, lo: int, hi: int, i: int)
    requires 0 <= i < |bs| && Threaded(size, flag, next, head, bs, lo, hi) && !bs[i].free
    ensures var fl, k, a := FreeAddrs(bs), Rank(bs, i), bs[i].addr;
            Threaded(size, flag[a := true], Relink(next[a := At(fl, k)], At(fl, k - 1), a),
                     Head(head, At(fl, k - 1), a),
                     bs[i := bs[i].(free := true)], lo, hi)
  {
    var fl, k, a := FreeAddrs(bs), Rank(bs, i), bs[i].addr;
    var bs' := bs[i := bs[i].(free := true)];
    MarkTiled(bs, lo, hi, i, true);
    MarkedAddrs(bs, i);
    assert Sized(bs[i]);
    NotListed(bs, lo, hi, i);
    ChainInsert(next, head, fl, k, a);
    MarkFields(size, flag, bs, lo, hi, i, true);
  }

  lemma MarkFields(size: map<int, int>, flag: map<int, bool>, bs: seq<Block>, lo: int, hi: int, i: int, free: bool)
    requires 0 <= i < |bs| && Tiled(HDR, bs, lo, hi) && FieldsOk(size, flag, bs)
    ensures FieldsOk(size, flag[bs[i].addr := free], bs[i := bs[i].(free := free)])
  {
    var flag', bs' := flag[bs[i].addr := free], bs[i := bs[i].(free := free)];
    forall j | 0 <= j < |bs'|
      ensures BlockOk(size, flag', bs', j)
    {
      assert BlockOk(size, flag, bs, j);
      if j != i { PayloadsDisjoint(HDR, bs, lo, hi, j, i); }
    }
  }

  lemma MarkedAddrs(bs: seq<Block>, i: int)
    requires 0 <= i < |bs| && !bs[i].free
    ensures var fl, k := FreeAddrs(bs), Rank(bs, i);
            k <= |fl| && FreeAddrs(bs[i := bs[i].(free := true)]) == fl[..k] + [bs[i].addr] + fl[k..]
  {
    var bs' := bs[i := bs[i].(free := true)];
    Around(bs, i);
    Around(bs', i);
    assert bs'[..i] == bs[..i] && bs'[i + 1..] == bs[i + 1..];
  }

  lemma NotListed(bs: seq<Block>, lo: int, hi: int, i: int)
    requires Tiled(HDR, bs, lo, hi) && 0 <= i < |bs| && !bs[i].free
    ensures bs[i].addr !in FreeAddrs(bs)
  {
    FreeAddrsAre(bs, bs[i].addr);
    if bs[i].addr in FreeAddrs(bs) {
      var k :| 0 <= k < |bs| && bs[k].free && bs[k].addr == bs[i].addr;
      PayloadsDisjoint(HDR, bs, lo, hi, k, i);
    }
  }

  /** Joining a free block with its free follower unlinks the follower. */
  lemma JoinOk(size: map<int, int>, flag: map<int, bool>, next: map<int, int>, head: int,
               bs: seq<Block>, lo: int, hi: int, i: int)
    requires 0 <= i < |bs| - 1 && Threaded(size, flag, next, head, bs, lo, hi) && bs[i].free && bs[i + 1].free
    ensures var a, b := bs[i].addr, bs[i + 1].addr;
            a in size && b in size && b in next
            && Threaded(size[a := size[a] + HDR + size[b]], flag, next[a := next[b]], head, Merge(HDR, bs, i, true),
                        lo, hi)
  {
    var a, b, fl, k := bs[i].addr, bs[i + 1].addr, FreeAddrs(bs), Rank(bs, i);
    JoinedAddrs(bs, i);
    assert Linked(next, fl, k + 1);
    ChainSkip(next, head, fl, k);
    MergeTiled(HDR, bs, lo, hi, i, true);
    assert BlockOk(size, flag, bs, i) && BlockOk(size, flag, bs, i + 1);
    JoinFields(size, flag, bs, lo, hi, i);
  }

  lemma JoinFields(size: map<int, int>, flag: map<int, bool>, bs: seq<Block>, lo: int, hi: int, i: int)
    requires 0 <= i < |bs| - 1 && Tiled(HDR, bs, lo, hi) && bs[i].free
    requires FieldsOk(size, flag, bs)
    ensures FieldsOk(size[bs[i].addr := bs[i].size + HDR + bs[i + 1].size], flag, Merge(HDR, bs, i, true))
  {
    var m, size' := Merge(HDR, bs, i, true), size[bs[i].addr := bs[i].size + HDR + bs[i + 1].size];
    forall j | 0 <= j < |m|
      ensures BlockOk(size', flag, m, j)
    {
      var j0 := if j <= i then j else j + 1;
      assert BlockOk(size, flag, bs, j0);
      if j != i {
        assert m[j] == bs[j0];
        PayloadsDisjoint(HDR, bs, lo, hi, j0, i);
      }
    }
  }

  lemma JoinedAddrs(bs: seq<Block>, i: int)
    requires 0 <= i < |bs| - 1 && bs[i].free && bs[i + 1].free
    ensures var fl, k := FreeAddrs(bs), Rank(bs, i);
            k + 1 < |fl| && fl[k] == bs[i].addr && fl[k + 1] == bs[i + 1].addr
            && FreeAddrs(Merge(HDR, bs, i, true)) == fl[..k + 1] + fl[k + 2..]
  {
    PairAround(bs, i);
    MergedAddrs(bs, i);
    DropSecond(FreeAddrs(bs[..i]), bs[i].addr, bs[i + 1].addr, FreeAddrs(bs[i + 2..]));
  }

  lemma PairAround(bs: seq<Block>, i: int)
    requires 0 <= i < |bs| - 1 && bs[i].free && bs[i + 1].free
    ensures FreeAddrs(bs) == FreeAddrs(bs[..i]) + [bs[i].addr, bs[i + 1].addr] + FreeAddrs(bs[i + 2..])
  {
    Around(bs, i);
    HeadAddrs(bs[i + 1..]);
    assert bs[i + 1..][1..] == bs[i + 2..];
    Regroup(FreeAddrs(bs[..i]), bs[i].addr, bs[i + 1].addr, FreeAddrs(bs[i + 2..]));
  }

  lemma Regroup(l: seq<int>, a: int, b: int, r: seq<int>)
    ensures l + [a] + ([b] + r) == l + [a, b] + r
  {
  }

  lemma HeadAddrs(t: seq<Block>)
    requires t != [] && t[0].free
    ensures FreeAddrs(t) == [t[0].addr] + FreeAddrs(t[1..])
  {
    Around(t, 0);
    assert FreeAddrs(t[..0]) == [];
  }

  lemma MergedAddrs(bs: seq<Block>, i: int)
    requires 0 <= i < |bs| - 1
    ensures FreeAddrs(Merge(HDR, bs, i, true)) == FreeAddrs(bs[..i]) + [bs[i].addr] + FreeAddrs(bs[i + 2..])
  {
    var m := Block(bs[i].addr, bs[i].size + HDR + bs[i + 1].size, true);
    SpliceAddrs(bs, i, i + 2, [m]);
    PairAddrs(m, m);
  }

  lemma DropSecond(l: seq<int>, a: int, b: int, r: seq<int>)
    ensures var fl, k := l + [a, b] + r, |l|;
            fl[k] == a && fl[k + 1] == b && fl[..k + 1] + fl[k + 2..] == l + [a] + r
  {
  }

  lemma SwapEntry(l: seq<int>, a: int, b: int, r: seq<int>)
    ensures var fl, k := l + [a] + r, |l|;
            fl[k] == a && fl[k := b] == l + [b] + r
  {
  }

  /** Taking a whole block off the list. */
  lemma TakeOk(size: map<int, int>, flag: map<int, bool>, next: map<int, int>, head: int,
               bs: seq<Block>, lo: int, hi: int, i: int)
    requires 0 <= i < |bs| && Threaded(size, flag, next, head, bs, lo, hi) && bs[i].free
    ensures var fl, k, a := FreeAddrs(bs), Rank(bs, i), bs[i].addr;
            Threaded(size, flag[a := false], Relink(next, At(fl, k - 1), At(fl, k + 1))[a := 0],
                     Head(head, At(fl, k - 1), At(fl, k + 1)),
                     bs[i := bs[i].(free := false)], lo, hi)
  {
    var bs' := bs[i := bs[i].(free := false)];
    MarkTiled(bs, lo, hi, i, false);
    TakenAddrs(bs, i);
    NotListed(bs', lo, hi, i);
    TakenChain(next, head, FreeAddrs(bs), Rank(bs, i), bs[i].addr);
    MarkFields(size, flag, bs, lo, hi, i, false);
  }

  lemma TakenChain(next: map<int, int>, head: int, fl: seq<int>, k: int, a: int)
    requires Chain(next, head, fl) && 0 <= k < |fl| && a !in fl[..k] + fl[k + 1..]
    ensures Chain(Relink(next, At(fl, k - 1), At(fl, k + 1))[a := 0], Head(head, At(fl, k - 1), At(fl, k + 1)),
                  fl[..k] + fl[k + 1..])
  {
    ChainRemove(next, head, fl, k);
    ChainFrame(Relink(next, At(fl, k - 1), At(fl, k + 1)), Head(head, At(fl, k - 1), At(fl, k + 1)),
               fl[..k] + fl[k + 1..], a, 0);
  }

  lemma TakenAddrs(bs: seq<Block>, i: int)
    requires 0 <= i < |bs| && bs[i].free
    ensures var fl, k := FreeAddrs(bs), Rank(bs, i);
            k < |fl| && fl[k] == bs[i].addr && FreeAddrs(bs[i := bs[i].(free := false)]) == fl[..k] + fl[k + 1..]
  {
    var bs' := bs[i := bs[i].(free := false)];
    Around(bs, i);
    Around(bs', i);
    assert bs'[..i] == bs[..i] && bs'[i + 1..] == bs[i + 1..];
    DropEntry(FreeAddrs(bs[..i]), bs[i].addr, FreeAddrs(bs[i + 1..]));
  }

  lemma DropEntry(l: seq<int>, a: int, r: seq<int>)
    ensures var fl, k := l + [a] + r, |l|;
            fl[k] == a && fl[..k] + fl[k + 1..] == l + [] + r
  {
  }

  lemma ChainFrame(next: map<int, int>, head: int, fl: seq<int>, a: int, v: int)
    requires Chain(next, head, fl) && a !in fl
    ensures Chain(next[a := v], head, fl)
  {
    var next' := next[a := v];
    forall k | 0 <= k < |fl|
      ensures Linked(next', fl, k)
    {
      assert Linked(next, fl, k);
    }
  }

  /** Cutting the front off a free block: the rest takes its place on the list. */
  lemma CutOk(size: map<int, int>, flag: map<int, bool>, next: map<int, int>, head: int,
              bs: seq<Block>, lo: int, hi: int, i: int, need: int)
    requires 0 <= i < |bs| && Threaded(size, flag, next, head, bs, lo, hi) && bs[i].free
    requires MIN_PAYLOAD <= need && need % 16 == 0 && Splits(HDR, bs[i].size, need)
    ensures var fl, k, a := FreeAddrs(bs), Rank(bs, i), bs[i].addr;
            var rem := a + HDR + need;
            Threaded(size[rem := bs[i].size - need - HDR][a := need], flag[rem := true][a := false],
                     Relink(next[rem := At(fl, k + 1)], At(fl, k - 1), rem)[a := 0], Head(head, At(fl, k - 1), rem),
                     Split(HDR, bs, i, need), lo, hi)
  {
    var fl, k, a := FreeAddrs(bs), Rank(bs, i), bs[i].addr;
    var rem, s := a + HDR + need, Split(HDR, bs, i, need);
    SplitTiled(HDR, bs, lo, hi, i, need);
    CutAddrs(bs, i, need);
    assert Sized(bs[i]);
    FreshHeader(bs, lo, hi, i, rem);
    FreeAddrsAre(bs, rem);
    ChainReplace(next, head, fl, k, rem);
    NotListed(s, lo, hi, i);
    ChainFrame(Relink(next[rem := At(fl, k + 1)], At(fl, k - 1), rem), Head(head, At(fl, k - 1), rem), FreeAddrs(s),
               a, 0);
    CutFields(size, flag, bs, lo, hi, i, need);
  }

  lemma FreshHeader(bs: seq<Block>, lo: int, hi: int, i: int, x: int)
    requires Tiled(HDR, bs, lo, hi) && 0 <= i < |bs| && bs[i].addr < x < End(HDR, bs[i])
    ensures forall k :: 0 <= k < |bs| ==> bs[k].addr != x
  {
    forall k | 0 <= k < |bs|
      ensures bs[k].addr != x
    {
      assert Sized(bs[k]);
      if k != i { PayloadsDisjoint(HDR, bs, lo, hi, k, i); }
    }
  }

  lemma CutAddrs(bs: seq<Block>, i: int, need: int)
    requires 0 <= i < |bs| && bs[i].free && Splits(HDR, bs[i].size, need)
    ensures var fl, k := FreeAddrs(bs), Rank(bs, i);
            k < |fl| && fl[k] == bs[i].addr && FreeAddrs(Split(HDR, bs, i, need)) == fl[k := bs[i].addr + HDR + need]
  {
    var t := bs[i].addr + HDR + need;
    Around(bs, i);
    CutList(bs, i, Block(bs[i].addr, need, false), Block(t, bs[i].size - need - HDR, true));
    SwapEntry(FreeAddrs(bs[..i]), bs[i].addr, t, FreeAddrs(bs[i + 1..]));
  }

  lemma CutList(bs: seq<Block>, i: int, f: Block, t: Block)
    requires 0 <= i < |bs| && !f.free && t.free
    ensures FreeAddrs(Splice(bs, i, i + 1, [f, t])) == FreeAddrs(bs[..i]) + [t.addr] + FreeAddrs(bs[i + 1..])
  {
    SpliceAddrs(bs, i, i + 1, [f, t]);
    PairAddrs(f, t);
  }

  lemma CutFields(size: map<int, int>, flag: map<int, bool>, bs: seq<Block>, lo: int, hi: int, i: int, need: int)
    requires 0 <= i < |bs| && Tiled(HDR, bs, lo, hi) && Splits(HDR, bs[i].size, need) && need >= MIN_PAYLOAD
    requires FieldsOk(size, flag, bs)
    ensures var a, s := bs[i].addr, Split(HDR, bs, i, need);
            var rem := a + HDR + need;
            FieldsOk(size[rem := bs[i].size - need - HDR][a := need], flag[rem := true][a := false], s)
  {
    var a, s := bs[i].addr, Split(HDR, bs, i, need);
    var rem := a + HDR + need;
    FreshHeader(bs, lo, hi, i, rem);
    var size', flag' := size[rem := bs[i].size - need - HDR][a := need], flag[rem := true][a := false];
    forall j | 0 <= j < |s|
      ensures BlockOk(size', flag', s, j)
    {
      if j != i && j != i + 1 {
        var j0 := if j < i then j else j - 1;
        assert s[j] == bs[j0] && BlockOk(size, flag, bs, j0);
        PayloadsDisjoint(HDR, bs, lo, hi, j0, i);
      }
    }
  }

  /** The entries below a used block are exactly those before its rank. */
  lemma RankSplits(bs: seq<Block>, lo: int, hi: int, i: int, k: int)
    requires Tiled(HDR, bs, lo, hi) && 0 <= i < |bs| && !bs[i].free && 0 <= k < |FreeAddrs(bs)|
    ensures Rank(bs, i) <= |FreeAddrs(bs)|
    ensures FreeAddrs(bs)[k] < bs[i].addr <==> k < Rank(bs, i)
  {
    var fl, l, r := FreeAddrs(bs), FreeAddrs(bs[..i]), FreeAddrs(bs[i + 1..]);
    Around(bs, i);
    assert fl == l + r;
    assert Sized(bs[i]);
    if k < |l| {
      assert fl[k] == l[k];
      Below(HDR, bs, lo, hi, i, fl[k]);
    } else {
      assert fl[k] == r[k - |l|];
      Above(HDR, bs, lo, hi, i, fl[k]);
    }
  }

  // ---- growing --------------------------------------------------------------------------

  /** heap_grow's page count; every addition wraps at 64 bits. */
  function Pages(need: int): int {
    var n := ((need + HDR) % WORD + PAGE - 1) % WORD / PAGE;
    if n == 0 then 1 else n
  }

  /** How many of the pages get mapped when `avail` frames can be had. */
  function Mapped(end: int, pages: int, avail: int): int {
    Min(pages, Min(avail, (HEAP_MAX - end) / PAGE))
  }

  /** As many pages as the request and its header fill, the last one at least in part. */
  lemma PagesExactly(need: int)
    requires 0 <= need && need + HDR + PAGE - 1 < WORD
    ensures (Pages(need) - 1) * PAGE < need + HDR <= Pages(need) * PAGE
  {
  }

  /** Every page asked for, unless memory or the address space ends before. */
  lemma MappedExactly(end: int, pages: int, avail: int)
    requires 0 <= pages && 0 <= avail && end <= HEAP_MAX
    ensures var m := Mapped(end, pages, avail);
            && 0 <= m <= pages && m <= avail && end + m * PAGE <= HEAP_MAX
            && (m == pages || m == avail || end + m * PAGE + PAGE > HEAP_MAX)
  {
  }

  function Fresh(end: int, m: int): Block {
    Block(end, m * PAGE - HDR, false)
  }

  /** The blocks after mapping `m` new pages at the end. */
  function Extended(bs: seq<Block>, end: int, m: int): seq<Block> {
    if m == 0 then bs else Freed(HDR, bs + [Fresh(end, m)], |bs|)
  }

  lemma FreshSized(end: int, m: int)
    requires m > 0 && end > 0 && end % PAGE == 0
    ensures Sized(Fresh(end, m)) && (end + m * PAGE) % PAGE == 0
  {
    assert end % 16 == 0;
    assert (m * PAGE - HDR) % 16 == 0;
  }

  lemma AppendOk(size: map<int, int>, flag: map<int, bool>, next: map<int, int>, head: int,
                 bs: seq<Block>, lo: int, end: int, m: int)
    requires Threaded(size, flag, next, head, bs, lo, end) && m > 0 && end > 0 && end % PAGE == 0
    ensures Threaded(size[end := m * PAGE - HDR], flag[end := false], next[end := 0], head,
                     bs + [Fresh(end, m)], lo, end + m * PAGE)
  {
    var b := Fresh(end, m);
    var bs', size', flag' := bs + [b], size[end := b.size], flag[end := false];
    AppendTiled(bs, lo, end, m);
    assert bs'[..|bs|] == bs && FreeAddrs(bs') == FreeAddrs(bs);
    forall k | 0 <= k < |bs|
      ensures bs[k].addr < end
    {
      InRange(HDR, bs, lo, end, k);
      assert Sized(bs[k]);
    }
    FreeAddrsAre(bs, end);
    ChainFrame(next, head, FreeAddrs(bs), end, 0);
    forall k | 0 <= k < |bs'|
      ensures BlockOk(size', flag', bs', k)
    {
      if k < |bs| { assert BlockOk(size, flag, bs, k); }
    }
  }

  /** The header that new pages cost: none when they continue a free last block. */
  function TailHeader(bs: seq<Block>): int {
    if bs != [] && bs[|bs| - 1].free then 0 else HDR
  }

  /** Growing adds free memory only, and exactly how much: the live blocks and their bytes stay, and
      nothing touches. */
  lemma ExtendedFacts(bs: seq<Block>, lo: int, end: int, m: int)
    requires Spans(bs, lo, end) && Tiled(HDR, bs + [Fresh(end, m)], lo, end + m * PAGE) && Coalesced(bs) && m > 0
    ensures Live(Extended(bs, end, m)) == Live(bs) && Coalesced(Extended(bs, end, m))
    ensures Payload(Extended(bs, end, m), false) == Payload(bs, false)
    ensures Payload(Extended(bs, end, m), true) == Payload(bs, true) + m * PAGE - TailHeader(bs)
  {
    var b := Fresh(end, m);
    var bs' := bs + [b];
    assert bs'[..|bs|] == bs;
    FreedLive(HDR, bs', lo, end + m * PAGE, |bs|);
    FreedCoalesced(HDR, bs', |bs|);
    FreedPayload(HDR, bs', |bs|);
    assert Payload(bs', true) == Payload(bs, true);
    NewIsNotOld(bs, lo, end, b);
    assert Live(bs') == Live(bs) + {b};
  }

  lemma NewIsNotOld(bs: seq<Block>, lo: int, end: int, b: Block)
    requires Spans(bs, lo, end) && b.addr == end
    ensures b !in bs
  {
    forall k | 0 <= k < |bs|
      ensures bs[k] != b
    {
      InRange(HDR, bs, lo, end, k);
      assert Sized(bs[k]);
    }
  }

  /** When every page asked for is mapped, the request fits: exy_malloc then fails only if some page is missing. */
  lemma FullGrowthFits(bs: seq<Block>, lo: int, end: int, need: int)
    requires Spans(bs, lo, end) && 0 <= need && need + HDR + PAGE - 1 < WORD
    ensures exists b :: b in Extended(bs, end, Pages(need)) && Fits(b, need)
  {
    var m := Pages(need);
    assert m * PAGE >= need + HDR;
    var s := bs + [Fresh(end, m).(free := true)];
    var r := Extended(bs, end, m);
    assert (bs + [Fresh(end, m)])[|bs| := Fresh(end, m).(free := true)] == s;
    if bs != [] && bs[|bs| - 1].free {
      assert r == Merge(HDR, s, |bs| - 1, true);
      assert Sized(bs[|bs| - 1]) && Fits(r[|bs| - 1], need);
    } else {
      assert r == s && Fits(r[|bs|], need);
    }
  }

  class Heap {
    var start: int
    var end: int
    var head: int
    var liveBytes: int
    var size: map<int, int>
    var flag: map<int, bool>
    var next: map<int, int>
    var data: map<int, int>
    ghost var blocks: seq<Block>

    ghost predicate Threads()
      reads this
    {
      Threaded(size, flag, next, head, blocks, start, end)
    }

    /** The heap invariant: tiled, threaded, coalesced and accounted for. */
    ghost predicate Valid()
      reads this
    {
      && Threads() && Coalesced(blocks) && liveBytes == Payload(blocks, false)
      && 0 < start <= end <= HEAP_MAX && start % PAGE == 0 && end % PAGE == 0
    }

    /** heap_init */
    constructor ()
      ensures Valid() && blocks == [] && end == HEAP_BASE
    {
      start, end, head, liveBytes := HEAP_BASE, HEAP_BASE, 0, 0;
      size, flag, next, data, blocks := map[], map[], map[], map[], [];
    }

    /** The search loop of free_list_insert. */
    method FindGap(blk: int, ghost i: int) returns (prev: int, cur: int)
      requires Threads() && 0 <= i < |blocks| && blocks[i].addr == blk && !blocks[i].free
      ensures prev == At(FreeAddrs(blocks), Rank(blocks, i) - 1)
      ensures cur == At(FreeAddrs(blocks), Rank(blocks, i))
    {
      ghost var fl, n, k := FreeAddrs(blocks), Rank(blocks, i), 0;
      Around(blocks, i);
      prev, cur := 0, head;
      while cur != 0 && cur < blk
        invariant 0 <= k <= n <= |fl| && cur == At(fl, k) && prev == At(fl, k - 1)
        decreases n - k
      {
        RankSplits(blocks, start, end, i, k);
        assert Linked(next, fl, k);
        prev, cur := cur, next[cur];
        k := k + 1;
      }
      if k < |fl| { RankSplits(blocks, start, end, i, k); }
    }

    method Link(blk: int, prev: int, cur: int)
      modifies this`flag, this`next, this`head, this`data
      ensures flag == old(flag)[blk := true]
      ensures next == Relink(old(next)[blk := cur], prev, blk) && head == Head(old(head), prev, blk)
      ensures Spared(HDR, old(data), data, if prev == 0 then {blk} else {blk, prev})
    {
      flag, next, data := flag[blk := true], next[blk := cur], Clobber(HDR, data, blk);
      if prev != 0 {
        next, data := next[prev := blk], Clobber(HDR, data, prev);
      } else {
        head := blk;
      }
    }

    /** The link step of free_list_insert. */
    method LinkIn(blk: int, prev: int, cur: int, ghost i: int)
      requires Threads() && 0 <= i < |blocks| && blocks[i].addr == blk && !blocks[i].free
      requires prev == At(FreeAddrs(blocks), Rank(blocks, i) - 1) && cur == At(FreeAddrs(blocks), Rank(blocks, i))
      modifies this`flag, this`next, this`head, this`data, this`blocks
      ensures Threads() && blocks == old(blocks)[i := old(blocks)[i].(free := true)]
      ensures prev == At(FreeAddrs(blocks), Rank(blocks, i) - 1) && cur == At(FreeAddrs(blocks), Rank(blocks, i) + 1)
      ensures Spared(HDR, old(data), data, Headers(old(blocks)))
    {
      LinkOk(size, flag, next, head, blocks, start, end, i);
      MarkedNeighbours(blocks, i);
      EntryIsHeader(blocks, prev);
      assert blocks[i].addr in Headers(blocks);
      ghost var d0 := data;
      Link(blk, prev, cur);
      SparedMore(HDR, d0, data, if prev == 0 then {blk} else {blk, prev}, Headers(blocks));
      blocks := blocks[i := blocks[i].(free := true)];
    }

    /** A merge: `a` swallows its follower `b`. */
    method Join(a: int, b: int, ghost i: int)
      requires Threads() && 0 <= i < |blocks| - 1 && blocks[i].addr == a && blocks[i + 1].addr == b
      requires blocks[i].free && blocks[i + 1].free
      modifies this`size, this`next, this`data, this`blocks
      ensures Threads() && blocks == Merge(HDR, old(blocks), i, true)
      ensures Spared(HDR, old(data), data, Headers(old(blocks)))
    {
      JoinOk(size, flag, next, head, blocks, start, end, i);
      size, next, data := size[a := size[a] + HDR + size[b]], next[a := next[b]], Clobber(HDR, data, a);
      assert a in Headers(blocks);
      ClobberSpares(HDR, old(data), a, Headers(blocks));
      blocks := Merge(HDR, blocks, i, true);
    }

    /** The successor test of free_list_insert. */
    method JoinNext(blk: int, cur: int, ghost i: int)
      requires Threads() && 0 <= i < |blocks| && blocks[i].addr == blk && blocks[i].free
      requires cur == At(FreeAddrs(blocks), Rank(blocks, i) + 1)
      modifies this`size, this`next, this`data, this`blocks
      ensures Threads()
      ensures blocks == if i + 1 < |old(blocks)| && old(blocks)[i + 1].free then Merge(HDR, old(blocks), i, true)
                        else old(blocks)
      ensures At(FreeAddrs(blocks), Rank(blocks, i) - 1) == old(At(FreeAddrs(blocks), Rank(blocks, i) - 1))
      ensures Spared(HDR, old(data), data, Headers(old(blocks)))
    {
      NextIs(blocks, start, end, i);
      assert BlockOk(size, flag, blocks, i) && Sized(blocks[i]);
      if cur != 0 && blk + HDR + size[blk] == cur {
        JoinKeepsPrev(blocks, i);
        Join(blk, cur, i);
      }
    }

    /** The predecessor test of free_list_insert. */
    method JoinPrev(prev: int, blk: int, ghost i: int)
      requires Threads() && 0 <= i < |blocks| && blocks[i].addr == blk && blocks[i].free
      requires prev == At(FreeAddrs(blocks), Rank(blocks, i) - 1)
      modifies this`size, this`next, this`data, this`blocks
      ensures Threads()
      ensures blocks == if i > 0 && old(blocks)[i - 1].free then Merge(HDR, old(blocks), i - 1, true) else old(blocks)
      ensures Spared(HDR, old(data), data, Headers(old(blocks)))
    {
      ghost var j := PrevIs(blocks, start, end, i);
      if prev != 0 {
        assert BlockOk(size, flag, blocks, j);
        if prev + HDR + size[prev] == blk {
          Join(prev, blk, i - 1);
        }
      }
    }

    /** free_list_insert */
    method Insert(blk: int, ghost i: int)
      requires Threads() && 0 <= i < |blocks| && blocks[i].addr == blk && !blocks[i].free
      modifies this`size, this`flag, this`next, this`head, this`data, this`blocks
      ensures Threads() && blocks == Freed(HDR, old(blocks), i)
      ensures Spared(HDR, old(data), data, Headers(old(blocks)))
    {
      ghost var d0, heads := data, Headers(blocks);
      var prev, cur := FindGap(blk, i);
      LinkIn(blk, prev, cur, i);
      ghost var d1, bs1 := data, blocks;
      JoinNext(blk, cur, i);
      ghost var d2, bs2 := data, blocks;
      JoinPrev(prev, blk, i);
      assert bs1[i].addr == old(blocks)[i].addr;
      HeadersShrink(old(blocks), i);
      HeadersShrink(bs1, i);
      SparedTrans(HDR, d0, d1, d2, heads, Headers(bs1), heads);
      SparedTrans(HDR, d0, d2, data, heads, Headers(bs2), heads);
    }

    /** The first-fit walk of alloc_from_list. */
    method FindFit(need: int) returns (prev: int, cur: int, ghost i: int)
      requires Threads()
      ensures cur == 0 ==> forall b :: b in blocks ==> !Fits(b, need)
      ensures cur != 0 ==> 0 <= i < |blocks| && blocks[i].addr == cur && Fits(blocks[i], need)
      ensures cur != 0 ==> prev == At(FreeAddrs(blocks), Rank(blocks, i) - 1)
      ensures forall j :: 0 <= j < i <= |blocks| ==> !Fits(blocks[j], need)
    {
      ghost var fl, k, n := FreeAddrs(blocks), 0, 0;
      prev, cur := 0, head;
      while cur != 0
        invariant 0 <= n <= |blocks| && k == Rank(blocks, n) <= |fl| && cur == At(fl, k) && prev == At(fl, k - 1)
        invariant forall j :: 0 <= j < n ==> !Fits(blocks[j], need)
        decreases |fl| - k
      {
        i := NextFree(blocks, n);
        assert BlockOk(size, flag, blocks, i);
        if size[cur] >= need {
          return;
        }
        assert Linked(next, fl, k);
        prev, cur := cur, next[cur];
        k, n := k + 1, i + 1;
      }
      i := NextFree(blocks, n);
    }

    /** The list now continues at `v` behind `prev`. */
    method Redirect(prev: int, v: int)
      modifies this`next, this`head, this`data
      ensures next == Relink(old(next), prev, v) && head == Head(old(head), prev, v)
      ensures data == if prev == 0 then old(data) else Clobber(HDR, old(data), prev)
    {
      if prev != 0 {
        next, data := next[prev := v], Clobber(HDR, data, prev);
      } else {
        head := v;
      }
    }

    /** The block handed out is no longer free and no longer linked. */
    method Retire(cur: int)
      modifies this`flag, this`next, this`data
      ensures flag == old(flag)[cur := false] && next == old(next)[cur := 0] && data == Clobber(HDR, old(data), cur)
    {
      flag, next, data := flag[cur := false], next[cur := 0], Clobber(HDR, data, cur);
    }

    /** Unlink and hand out the whole block. */
    method TakeWhole(prev: int, cur: int, ghost i: int)
      requires Threads() && 0 <= i < |blocks| && blocks[i].addr == cur && blocks[i].free
      requires prev == At(FreeAddrs(blocks), Rank(blocks, i) - 1)
      modifies this`flag, this`next, this`head, this`data, this`blocks
      ensures Threads() && blocks == old(blocks)[i := old(blocks)[i].(free := false)]
      ensures Spared(HDR, old(data), data, Headers(old(blocks)))
    {
      TakeOk(size, flag, next, head, blocks, start, end, i);
      Listed(blocks, i);
      assert Linked(next, FreeAddrs(blocks), Rank(blocks, i));
      EntryIsHeader(blocks, prev);
      ghost var d0 := data;
      Redirect(prev, next[cur]);
      ghost var d1 := data;
      Retire(cur);
      TwoStores(d0, d1, prev, cur, Headers(blocks));
      blocks := blocks[i := blocks[i].(free := false)];
    }

    /** Hand out the front and leave the rest on the list. */
    method TakeFront(prev: int, cur: int, need: int, ghost i: int)
      requires Threads() && 0 <= i < |blocks| && blocks[i].addr == cur && blocks[i].free
      requires MIN_PAYLOAD <= need && need % 16 == 0 && Splits(HDR, blocks[i].size, need)
      requires prev == At(FreeAddrs(blocks), Rank(blocks, i) - 1)
      modifies this`size, this`flag, this`next, this`head, this`data, this`blocks
      ensures Threads() && blocks == Split(HDR, old(blocks), i, need)
      ensures Spared(HDR, old(data), data, Headers(old(blocks)) + Headers(blocks))
    {
      CutOk(size, flag, next, head, blocks, start, end, i, need);
      Listed(blocks, i);
      assert Linked(next, FreeAddrs(blocks), Rank(blocks, i)) && BlockOk(size, flag, blocks, i);
      EntryIsHeader(blocks, prev);
      ghost var heads := Headers(blocks) + Headers(Split(HDR, blocks, i, need));
      assert Split(HDR, blocks, i, need)[i + 1].addr in heads;
      ghost var d0 := data;
      var rem := cur + HDR + need;
      size, flag, next := size[rem := size[cur] - need - HDR], flag[rem := true], next[rem := next[cur]];
      size, data := size[cur := need], Clobber(HDR, data, rem);
      ghost var d1 := data;
      Redirect(prev, rem);
      ghost var d2 := data;
      Retire(cur);
      ThreeStores(d0, d1, d2, rem, prev, cur, heads);
      blocks := Split(HDR, blocks, i, need);
    }

    /** alloc_from_list */
    method AllocFromList(need: int) returns (r: int, ghost i: int)
      requires Valid() && MIN_PAYLOAD <= need && need % 16 == 0
      modifies this`size, this`flag, this`next, this`head, this`data, this`blocks, this`liveBytes
      ensures Valid()
      ensures r == 0 <==> forall b :: b in old(blocks) ==> !Fits(b, need)
      ensures r == 0 ==> blocks == old(blocks) && data == old(data)
      ensures r != 0 ==> Allocates(HDR, old(blocks), blocks, i, need, r)
      ensures Spared(HDR, old(data), data, Headers(old(blocks)) + Headers(blocks))
    {
      var prev, cur;
      prev, cur, i := FindFit(need);
      if cur == 0 {
        return 0, i;
      }
      SplitLive(HDR, blocks, i, need);
      SplitPayload(HDR, blocks, i, need);
      ghost var d0, heads := data, Headers(blocks);
      assert BlockOk(size, flag, blocks, i) && Sized(blocks[i]);
      if size[cur] - need >= HDR + MIN_PAYLOAD {
        TakeFront(prev, cur, need, i);
      } else {
        TakeWhole(prev, cur, i);
        SparedMore(HDR, d0, data, heads, heads + Headers(blocks));
      }
      assert BlockOk(size, flag, blocks, i);
      liveBytes := liveBytes + size[cur];
      r := cur + HDR;
    }

    /** heap_grow, when `avail` page frames can be had and mapped. */
    method Grow(need: int, avail: int) returns (ok: bool)
      requires Valid() && 0 <= need < WORD && 0 <= avail
      modifies this`size, this`flag, this`next, this`head, this`data, this`blocks, this`end
      ensures Valid()
      ensures var m := Mapped(old(end), Pages(need), avail);
              && ok == (m > 0) && end == old(end) + m * PAGE
              && blocks == Extended(old(blocks), old(end), m)
              && (m == 0 ==> data == old(data))
      ensures Live(blocks) == Live(old(blocks)) && Kept(HDR, old(data), data, Live(blocks))
    {
      var pages, mapped := Pages(need), 0;
      while mapped < pages
        invariant 0 <= mapped <= Mapped(end, pages, avail)
      {
        if end + mapped * PAGE + PAGE > HEAP_MAX || mapped == avail {
          break;
        }
        mapped := mapped + 1;
      }
      if mapped == 0 {
        return false;
      }
      AddPages(mapped);
      return true;
    }

    /** The block that heap_grow makes out of the new pages. */
    method AddPages(m: int)
      requires Valid() && m > 0 && end + m * PAGE <= HEAP_MAX
      modifies this`size, this`flag, this`next, this`head, this`data, this`blocks, this`end
      ensures Valid() && blocks == Extended(old(blocks), old(end), m) && end == old(end) + m * PAGE
      ensures Live(blocks) == Live(old(blocks)) && Kept(HDR, old(data), data, Live(blocks))
    {
      ghost var d0, bs, e := data, blocks, end;
      AppendTiled(bs, start, e, m);
      ExtendedFacts(bs, start, e, m);
      FreshSized(e, m);
      var base := end;
      Append(m);
      ghost var d1 := data;
      Insert(base, |bs|);
      GrowKept(d0, d1, data, bs, start, e, m);
    }

    method Append(m: int)
      requires Threads() && m > 0 && end > 0 && end % PAGE == 0
      modifies this`size, this`flag, this`next, this`data, this`blocks, this`end
      ensures Threads() && blocks == old(blocks) + [Fresh(old(end), m)] && end == old(end) + m * PAGE
      ensures data == Clobber(HDR, old(data), old(end))
    {
      AppendOk(size, flag, next, head, blocks, start, end, m);
      var base := end;
      end := base + m * PAGE;
      size, flag, next := size[base := m * PAGE - HDR], flag[base := false], next[base := 0];
      data := Clobber(HDR, data, base);
      blocks := blocks + [Fresh(base, m)];
    }

    /** exy_malloc */
    method Malloc(sz: int, avail: int) returns (r: int, ghost n: Block)
      requires Valid() && 0 <= sz < WORD && 0 <= avail
      modifies this`size, this`flag, this`next, this`head, this`data, this`blocks, this`end, this`liveBytes
      ensures Valid() && r % 16 == 0
      ensures r == 0 <==>
              sz == 0
              || (NoFit(old(blocks), Need(sz)) && NoFit(AfterGrowth(old(blocks), old(end), Need(sz), avail), Need(sz)))
      ensures r != 0 ==> n.addr + HDR == r && !n.free && n.size >= Need(sz) && n !in Live(old(blocks))
      ensures Live(blocks) == if r == 0 then Live(old(blocks)) else Live(old(blocks)) + {n}
      ensures Kept(HDR, old(data), data, Live(old(blocks)))
      ensures end >= old(end)
    {
      n := Block(0, 0, false);
      if sz == 0 {
        return 0, n;
      }
      NeedFacts(sz);
      var need := Need(sz);
      r, n := Carve(need);
      if r != 0 {
        return;
      }
      ghost var d0, live := data, Live(blocks);
      var ok := Grow(need, avail);
      if !ok {
        return 0, n;
      }
      ghost var d1 := data;
      r, n := Carve(need);
      KeptTrans(HDR, d0, d1, data, live, live);
    }

    /** alloc_from_list in terms of live blocks. */
    method Carve(need: int) returns (r: int, ghost n: Block)
      requires Valid() && MIN_PAYLOAD <= need && need % 16 == 0
      modifies this`size, this`flag, this`next, this`head, this`data, this`blocks, this`liveBytes
      ensures Valid() && r % 16 == 0
      ensures r == 0 <==> NoFit(old(blocks), need)
      ensures r == 0 ==> blocks == old(blocks) && data == old(data)
      ensures r != 0 ==> n.addr + HDR == r && !n.free && n.size >= need && n !in Live(old(blocks))
      ensures r != 0 ==> Live(blocks) == Live(old(blocks)) + {n}
      ensures Kept(HDR, old(data), data, Live(old(blocks)))
    {
      ghost var d0, bs, i := data, blocks, 0;
      r, i := AllocFromList(need);
      n := Block(0, 0, false);
      if r != 0 {
        n := blocks[i];
        CarveFacts(d0, data, bs, blocks, start, end, i, need, r);
      }
    }

    predicate Outside(p: int)
      reads this
    {
      p < start || p >= end
    }

    /** The caller passes null, a pointer outside the heap, or one the heap handed out. */
    ghost predicate Names(p: int, i: int)
      reads this
    {
      p == 0 || Outside(p) || (0 <= i < |blocks| && blocks[i].addr + HDR == p)
    }

    /** exy_free; a pointer outside the heap or a double free panics. */
    method Free(p: int, ghost i: int) returns (panic: bool)
      requires Valid() && Names(p, i)
      modifies this`size, this`flag, this`next, this`head, this`data, this`blocks, this`liveBytes
      ensures Valid()
      ensures panic <==> p != 0 && (p < old(start) || p >= old(end) || old(blocks)[i].free)
      ensures p == 0 || panic ==> blocks == old(blocks) && data == old(data)
      ensures p != 0 && !panic ==>
              blocks == Freed(HDR, old(blocks), i) && Live(blocks) == Live(old(blocks)) - {old(blocks)[i]}
      ensures Kept(HDR, old(data), data, Live(blocks))
    {
      if p == 0 {
        return false;
      }
      if Outside(p) {
        return true;
      }
      var blk := p - HDR;
      assert BlockOk(size, flag, blocks, i);
      if flag[blk] {
        return true;
      }
      GiveBack(blk, i);
      return false;
    }

    /** The last two steps of exy_free. */
    method GiveBack(blk: int, ghost i: int)
      requires Valid() && 0 <= i < |blocks| && blocks[i].addr == blk && !blocks[i].free
      modifies this`size, this`flag, this`next, this`head, this`data, this`blocks, this`liveBytes
      ensures Valid() && blocks == Freed(HDR, old(blocks), i) && Live(blocks) == Live(old(blocks)) - {old(blocks)[i]}
      ensures Kept(HDR, old(data), data, Live(blocks))
    {
      ghost var d0, bs := data, blocks;
      assert BlockOk(size, flag, blocks, i);
      FreedPayload(HDR, blocks, i);
      FreedCoalesced(HDR, blocks, i);
      FreedLive(HDR, blocks, start, end, i);
      liveBytes := liveBytes - size[blk];
      Insert(blk, i);
      FreedKept(d0, data, bs, blocks, start, end);
    }

    /** The byte loop of exy_realloc; bytes never written stay unwritten. */
    method Copy(dst: int, src: int, n: int)
      requires 0 <= n && (dst + n <= src || src + n <= dst)
      modifies this`data
      ensures Moved(old(data), data, src, dst, n)
      ensures forall lo, e :: e <= dst || dst + n <= lo ==> Same(old(data), data, lo, e)
    {
      var k := 0;
      while k < n
        invariant 0 <= k <= n
        invariant Moved(old(data), data, src, dst, k)
        invariant forall x :: x in old(data) && !(dst <= x < dst + n) ==> x in data && data[x] == old(data)[x]
        invariant forall x :: x in data && x !in old(data) ==> dst <= x < dst + n
      {
        data := if src + k in data then data[dst + k := data[src + k]] else data - {dst + k};
        k := k + 1;
      }
    }

    /** Copy a live block into another one and free it. */
    method MoveOver(p: int, r: int, len: int, ghost i: int, ghost j: int)
      requires Valid() && 0 <= i < |blocks| && 0 <= j < |blocks| && i != j && !blocks[i].free && !blocks[j].free
      requires blocks[i].addr + HDR == p && blocks[j].addr + HDR == r && 0 <= len <= blocks[i].size
               && len <= blocks[j].size
      modifies this`size, this`flag, this`next, this`head, this`data, this`blocks, this`liveBytes
      ensures Valid() && Live(blocks) == Live(old(blocks)) - {old(blocks)[i]}
      ensures Kept(HDR, old(data), data, Live(old(blocks)) - {old(blocks)[i], old(blocks)[j]})
      ensures Moved(old(data), data, p, r, len)
    {
      ghost var d0, bs := data, blocks;
      CopyPayload(p, r, len, i, j);
      ghost var d1 := data;
      Release(p, i);
      SurvivorsKept(HDR, d0, d1, data, bs, start, end, blocks, i, j, len);
    }

    method CopyPayload(p: int, r: int, len: int, ghost i: int, ghost j: int)
      requires Valid() && 0 <= i < |blocks| && 0 <= j < |blocks| && i != j
      requires blocks[i].addr + HDR == p && blocks[j].addr + HDR == r && 0 <= len <= blocks[i].size
               && len <= blocks[j].size
      modifies this`data
      ensures Valid() && Kept(HDR, old(data), data, Live(blocks) - {blocks[j]}) && Moved(old(data), data, p, r, len)
    {
      ghost var d0 := data;
      PayloadsDisjoint(HDR, blocks, start, end, i, j);
      Copy(r, p, len);
      CopySpares(HDR, d0, data, blocks, start, end, j, r, len);
    }

    /** exy_free of a live block. */
    method Release(p: int, ghost i: int)
      requires Valid() && 0 <= i < |blocks| && blocks[i].addr + HDR == p && !blocks[i].free
      modifies this`size, this`flag, this`next, this`head, this`data, this`blocks, this`liveBytes
      ensures Valid() && Live(blocks) == Live(old(blocks)) - {old(blocks)[i]}
      ensures Kept(HDR, old(data), data, Live(blocks))
    {
      InRange(HDR, blocks, start, end, i);
      assert Sized(blocks[i]);
      var panic := Free(p, i);
    }

    /** The growing branch of exy_realloc. */
    method Relocate(p: int, sz: int, avail: int, ghost i: int) returns (r: int, ghost n: Block)
      requires Valid() && 0 < sz < WORD && 0 <= avail && 0 <= i < |blocks| && blocks[i].addr + HDR == p
      requires !blocks[i].free && blocks[i].size < Need(sz)
      modifies this`size, this`flag, this`next, this`head, this`data, this`blocks, this`end, this`liveBytes
      ensures Valid()
      ensures r == 0 <==>
              NoFit(old(blocks), Need(sz))
              && NoFit(AfterGrowth(old(blocks), old(end), Need(sz), avail), Need(sz))
      ensures r == 0 ==> Live(blocks) == Live(old(blocks)) && Kept(HDR, old(data), data, Live(blocks))
      ensures r != 0 ==> Replaces(HDR, old(blocks), blocks, i, n, r, Need(sz))
      ensures r != 0 ==> Moved(old(data), data, p, r, old(blocks)[i].size)
      ensures Kept(HDR, old(data), data, Live(old(blocks)) - {old(blocks)[i]})
    {
      ghost var bs, d0, b := blocks, data, blocks[i];
      assert BlockOk(size, flag, blocks, i) && Sized(blocks[i]);
      var cur := size[p - HDR];
      r, n := Malloc(sz, avail);
      if r == 0 {
        return;
      }
      ghost var d1 := data;
      assert b in Live(blocks) && n in Live(blocks) && b != n;
      ghost var i1 :| 0 <= i1 < |blocks| && blocks[i1] == b;
      ghost var j :| 0 <= j < |blocks| && blocks[j] == n;
      MoveOver(p, r, cur, i1, j);
      RelocateKeeps(HDR, d0, d1, data, bs, i, n, r, cur);
    }

    /** exy_realloc; shrinking keeps the block. */
    method Realloc(p: int, sz: int, avail: int, ghost i: int) returns (panic: bool, r: int, ghost n: Block)
      requires Valid() && Names(p, i) && 0 <= sz < WORD && 0 <= avail
      modifies this`size, this`flag, this`next, this`head, this`data, this`blocks, this`end, this`liveBytes
      ensures Valid()
      ensures panic <==> p != 0 && (old(Outside(p)) || old(blocks)[i].free)
      ensures panic ==> blocks == old(blocks) && data == old(data)
      ensures p == 0 ==> Live(blocks) == if r == 0 then Live(old(blocks)) else Live(old(blocks)) + {n}
      ensures p == 0 ==> Kept(HDR, old(data), data, Live(old(blocks)))
      ensures p == 0 && sz > 0 ==>
                (r == 0 <==>
                 NoFit(old(blocks), Need(sz))
                 && NoFit(AfterGrowth(old(blocks), old(end), Need(sz), avail), Need(sz)))
      ensures p != 0 && !panic && sz == 0 ==> r == 0 && blocks == Freed(HDR, old(blocks), i)
      ensures p != 0 && !panic && sz > 0 && Need(sz) <= old(blocks)[i].size ==>
              r == p && blocks == old(blocks) && data == old(data)
      ensures p != 0 && !panic && sz > 0 && Need(sz) > old(blocks)[i].size ==>
                && (r == 0 <==>
                    NoFit(old(blocks), Need(sz))
                    && NoFit(AfterGrowth(old(blocks), old(end), Need(sz), avail), Need(sz)))
                && (r == 0 ==> Live(blocks) == Live(old(blocks)) && Kept(HDR, old(data), data, Live(blocks)))
                && (r != 0 ==> Replaces(HDR, old(blocks), blocks, i, n, r, Need(sz))
                               && Moved(old(data), data, p, r, old(blocks)[i].size))
      ensures p != 0 && !panic ==> Kept(HDR, old(data), data, Live(old(blocks)) - {old(blocks)[i]})
    {
      panic, r, n := false, 0, Block(0, 0, false);
      if p == 0 {
        r, n := Malloc(sz, avail);
        return;
      }
      if sz == 0 {
        panic := Free(p, i);
        return;
      }
      if Outside(p) {
        return true, 0, n;
      }
      assert BlockOk(size, flag, blocks, i);
      if flag[p - HDR] {
        return true, 0, n;
      }
      if Need(sz) <= size[p - HDR] {
        return false, p, n;
      }
      r, n := Relocate(p, sz, avail, i);
    }

    /** heap_free_bytes walks the list. */
    method FreeBytes() returns (sum: int)
      requires Valid()
      ensures sum == Payload(blocks, true)
      ensures liveBytes + sum + HDR * |blocks| == end - start
    {
      ghost var fl, k, n := FreeAddrs(blocks), 0, 0;
      sum := 0;
      var b := head;
      while b != 0
        invariant 0 <= n <= |blocks| && k == Rank(blocks, n) <= |fl| && b == At(fl, k)
        invariant sum == Payload(blocks[..n], true)
        decreases |fl| - k
      {
        ghost var i := NextFree(blocks, n);
        assert BlockOk(size, flag, blocks, i);
        FreePrefix(blocks, n, i);
        assert Linked(next, fl, k);
        sum := sum + size[b];
        b := next[b];
        k, n := k + 1, i + 1;
      }
      ghost var i := NextFree(blocks, n);
      FreePrefix(blocks, n, i);
      assert blocks[..|blocks|] == blocks;
      if blocks != [] { BytesConserved(HDR, blocks, start, end); }
    }

    /** heap_reserve: true says only that some page was mapped.  The bytes are there exactly when they
        were before or the pages mapped, less a header, make up for what was missing; all the pages
        asked for always do. */
    method Reserve(bytes: int, avail: int) returns (ok: bool)
      requires Valid() && 0 <= bytes < WORD && 0 <= avail
      modifies this`size, this`flag, this`next, this`head, this`data, this`blocks, this`end
      ensures Valid() && Live(blocks) == Live(old(blocks)) && Kept(HDR, old(data), data, Live(blocks))
      ensures var have := Payload(old(blocks), true);
              var m := Mapped(old(end), Pages(bytes - have), avail);
              && (ok <==> bytes == 0 || have >= bytes || m > 0)
              && (ok ==> (Payload(blocks, true) >= bytes
                          <==> have >= bytes || have + m * PAGE - TailHeader(old(blocks)) >= bytes))
              && (ok && m == Pages(bytes - have) && bytes + HDR + PAGE - 1 < WORD ==> Payload(blocks, true) >= bytes)
    {
      FreeIsNonNegative(blocks, start, end);
      if bytes == 0 {
        return true;
      }
      var have := FreeBytes();
      if have >= bytes {
        return true;
      }
      ghost var bs, e := blocks, end;
      ok := Grow(bytes - have, avail);
      if ok { ReserveFacts(bs, start, e, bytes - have, Mapped(e, Pages(bytes - have), avail)); }
    }
  }

  /** heap_reserve of three pages when one frame can be had: true, and fewer bytes free. */
  method PartialReserve() returns (ok: bool, free: int)
    ensures ok && free < 3 * PAGE
  {
    var h := new Heap();
    assert Payload(h.blocks, true) == 0;
    ok := h.Reserve(3 * PAGE, 1);
    assert Mapped(HEAP_BASE, Pages(3 * PAGE), 1) == 1;
    free := h.FreeBytes();
  }

  predicate NoFit(bs: seq<Block>, need: int) {
    forall b :: b in bs ==> !Fits(b, need)
  }

  function AfterGrowth(bs: seq<Block>, end: int, need: int, avail: int): seq<Block> {
    Extended(bs, end, Mapped(end, Pages(need), avail))
  }

  /** round_up and the minimum payload. */
  function Need(sz: int): int {
    var n := (sz + 15) % WORD / 16 * 16;
    if n < MIN_PAYLOAD then MIN_PAYLOAD else n
  }

  lemma NeedFacts(sz: int)
    requires 0 < sz < WORD
    ensures MIN_PAYLOAD <= Need(sz) < WORD && Need(sz) % 16 == 0
    ensures Need(sz) >= sz <==> sz + 15 < WORD
    ensures sz + 15 < WORD ==> Need(sz) < sz + 16
  {
    if sz + 15 >= WORD { assert (sz + 15) % WORD == sz + 15 - WORD; }
  }

  lemma GrowKept(d0: map<int, int>, d1: map<int, int>, d2: map<int, int>, bs: seq<Block>, lo: int, end: int, m: int)
    requires Spans(bs, lo, end) && Tiled(HDR, bs + [Fresh(end, m)], lo, end + m * PAGE)
    requires d1 == Clobber(HDR, d0, end) && Spared(HDR, d1, d2, Headers(bs + [Fresh(end, m)]))
    ensures Kept(HDR, d0, d2, Live(bs))
  {
    var bs1 := bs + [Fresh(end, m)];
    assert bs1[|bs|].addr in Headers(bs1);
    ClobberSpares(HDR, d0, end, Headers(bs1));
    SparedTrans(HDR, d0, d1, d2, Headers(bs1), Headers(bs1), Headers(bs1));
    assert forall k :: 0 <= k < |bs| ==> bs[k] == bs1[k];
    assert Headers(bs) + Headers(bs1) == Headers(bs1);
    SparedKept(HDR, d0, d2, bs, lo, end, bs1, lo, end + m * PAGE);
    assert Live(bs) * Live(bs1) == Live(bs);
  }

  lemma FreePrefix(bs: seq<Block>, n: int, i: int)
    requires 0 <= n <= i <= |bs| && forall j :: n <= j < i ==> !bs[j].free
    ensures Payload(bs[..i], true) == Payload(bs[..n], true)
    ensures i < |bs| && bs[i].free ==> Payload(bs[..i + 1], true) == Payload(bs[..n], true) + bs[i].size
    decreases i - n
  {
    if n < i {
      FreePrefix(bs, n, i - 1);
      assert bs[..i][..i - 1] == bs[..i - 1];
    }
    if i < |bs| { assert bs[..i + 1][..i] == bs[..i]; }
  }

  lemma {:induction false} FreeIsNonNegative(bs: seq<Block>, lo: int, hi: int)
    requires Spans(bs, lo, hi)
    ensures Payload(bs, true) >= 0
  {
    if bs != [] {
      var front := bs[..|bs| - 1];
      assert Sized(bs[|bs| - 1]);
      if front != [] {
        assert Touch(HDR, bs, |bs| - 2);
        forall k | 0 <= k < |front| - 1
          ensures Touch(HDR, front, k)
        {
          assert Touch(HDR, bs, k);
        }
        FreeIsNonNegative(front, lo, bs[|bs| - 1].addr);
      }
    }
  }

  lemma ReserveFacts(bs: seq<Block>, lo: int, end: int, need: int, m: int)
    requires Spans(bs, lo, end) && Coalesced(bs) && m > 0 && end > 0 && end % PAGE == 0 && 0 <= need
    ensures Payload(Extended(bs, end, m), true) == Payload(bs, true) + m * PAGE - TailHeader(bs)
    ensures m == Pages(need) && need + HDR + PAGE - 1 < WORD ==> m * PAGE - HDR >= need
  {
    AppendTiled(bs, lo, end, m);
    ExtendedFacts(bs, lo, end, m);
  }

  lemma AppendTiled(bs: seq<Block>, lo: int, end: int, m: int)
    requires Spans(bs, lo, end) && m > 0 && end > 0 && end % PAGE == 0
    ensures Tiled(HDR, bs + [Fresh(end, m)], lo, end + m * PAGE)
  {
    var bs' := bs + [Fresh(end, m)];
    FreshSized(end, m);
    forall k | 0 <= k < |bs'| - 1
      ensures Touch(HDR, bs', k)
    {
      if k < |bs| - 1 { assert Touch(HDR, bs, k); }
    }
  }

  lemma CarveFacts(d: map<int, int>, d': map<int, int>, bs: seq<Block>, bs': seq<Block>, lo: int, hi: int, i: int,
                   need: int, r: int)
    requires Tiled(HDR, bs, lo, hi) && Tiled(HDR, bs', lo, hi) && Allocates(HDR, bs, bs', i, need, r) && i < |bs'|
    requires Spared(HDR, d, d', Headers(bs) + Headers(bs'))
    ensures bs'[i].addr + HDR == r && !bs'[i].free && bs'[i].size >= need && bs'[i] !in Live(bs) && r % 16 == 0
    ensures Live(bs') == Live(bs) + {bs'[i]} && Kept(HDR, d, d', Live(bs))
  {
    SplitLive(HDR, bs, i, need);
    NotSeenBefore(HDR, bs, lo, hi, i, need);
    SparedKept(HDR, d, d', bs, lo, hi, bs', lo, hi);
    assert Live(bs) * Live(bs') == Live(bs);
    assert Sized(bs[i]);
  }

  lemma FreedKept(d: map<int, int>, d': map<int, int>, bs: seq<Block>, bs': seq<Block>, lo: int, hi: int)
    requires Tiled(HDR, bs, lo, hi) && Spans(bs', lo, hi) && Live(bs') <= Live(bs) && Spared(HDR, d, d', Headers(bs))
    ensures Kept(HDR, d, d', Live(bs'))
  {
    SparedMore(HDR, d, d', Headers(bs), Headers(bs) + Headers(bs'));
    SparedKept(HDR, d, d', bs, lo, hi, bs', lo, hi);
    assert Live(bs) * Live(bs') == Live(bs');
  }

  lemma TwoStores(d0: map<int, int>, d1: map<int, int>, prev: int, cur: int, heads: set<int>)
    requires cur in heads && (prev == 0 || prev in heads) && d1 == if prev == 0 then d0 else Clobber(HDR, d0, prev)
    ensures Spared(HDR, d0, Clobber(HDR, d1, cur), heads)
  {
    if prev != 0 { ClobberSpares(HDR, d0, prev, heads); }
    ClobberSpares(HDR, d1, cur, heads);
    SparedTrans(HDR, d0, d1, Clobber(HDR, d1, cur), heads, heads, heads);
  }

  lemma ThreeStores(d0: map<int, int>, d1: map<int, int>, d2: map<int, int>, rem: int, prev: int, cur: int,
                    heads: set<int>)
    requires rem in heads && cur in heads && (prev == 0 || prev in heads)
    requires d1 == Clobber(HDR, d0, rem) && d2 == if prev == 0 then d1 else Clobber(HDR, d1, prev)
    ensures Spared(HDR, d0, Clobber(HDR, d2, cur), heads)
  {
    ClobberSpares(HDR, d0, rem, heads);
    TwoStores(d1, d2, prev, cur, heads);
    SparedTrans(HDR, d0, d1, Clobber(HDR, d2, cur), heads, heads, heads);
  }

  lemma Listed(bs: seq<Block>, i: int)
    requires 0 <= i < |bs| && bs[i].free
    ensures Rank(bs, i) < |FreeAddrs(bs)| && FreeAddrs(bs)[Rank(bs, i)] == bs[i].addr && bs[i].addr in Headers(bs)
    ensures At(FreeAddrs(bs), Rank(bs, i) - 1) == 0 || At(FreeAddrs(bs), Rank(bs, i) - 1) in FreeAddrs(bs)
  {
    Around(bs, i);
  }

  /** The block behind the list entry reached after the blocks before `n`. */
  lemma NextFree(bs: seq<Block>, n: int) returns (i: int)
    requires 0 <= n <= |bs|
    ensures Rank(bs, n) <= |FreeAddrs(bs)| && n <= i <= |bs|
    ensures Rank(bs, n) < |FreeAddrs(bs)| ==> i < |bs| && bs[i].free && FreeAddrs(bs)[Rank(bs, n)] == bs[i].addr
    ensures i < |bs| ==>
            Rank(bs, i) == Rank(bs, n) && Rank(bs, i + 1) == Rank(bs, n) + 1
            && Rank(bs, i + 1) <= |FreeAddrs(bs)|
    ensures forall j :: n <= j < i ==> !bs[j].free
  {
    i := SkipUsed(bs, n);
    if i < |bs| {
      Around(bs, i);
      assert bs[..i + 1][..i] == bs[..i];
    } else {
      assert bs[..i] == bs;
    }
  }

  lemma MarkedNeighbours(bs: seq<Block>, i: int)
    requires 0 <= i < |bs| && !bs[i].free
    ensures var fl, k, bs' := FreeAddrs(bs), Rank(bs, i), bs[i := bs[i].(free := true)];
            Rank(bs', i) == k && At(FreeAddrs(bs'), k - 1) == At(fl, k - 1) && At(FreeAddrs(bs'), k + 1) == At(fl, k)
    ensures At(FreeAddrs(bs), Rank(bs, i) - 1) == 0 || At(FreeAddrs(bs), Rank(bs, i) - 1) in FreeAddrs(bs)
  {
    MarkedAddrs(bs, i);
    assert bs[i := bs[i].(free := true)][..i] == bs[..i];
  }

  lemma NextIs(bs: seq<Block>, lo: int, hi: int, i: int)
    requires Tiled(HDR, bs, lo, hi) && 0 <= i < |bs| && bs[i].free
    ensures At(FreeAddrs(bs), Rank(bs, i) + 1) == End(HDR, bs[i]) <==> i + 1 < |bs| && bs[i + 1].free
    ensures i + 1 < |bs| ==> bs[i + 1].addr == End(HDR, bs[i])
  {
    Around(bs, i);
    NextEntry(HDR, bs, lo, hi, i);
    assert i + 1 < |bs| ==> Touch(HDR, bs, i);
  }

  lemma PrevIs(bs: seq<Block>, lo: int, hi: int, i: int) returns (j: int)
    requires Tiled(HDR, bs, lo, hi) && 0 <= i < |bs| && bs[i].free
    ensures At(FreeAddrs(bs), Rank(bs, i) - 1) != 0 ==>
              0 <= j < i && bs[j].free && bs[j].addr == At(FreeAddrs(bs), Rank(bs, i) - 1)
              && (End(HDR, bs[j]) == bs[i].addr <==> bs[i - 1].free) && (bs[i - 1].free ==> j == i - 1)
    ensures At(FreeAddrs(bs), Rank(bs, i) - 1) == 0 ==> i == 0 || !bs[i - 1].free
  {
    var l := FreeAddrs(bs[..i]);
    j := 0;
    Around(bs, i);
    if i > 0 { PrevEntry(HDR, bs, lo, hi, i); }
    if l != [] {
      var p := l[|l| - 1];
      Below(HDR, bs, lo, hi, i, p);
      FreeAddrsAre(bs[..i], p);
      j :| 0 <= j < i && bs[..i][j].free && bs[..i][j].addr == p;
      if bs[i - 1].free {
        if j != i - 1 { PayloadsDisjoint(HDR, bs, lo, hi, j, i - 1); }
        assert Touch(HDR, bs, i - 1);
      }
    }
  }

  lemma JoinKeepsPrev(bs: seq<Block>, i: int)
    requires 0 <= i < |bs| - 1 && bs[i].free && bs[i + 1].free
    ensures var m := Merge(HDR, bs, i, true);
            Rank(m, i) == Rank(bs, i) && At(FreeAddrs(m), Rank(bs, i) - 1) == At(FreeAddrs(bs), Rank(bs, i) - 1)
  {
    JoinedAddrs(bs, i);
    assert Merge(HDR, bs, i, true)[..i] == bs[..i];
  }

  lemma HeadersShrink(bs: seq<Block>, i: int)
    requires 0 <= i < |bs|
    ensures i + 1 < |bs| ==> Headers(Merge(HDR, bs, i, true)) <= Headers(bs)
    ensures Headers(bs[i := bs[i].(free := true)]) == Headers(bs)
  {
    var s := bs[i := bs[i].(free := true)];
    assert forall k :: 0 <= k < |bs| ==> s[k].addr == bs[k].addr;
  }

  lemma EntryIsHeader(bs: seq<Block>, a: int)
    requires a == 0 || a in FreeAddrs(bs)
    ensures a == 0 || a in Headers(bs)
  {
    FreeAddrsAre(bs, a);
  }
}
