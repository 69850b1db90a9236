/** The kernel heap's free list (src/kernel/core/heap.c) seen as a chain of `next` links through
    the free blocks of a tiled range, in address order. */
module FreeList {
  import opened Tiling

  function At(fl: seq<int>, k: int): int {
    if 0 <= k < |fl| then fl[k] else 0
  }

  ghost predicate Distinct(fl: seq<int>) {
    forall i, j :: 0 <= i < j < |fl| ==> fl[i] != fl[j]
  }

  ghost predicate Linked(next: map<int, int>, fl: seq<int>, k: int)
    requires 0 <= k < |fl|
  {
    fl[k] in next && next[fl[k]] == At(fl, k + 1)
  }

  /** `head` and the links visit exactly `fl`. */
  ghost predicate Chain(next: map<int, int>, head: int, fl: seq<int>) {
    && head == At(fl, 0)
    && Distinct(fl) && 0 !in fl
    && (forall k :: 0 <= k < |fl| ==> Linked(next, fl, k))
  }

  /** The source's store through `prev`, or to the list head when there is none. */
  function Relink(next: map<int, int>, prev: int, v: int): map<int, int> {
    if prev == 0 then next else next[prev := v]
  }

  function Head(head: int, prev: int, v: int): int {
    if prev == 0 then v else head
  }

  lemma ChainInsert(next: map<int, int>, head: int, fl: seq<int>, k: int, a: int)
    requires Chain(next, head, fl) && 0 <= k <= |fl| && a !in fl && a != 0
    ensures Chain(Relink(next[a := At(fl, k)], At(fl, k - 1), a), Head(head, At(fl, k - 1), a), fl[..k] + [a] + fl[k..])
  {
    var fl' := fl[..k] + [a] + fl[k..];
    var next' := Relink(next[a := At(fl, k)], At(fl, k - 1), a);
    forall j | 0 <= j < |fl'|
      ensures Linked(next', fl', j)
    {
      if j < k { assert Linked(next, fl, j); }
      if j > k { assert Linked(next, fl, j - 1); }
    }
  }

  /** Taking an entry out keeps the others distinct. */
  lemma WithoutDistinct(fl: seq<int>, k: int)
    requires Distinct(fl) && 0 !in fl && 0 <= k < |fl|
    ensures Distinct(fl[..k] + fl[k + 1..]) && 0 !in fl[..k] + fl[k + 1..]
  {
    var fl' := fl[..k] + fl[k + 1..];
    forall i, j | 0 <= i < j < |fl'|
      ensures fl'[i] != fl'[j]
    {
      var i0, j0 := if i < k then i else i + 1, if j < k then j else j + 1;
      assert fl'[i] == fl[i0] && fl'[j] == fl[j0];
    }
  }

  /** Unlinking the entry after position `k`. */
  lemma ChainSkip(next: map<int, int>, head: int, fl: seq<int>, k: int)
    requires Chain(next, head, fl) && 0 <= k < |fl| - 1 && fl[k + 1] in next
    ensures Chain(next[fl[k] := next[fl[k + 1]]], head, fl[..k + 1] + fl[k + 2..])
  {
    var fl', next' := fl[..k + 1] + fl[k + 2..], next[fl[k] := next[fl[k + 1]]];
    WithoutDistinct(fl, k + 1);
    forall j | 0 <= j < |fl'|
      ensures Linked(next', fl', j)
    {
      var j0 := if j <= k then j else j + 1;
      assert fl'[j] == fl[j0];
      assert Linked(next, fl, j0) && Linked(next, fl, k + 1);
      assert At(fl', j + 1) == if j < k then At(fl, j + 1) else At(fl, j + 2);
    }
  }

  lemma ChainRemove(next: map<int, int>, head: int, fl: seq<int>, k: int)
    requires Chain(next, head, fl) && 0 <= k < |fl|
    ensures Chain(Relink(next, At(fl, k - 1), At(fl, k + 1)), Head(head, At(fl, k - 1), At(fl, k + 1)),
                  fl[..k] + fl[k + 1..])
  {
    var fl', next' := fl[..k] + fl[k + 1..], Relink(next, At(fl, k - 1), At(fl, k + 1));
    WithoutDistinct(fl, k);
    forall j | 0 <= j < |fl'|
      ensures Linked(next', fl', j)
    {
      var j0 := if j < k then j else j + 1;
      assert fl'[j] == fl[j0];
      assert Linked(next, fl, j0);
      assert At(fl', j + 1) == if j < k - 1 then At(fl, j + 1) else At(fl, j + 2);
    }
  }

  lemma ChainReplace(next: map<int, int>, head: int, fl: seq<int>, k: int, a: int)
    requires Chain(next, head, fl) && 0 <= k < |fl| && a !in fl && a != 0
    ensures Chain(Relink(next[a := At(fl, k + 1)], At(fl, k - 1), a), Head(head, At(fl, k - 1), a), fl[k := a])
  {
    var fl', next' := fl[k := a], Relink(next[a := At(fl, k + 1)], At(fl, k - 1), a);
    forall j | 0 <= j < |fl'|
      ensures Linked(next', fl', j)
    {
      assert Linked(next, fl, j);
    }
  }

  // ---- the free blocks of a tiling --------------------------------------------------

  /** The header addresses of the free blocks, in order. */
  function FreeAddrs(bs: seq<Block>): seq<int> {
    if bs == [] then []
    else FreeAddrs(bs[..|bs| - 1]) + if bs[|bs| - 1].free then [bs[|bs| - 1].addr] else []
  }

  lemma {:induction false} FreeAddrsConcat(a: seq<Block>, b: seq<Block>)
    ensures FreeAddrs(a + b) == FreeAddrs(a) + FreeAddrs(b)
    decreases |b|
  {
    if b == [] {
      assert a + b == a;
    } else {
      FreeAddrsConcat(a, b[..|b| - 1]);
      assert (a + b)[..|a + b| - 1] == a + b[..|b| - 1];
    }
  }

  /** The list around block `i`: the free blocks before it, itself if free, those after it. */
  lemma Around(bs: seq<Block>, i: int)
    requires 0 <= i < |bs|
    ensures FreeAddrs(bs) == FreeAddrs(bs[..i]) + (if bs[i].free then [bs[i].addr] else []) + FreeAddrs(bs[i + 1..])
  {
    AroundParts(bs[..i], bs[i], bs[i + 1..]);
    assert bs == bs[..i] + [bs[i]] + bs[i + 1..];
  }

  lemma AroundParts(a: seq<Block>, b: Block, c: seq<Block>)
    ensures FreeAddrs(a + [b] + c) == FreeAddrs(a) + (if b.free then [b.addr] else []) + FreeAddrs(c)
  {
    FreeAddrsConcat(a + [b], c);
    assert (a + [b])[..|a|] == a;
  }

  /** Every list entry is a free block of the tiling, and the other way round. */
  lemma {:induction false} FreeAddrsAre(bs: seq<Block>, a: int)
    ensures a in FreeAddrs(bs) <==> exists k :: 0 <= k < |bs| && bs[k].free && bs[k].addr == a
  {
    if bs != [] {
      var front := bs[..|bs| - 1];
      FreeAddrsAre(front, a);
      if exists k :: 0 <= k < |bs| && bs[k].free && bs[k].addr == a {
        var k :| 0 <= k < |bs| && bs[k].free && bs[k].addr == a;
        if k < |bs| - 1 { assert front[k] == bs[k]; }
      }
      if a in FreeAddrs(front) {
        var k :| 0 <= k < |front| && front[k].free && front[k].addr == a;
        assert bs[k] == front[k];
      }
    }
  }

  /** Entries below block `i` come from the blocks before it. */
  lemma Below(h: int, bs: seq<Block>, lo: int, hi: int, i: int, a: int)
    requires Tiled(h, bs, lo, hi) && 0 <= i < |bs| && a in FreeAddrs(bs[..i])
    ensures 0 < a < bs[i].addr
  {
    FreeAddrsAre(bs[..i], a);
    var k :| 0 <= k < i && bs[..i][k].free && bs[..i][k].addr == a;
    assert Sized(bs[k]);
    Ordered(h, bs, lo, hi, k, i);
  }

  lemma Above(h: int, bs: seq<Block>, lo: int, hi: int, i: int, a: int)
    requires Tiled(h, bs, lo, hi) && 0 <= i < |bs| && a in FreeAddrs(bs[i + 1..])
    ensures End(h, bs[i]) <= a
  {
    var r := bs[i + 1..];
    FreeAddrsAre(r, a);
    var k :| 0 <= k < |r| && r[k].free && r[k].addr == a;
    Ordered(h, bs, lo, hi, i, i + 1 + k);
  }

  ghost predicate Sorted(fl: seq<int>) {
    forall i, j :: 0 <= i < j < |fl| ==> fl[i] < fl[j]
  }

  /** The free list is strictly sorted by address. */
  lemma {:induction false} FreeAddrsSorted(h: int, bs: seq<Block>, lo: int, hi: int, n: int)
    requires Tiled(h, bs, lo, hi) && 0 <= n <= |bs|
    ensures Sorted(FreeAddrs(bs[..n])) && forall k :: 0 <= k < |FreeAddrs(bs[..n])| ==> FreeAddrs(bs[..n])[k] > 0
  {
    if n > 0 {
      FreeAddrsSorted(h, bs, lo, hi, n - 1);
      var f, g := FreeAddrs(bs[..n - 1]), FreeAddrs(bs[..n]);
      assert bs[..n][..n - 1] == bs[..n - 1];
      assert Sized(bs[n - 1]);
      forall k | 0 <= k < |f|
        ensures f[k] < bs[n - 1].addr
      {
        Below(h, bs, lo, hi, n - 1, f[k]);
      }
      assert g == f + if bs[n - 1].free then [bs[n - 1].addr] else [];
    }
  }

  /** The next entry is the next block exactly when that block is free. */
  lemma NextEntry(h: int, bs: seq<Block>, lo: int, hi: int, i: int)
    requires Tiled(h, bs, lo, hi) && 0 <= i < |bs|
    ensures At(FreeAddrs(bs[i + 1..]), 0) == End(h, bs[i]) <==> i + 1 < |bs| && bs[i + 1].free
  {
    var r := bs[i + 1..];
    assert Sized(bs[i]);
    if i + 1 < |bs| {
      assert Touch(h, bs, i);
      Around(r, 0);
      assert r[..0] == [] && r[1..] == bs[i + 2..];
      var t := FreeAddrs(bs[i + 2..]);
      assert Sized(bs[i + 1]);
      if t != [] { Above(h, bs, lo, hi, i + 1, t[0]); }
    }
  }

  /** The previous entry ends here exactly when the block before is free. */
  lemma PrevEntry(h: int, bs: seq<Block>, lo: int, hi: int, i: int)
    requires Tiled(h, bs, lo, hi) && 0 < i < |bs|
    ensures bs[i - 1].free ==> FreeAddrs(bs[..i]) == FreeAddrs(bs[..i - 1]) + [bs[i - 1].addr]
    ensures !bs[i - 1].free ==> forall k :: 0 <= k < i && bs[k].free ==> End(h, bs[k]) < bs[i].addr
  {
    assert bs[..i][..i - 1] == bs[..i - 1];
    assert Touch(h, bs, i - 1);
    if !bs[i - 1].free {
      forall k | 0 <= k < i && bs[k].free
        ensures End(h, bs[k]) < bs[i].addr
      {
        Ordered(h, bs, lo, hi, k, i - 1);
        assert Sized(bs[i - 1]);
      }
    }
  }

  /** The first free block at or after `n`. */
  lemma SkipUsed(bs: seq<Block>, n: int) returns (i: int)
    requires 0 <= n <= |bs|
    ensures n <= i <= |bs| && FreeAddrs(bs[..i]) == FreeAddrs(bs[..n])
    ensures i < |bs| ==> bs[i].free
    ensures forall j :: n <= j < i ==> !bs[j].free
    decreases |bs| - n
  {
    if n == |bs| || bs[n].free {
      return n;
    }
    assert bs[..n + 1][..n] == bs[..n];
    i := SkipUsed(bs, n + 1);
  }

  lemma SpliceAddrs(bs: seq<Block>, i: int, j: int, mid: seq<Block>)
    requires 0 <= i <= j <= |bs|
    ensures FreeAddrs(Splice(bs, i, j, mid)) == FreeAddrs(bs[..i]) + FreeAddrs(mid) + FreeAddrs(bs[j..])
  {
    FreeAddrsConcat(bs[..i], mid);
    FreeAddrsConcat(bs[..i] + mid, bs[j..]);
  }

  lemma PairAddrs(a: Block, b: Block)
    ensures FreeAddrs([a]) == if a.free then [a.addr] else []
    ensures FreeAddrs([a, b]) == (if a.free then [a.addr] else []) + (if b.free then [b.addr] else [])
  {
    assert [a][..0] == [] && [a, b][..1] == [a];
  }
}
