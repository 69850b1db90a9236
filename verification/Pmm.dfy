/** Physical page allocator (src/kernel/core/pmm.c): a bitmap of used pages with a
    parallel bitmap of permanently reserved ones. */
module Pmm {
  import opened Basics

  const PAGE_SIZE: nat := 4096
  const MAX_TRACKED: nat := 0x4000_0000

  /** One entry of the boot memory map; `usable` is type MEMORY_USABLE. */
  datatype Region = Region(base: nat, size: nat, usable: bool)

  /** No address computed from the region leaves 64 bits. */
  predicate NonWrapping(r: Region) {
    r.base + r.size + PAGE_SIZE <= WORD
  }

  /** Page `p` lies wholly inside `r`. */
  predicate Covers(r: Region, p: nat) {
    r.base <= p * PAGE_SIZE && (p + 1) * PAGE_SIZE <= r.base + r.size
  }

  /** Page `p` overlaps `r` (an empty region off a page boundary still counts). */
  predicate Touches(r: Region, p: nat) {
    r.base < (p + 1) * PAGE_SIZE && p * PAGE_SIZE < r.base + r.size
  }

  /** What the memory map says may be handed out. */
  ghost predicate Fit(regions: seq<Region>, p: nat) {
    && (exists r :: r in regions && r.usable && Covers(r, p))
    && (forall r :: r in regions && !r.usable ==> !Touches(r, p))
  }

  function RoundDown(a: nat): nat {
    a / PAGE_SIZE * PAGE_SIZE
  }

  function RoundUp(a: nat): nat {
    RoundDown(a + PAGE_SIZE - 1)
  }

  // ---- counting clear bits ------------------------------------------------

  function CountClear(s: seq<bool>): nat {
    if s == [] then 0 else CountClear(s[..|s|-1]) + (if s[|s|-1] then 0 else 1)
  }

  lemma {:induction false} CountAfterUpdate(s: seq<bool>, i: nat, b: bool)
    requires i < |s|
    ensures CountClear(s[i := b]) ==
            CountClear(s) + (if b then 0 else 1) - (if s[i] then 0 else 1)
  {
    var n := |s| - 1;
    if i == n {
      assert s[i := b][..n] == s[..n];
    } else {
      CountAfterUpdate(s[..n], i, b);
      assert s[i := b][..n] == s[..n][i := b];
    }
  }

  /** `count` consecutive clear bits starting at `start`. */
  ghost predicate FreeRun(s: seq<bool>, start: nat, count: nat) {
    start + count <= |s| && forall k :: start <= k < start + count ==> !s[k]
  }

  /** A run can never be longer than the number of clear bits, so the early exit of
      pmm_alloc_pages refuses only requests that no run could serve. */
  lemma {:induction false} RunFitsInCount(s: seq<bool>, start: nat, count: nat)
    requires FreeRun(s, start, count)
    ensures count <= CountClear(s)
  {
    if count > 0 {
      var n := |s| - 1;
      var t := s[..n];
      if start + count <= n {
        assert FreeRun(t, start, count);
        RunFitsInCount(t, start, count);
      } else {
        assert FreeRun(t, start, count - 1);
        RunFitsInCount(t, start, count - 1);
      }
    }
  }

  // ---- page arithmetic ----------------------------------------------------

  /** The two rounding rules select exactly the covered and the touched pages. */
  lemma RoundingSelects(r: Region, p: nat)
    ensures RoundUp(r.base) <= p * PAGE_SIZE < RoundDown(r.base + r.size) <==> Covers(r, p)
    ensures RoundDown(r.base) <= p * PAGE_SIZE < RoundUp(r.base + r.size) <==> Touches(r, p)
  {
  }

  class PageAllocator {
    const used: array<bool>
    const resv: array<bool>
    const totalPages: nat
    const maxPaddr: nat
    var freePages: nat
    const regions: seq<Region>

    /** Free count exact, reserved pages always used, page 0 reserved (address 0 means failure). */
    ghost predicate Valid()
      reads this, used, resv
    {
      && used != resv
      && used.Length == totalPages
      && resv.Length == totalPages
      && 0 < totalPages <= MAX_TRACKED / PAGE_SIZE
      && maxPaddr == totalPages * PAGE_SIZE
      && resv[0]
      && (forall p :: 0 <= p < totalPages && resv[p] ==> used[p])
      && freePages == CountClear(used[..])
    }

    /** Nothing that the memory map withholds can be handed out. */
    ghost predicate OnlyFitFree()
      reads this, used
    {
      used.Length == totalPages && forall p :: 0 <= p < totalPages && !used[p] ==> Fit(regions, p)
    }

    /** Page may be released: allocated and not permanently reserved. */
    ghost predicate Releasable(p: nat)
      reads this, used, resv
    {
      p < used.Length == resv.Length && used[p] && !resv[p]
    }

    static method UsableTop(regions: seq<Region>) returns (top: nat)
      ensures top % PAGE_SIZE == 0
      ensures forall r :: r in regions && r.usable ==> r.base + r.size <= top
      ensures top == 0 || exists r :: r in regions && r.usable && top < r.base + r.size + PAGE_SIZE
    {
      top := 0;
      for i := 0 to |regions|
        invariant forall k :: 0 <= k < i && regions[k].usable ==> regions[k].base + regions[k].size <= top
        invariant top == 0 || exists r :: r in regions && r.usable && top == r.base + r.size
      {
        if regions[i].usable && regions[i].base + regions[i].size > top {
          top := regions[i].base + regions[i].size;
        }
      }
      top := RoundUp(top);
    }

    /** pmm_init.  The panic of the source on a map without usable memory is the second requires. */
    constructor (regions: seq<Region>)
      requires forall r :: r in regions ==> NonWrapping(r)
      requires exists r :: r in regions && r.usable && 0 < r.base + r.size
      requires exists r :: r in regions && !r.usable && Touches(r, 0)
      ensures Valid() && OnlyFitFree() && fresh(used) && fresh(resv) && this.regions == regions
      ensures forall r :: r in regions && r.usable ==> r.base + r.size <= maxPaddr || maxPaddr == MAX_TRACKED
      ensures forall p :: 0 <= p < totalPages ==> (!used[p] <==> Fit(regions, p))
      ensures forall p :: 0 <= p < totalPages ==>
                (resv[p] <==> exists r :: r in regions && !r.usable && Touches(r, p))
    {
      var top := UsableTop(regions);
      assert 0 < top;
      if top > MAX_TRACKED {
        top := MAX_TRACKED;
      }
      assert 0 < top / PAGE_SIZE && top == top / PAGE_SIZE * PAGE_SIZE;
      this.regions := regions;
      maxPaddr := top;
      totalPages := top / PAGE_SIZE;
      used := new bool[top / PAGE_SIZE](_ => true);
      resv := new bool[top / PAGE_SIZE](_ => false);
      freePages := 0;
      new;
      FreeUsable();
      LockReserved();
      Recount();
      assert exists r :: r in regions && !r.usable && Touches(r, 0);
    }

    /** Pass 1 of pmm_init. */
    method FreeUsable()
      requires used != resv && used.Length == totalPages && maxPaddr == totalPages * PAGE_SIZE
      requires forall p :: 0 <= p < totalPages ==> used[p]
      modifies used
      ensures forall p :: 0 <= p < totalPages ==>
                (!used[p] <==> exists r :: r in regions && r.usable && Covers(r, p))
    {
      for i := 0 to |regions|
        invariant forall p :: 0 <= p < totalPages ==>
                    (!used[p] <==> exists k :: 0 <= k < i && regions[k].usable && Covers(regions[k], p))
      {
        if regions[i].usable {
          MarkUsable(regions[i]);
        }
      }
    }

    /** Pass 2 of pmm_init: reserved wins on overlap. */
    method LockReserved()
      requires used != resv && used.Length == resv.Length == totalPages && maxPaddr == totalPages * PAGE_SIZE
      requires forall p :: 0 <= p < totalPages ==> !resv[p]
      modifies used, resv
      ensures forall p :: 0 <= p < totalPages ==>
                (resv[p] <==> exists r :: r in regions && !r.usable && Touches(r, p))
      ensures forall p :: 0 <= p < totalPages ==> (used[p] <==> old(used[p]) || resv[p])
    {
      for i := 0 to |regions|
        invariant forall p :: 0 <= p < totalPages ==>
                    (resv[p] <==> exists k :: 0 <= k < i && !regions[k].usable && Touches(regions[k], p))
        invariant forall p :: 0 <= p < totalPages ==> (used[p] <==> old(used[p]) || resv[p])
      {
        if !regions[i].usable {
          MarkReserved(regions[i]);
        }
      }
    }

    method Recount()
      requires used.Length == totalPages
      modifies this
      ensures freePages == CountClear(used[..])
    {
      freePages := 0;
      for i := 0 to totalPages
        invariant freePages == CountClear(used[..i])
      {
        assert used[..i+1][..i] == used[..i];
        if !used[i] {
          freePages := freePages + 1;
        }
      }
      assert used[..totalPages] == used[..];
    }

    method MarkUsable(r: Region)
      requires used != resv && used.Length == totalPages && maxPaddr == totalPages * PAGE_SIZE
      modifies used
      ensures forall p :: 0 <= p < totalPages ==> used[p] == (old(used[p]) && !Covers(r, p))
    {
      var start := RoundUp(r.base);
      var end := RoundDown(r.base + r.size);
      if end > maxPaddr {
        end := maxPaddr;
      }
      var a := start;
      while a < end
        invariant a % PAGE_SIZE == 0 && start <= a
        invariant forall p :: 0 <= p < totalPages ==>
                    used[p] == (old(used[p]) && !(start <= p * PAGE_SIZE < a && p * PAGE_SIZE < end))
      {
        used[a / PAGE_SIZE] := false;
        a := a + PAGE_SIZE;
      }
      forall p | 0 <= p < totalPages
        ensures used[p] == (old(used[p]) && !Covers(r, p))
      {
        RoundingSelects(r, p);
      }
    }

    method MarkReserved(r: Region)
      requires used != resv && used.Length == resv.Length == totalPages && maxPaddr == totalPages * PAGE_SIZE
      modifies used, resv
      ensures forall p :: 0 <= p < totalPages ==> used[p] == (old(used[p]) || Touches(r, p))
      ensures forall p :: 0 <= p < totalPages ==> resv[p] == (old(resv[p]) || Touches(r, p))
    {
      var start := RoundDown(r.base);
      var end := RoundUp(r.base + r.size);
      if end > maxPaddr {
        end := maxPaddr;
      }
      var a := start;
      while a < end
        invariant a % PAGE_SIZE == 0 && start <= a
        invariant forall p :: 0 <= p < totalPages ==>
                    used[p] == (old(used[p]) || (start <= p * PAGE_SIZE < a && p * PAGE_SIZE < end))
        invariant forall p :: 0 <= p < totalPages ==>
                    resv[p] == (old(resv[p]) || (start <= p * PAGE_SIZE < a && p * PAGE_SIZE < end))
      {
        used[a / PAGE_SIZE] := true;
        resv[a / PAGE_SIZE] := true;
        a := a + PAGE_SIZE;
      }
      forall p | 0 <= p < totalPages
        ensures used[p] == (old(used[p]) || Touches(r, p))
        ensures resv[p] == (old(resv[p]) || Touches(r, p))
      {
        RoundingSelects(r, p);
      }
    }

    /** First fit: the lowest run of `count` free pages, or 0 exactly when there is none. */
    method AllocPages(count: nat) returns (pa: nat)
      requires Valid()
      modifies this, used
      ensures Valid()
      ensures pa % PAGE_SIZE == 0
      ensures pa == 0 <==> count == 0 || !(exists s :: FreeRun(old(used[..]), s, count))
      ensures pa == 0 ==> used[..] == old(used[..]) && freePages == old(freePages)
      ensures pa != 0 ==>
                && FreeRun(old(used[..]), pa / PAGE_SIZE, count)
                && (forall s :: 0 <= s < pa / PAGE_SIZE ==> !FreeRun(old(used[..]), s, count))
                && (forall p :: 0 <= p < totalPages ==>
                      used[p] == (old(used[p]) || pa / PAGE_SIZE <= p < pa / PAGE_SIZE + count))
                && freePages == old(freePages) - count
      ensures old(OnlyFitFree()) ==>
                && OnlyFitFree()
                && (pa != 0 ==> forall p :: pa / PAGE_SIZE <= p < pa / PAGE_SIZE + count ==> Fit(regions, p))
    {
      if count == 0 || count > freePages {
        forall s | FreeRun(used[..], s, count)
          ensures count == 0
        {
          RunFitsInCount(used[..], s, count);
        }
        return 0;
      }
      var run := 0;
      for i := 0 to totalPages
        invariant run <= i && run < count
        invariant forall k :: i - run <= k < i ==> !used[k]
        invariant run < i ==> used[i - run - 1]
        invariant forall s :: 0 <= s && s + count <= i ==> !FreeRun(used[..], s, count)
      {
        if used[i] {
          run := 0;
        } else {
          run := run + 1;
          if run == count {
            var start := i + 1 - count;
            assert !used[..][start] && used[0] && start > 0;
            assert FreeRun(used[..], start, count);
            TakeRun(start, count);
            pa := start * PAGE_SIZE;
            assert pa / PAGE_SIZE == start;
            assert forall k :: start <= k < start + count ==> !old(used[..])[k];
            return;
          }
        }
        forall s | 0 <= s && s + count == i + 1
          ensures !FreeRun(used[..], s, count)
        {
          if used[i] {
            assert used[..][i];
          } else {
            assert s <= i - run < s + count && used[..][i - run];
          }
        }
      }
      return 0;
    }

    /** The marking loop of pmm_alloc_pages. */
    method TakeRun(start: nat, count: nat)
      requires Valid() && FreeRun(used[..], start, count)
      modifies this, used
      ensures Valid() && freePages == old(freePages) - count
      ensures forall p :: 0 <= p < totalPages ==> used[p] == (old(used[p]) || start <= p < start + count)
    {
      assert forall k :: start <= k < start + count ==> !used[..][k];
      for j := 0 to count
        invariant forall p :: 0 <= p < totalPages ==> used[p] == (old(used[p]) || start <= p < start + j)
        invariant freePages == old(freePages) && CountClear(used[..]) == freePages - j
      {
        CountAfterUpdate(used[..], start + j, true);
        ghost var was := used[..];
        used[start + j] := true;
        assert used[..] == was[start + j := true];
      }
      freePages := freePages - count;
    }

    method AllocPage() returns (pa: nat)
      requires Valid()
      modifies this, used
      ensures Valid()
      ensures pa % PAGE_SIZE == 0
      ensures pa == 0 ==> old(freePages) == 0 && used[..] == old(used[..]) && freePages == old(freePages)
      ensures pa != 0 ==>
                && var f := pa / PAGE_SIZE;
                && 0 < f < totalPages && !old(used[f]) && Releasable(f)
                && used[..] == old(used[..])[f := true]
                && freePages == old(freePages) - 1
    {
      pa := AllocPages(1);
      ghost var f := pa / PAGE_SIZE;
      if pa != 0 {
        assert FreeRun(old(used[..]), f, 1) && !old(used[..])[f];
        assert used[..] == old(used[..])[f := true];
      } else if freePages > 0 {
        ClearBitExists(used[..]);
        ghost var s :| 0 <= s < |used[..]| && !used[..][s];
        assert FreeRun(used[..], s, 1);
      }
    }

    /** The validation loop of pmm_free_pages ends inside the bitmap: the byte count does not wrap, or
        a page that cannot be freed stops it. */
    ghost predicate StopsInside(page: nat, count: nat)
      reads this, used, resv
    {
      || page >= maxPaddr || page + count * PAGE_SIZE < WORD
      || exists p :: page / PAGE_SIZE <= p < totalPages && !Releasable(p)
    }

    /** The validation loop. */
    method AllReleasable(start: nat, count: nat, ghost stop: nat) returns (fine: bool)
      requires Valid() && start <= stop <= totalPages
      requires stop == start + count || (stop < totalPages && !Releasable(stop))
      ensures fine <==> start + count <= totalPages && forall p :: start <= p < start + count ==> used[p] && !resv[p]
    {
      for i := 0 to count
        invariant start + i <= stop
        invariant forall p :: start <= p < start + i ==> used[p] && !resv[p]
      {
        if resv[start + i] || !used[start + i] {
          return false;
        }
      }
      return true;
    }

    /** Releases a range if every page in it is allocated and unreserved, else changes nothing. */
    method FreePages(page: nat, count: nat) returns (ok: bool)
      requires Valid()
      requires page < WORD && count < WORD && StopsInside(page, count)
      modifies this, used
      ensures Valid()
      ensures ok <==>
              && count > 0 && page % PAGE_SIZE == 0 && page + count * PAGE_SIZE <= maxPaddr
              && (forall p :: page / PAGE_SIZE <= p < page / PAGE_SIZE + count ==> old(used[p]) && !resv[p])
      ensures !ok ==> used[..] == old(used[..]) && freePages == old(freePages)
      ensures ok ==> forall p :: 0 <= p < totalPages ==>
                       used[p] == (old(used[p]) && !(page / PAGE_SIZE <= p < page / PAGE_SIZE + count))
      ensures ok ==> freePages == old(freePages) + count
      ensures ok ==> (OnlyFitFree() <==>
                      && old(OnlyFitFree())
                      && (forall p :: page / PAGE_SIZE <= p < page / PAGE_SIZE + count ==> Fit(regions, p)))
    {
      if count == 0 || page % PAGE_SIZE != 0 || page >= maxPaddr || (page + count * PAGE_SIZE) % WORD > maxPaddr {
        return false;
      }
      var start := page / PAGE_SIZE;
      ghost var stop := start + count;
      if page + count * PAGE_SIZE >= WORD {
        stop :| start <= stop < totalPages && !Releasable(stop);
      }
      var fine := AllReleasable(start, count, stop);
      if !fine {
        return false;
      }
      for i := 0 to count
        invariant forall p :: 0 <= p < totalPages ==> used[p] == (old(used[p]) && !(start <= p < start + i))
        invariant freePages == old(freePages) && CountClear(used[..]) == freePages + i
      {
        CountAfterUpdate(used[..], start + i, false);
        ghost var was := used[..];
        used[start + i] := false;
        assert used[..] == was[start + i := false];
      }
      freePages := freePages + count;
      if OnlyFitFree() {
        assert forall p :: start <= p < start + count ==> !used[p];
      }
      return true;
    }

    method FreePage(page: nat) returns (ok: bool)
      requires Valid() && page < WORD
      modifies this, used
      ensures Valid()
      ensures ok <==> page % PAGE_SIZE == 0 && old(Releasable(page / PAGE_SIZE))
      ensures !ok ==> used[..] == old(used[..]) && freePages == old(freePages)
      ensures ok ==> used[..] == old(used[..])[page / PAGE_SIZE := false] && freePages == old(freePages) + 1
    {
      ok := FreePages(page, 1);
      if ok {
        assert used[..] == old(used[..])[page / PAGE_SIZE := false];
      }
    }
  }

  lemma {:induction false} ClearBitExists(s: seq<bool>)
    requires CountClear(s) > 0
    ensures exists i :: 0 <= i < |s| && !s[i]
  {
    var n := |s| - 1;
    if s[n] {
      ClearBitExists(s[..n]);
      var i :| 0 <= i < n && !s[..n][i];
      assert !s[i];
    }
  }

  const HOLE_MAP: seq<Region> :=
    [Region(0, PAGE_SIZE, false), Region(2 * PAGE_SIZE, PAGE_SIZE, true)]

  /** A page in a hole of the memory map is used but not reserved, so releasing it succeeds
      although nobody was given it; the allocator then hands out memory the map never offered. */
  method FreeingAHole() returns (freed: bool, pa: nat)
    ensures freed && pa == PAGE_SIZE && !Fit(HOLE_MAP, pa / PAGE_SIZE)
  {
    assert HOLE_MAP[1] in HOLE_MAP && HOLE_MAP[0] in HOLE_MAP && Touches(HOLE_MAP[0], 0);
    var pmm := new PageAllocator(HOLE_MAP);
    assert pmm.maxPaddr >= 3 * PAGE_SIZE;
    assert !Fit(HOLE_MAP, 1) && !Fit(HOLE_MAP, 0) && pmm.used[0] && pmm.used[1] && !pmm.resv[1];
    freed := pmm.FreePage(PAGE_SIZE);
    assert pmm.used[..][0] && !pmm.used[..][1] && FreeRun(pmm.used[..], 1, 1) && !FreeRun(pmm.used[..], 0, 1);
    ghost var before := pmm.used[..];
    pa := pmm.AllocPages(1);
    assert pa / PAGE_SIZE == 1;
  }
}
