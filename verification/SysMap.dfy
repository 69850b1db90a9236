/** SYS_MAP and SYS_UNMAP (src/kernel/core/syscall.c): the search for a free range, the mapping loop
    and its rollback, and the unmapping loop. */
module SysMap {
  import opened Basics
  import opened Pmm
  import opened PageTree
  import opened AddressSpace
  import opened SpaceLife

  const USER_VA_TOP: nat := 0x8000_0000_0000
  const USER_STACK_TOP_INIT: nat := USER_VA_BASE + 0x100_0000
  const MAP_MAX_PAGES: nat := 1024
  const VM_WRITE: nat := 2

  datatype Errno = EINVAL | EEXIST | ENOMEM | ENOENT

  datatype SysRet = Mapped(base: nat) | Done | Error(errno: Errno)

  /** The path of the `i`-th page of the range at `va`. */
  function PageAt(va: nat, i: nat): Path {
    PathOf(va + i * PAGE_SIZE)
  }

  lemma PageAtShift(va: nat, k: nat, i: nat)
    ensures PageAt(va + k * PAGE_SIZE, i) == PageAt(va, k + i)
  {
    assert va + k * PAGE_SIZE + i * PAGE_SIZE == va + (k + i) * PAGE_SIZE;
  }

  lemma PagesDistinct(va: nat, i: nat, k: nat)
    requires va % PAGE_SIZE == 0 && va + i * PAGE_SIZE < VA_LIMIT && va + k * PAGE_SIZE < VA_LIMIT && i != k
    ensures PageAt(va, i) != PageAt(va, k)
  {
    RoundUpAligned(va, i);
    RoundUpAligned(va, k);
    DistinctPages(va + i * PAGE_SIZE, va + k * PAGE_SIZE);
  }

  lemma DistinctPages(a: nat, b: nat)
    requires a % PAGE_SIZE == 0 && b % PAGE_SIZE == 0 && a < VA_LIMIT && b < VA_LIMIT && a != b
    ensures PathOf(a) != PathOf(b)
  {
    SmallMod(a);
    SmallMod(b);
    PathOfIdentifiesPage(a, b);
  }

  lemma SmallMod(a: nat)
    requires a < VA_LIMIT
    ensures a % 0x1_0000_0000_0000 == a
  {
  }

  /** The paths of `n` consecutive pages. */
  ghost function Range(va: nat, n: nat): set<Path> {
    set i | 0 <= i < n :: PageAt(va, i)
  }

  ghost predicate Unmapped(m: map<Path, Mapping>, va: nat, n: nat) {
    forall i :: 0 <= i < n ==> PageAt(va, i) !in m
  }

  /** What find_map_va looks for. */
  ghost predicate Candidate(m: map<Path, Mapping>, from: nat, n: nat, va: nat) {
    from <= va && va % PAGE_SIZE == 0 && va + n * PAGE_SIZE <= USER_STACK_TOP_INIT && Unmapped(m, va, n)
  }

  lemma PagesBetween(cand: nat, va: nat, i: nat) returns (k: nat)
    requires cand % PAGE_SIZE == 0 && va % PAGE_SIZE == 0 && cand <= va < cand + (i + 1) * PAGE_SIZE
    ensures va == cand + k * PAGE_SIZE && k <= i
  {
    k := (va - cand) / PAGE_SIZE;
  }

  /** A collision at page `i` of the range at `cand` rules out every start up to that page. */
  lemma SkipIsSafe(m: map<Path, Mapping>, cand: nat, i: nat, n: nat, va: nat)
    requires cand % PAGE_SIZE == 0 && va % PAGE_SIZE == 0 && i < n
    requires PageAt(cand, i) in m && cand <= va < cand + (i + 1) * PAGE_SIZE
    ensures !Unmapped(m, va, n)
  {
    var k := PagesBetween(cand, va, i);
    PageAtShift(cand, k, i - k);
  }

  ghost predicate NoneBelow(m: map<Path, Mapping>, from: nat, n: nat, top: nat) {
    forall c: nat :: c < top ==> !Candidate(m, from, n, c)
  }

  lemma SkipAhead(m: map<Path, Mapping>, from: nat, cand: nat, i: nat, n: nat)
    requires cand % PAGE_SIZE == 0 && i < n && PageAt(cand, i) in m && NoneBelow(m, from, n, cand)
    ensures NoneBelow(m, from, n, cand + (i + 1) * PAGE_SIZE)
  {
    forall c: nat | cand <= c < cand + (i + 1) * PAGE_SIZE
      ensures !Candidate(m, from, n, c)
    {
      if c % PAGE_SIZE == 0 { SkipIsSafe(m, cand, i, n, c); }
    }
  }

  /** find_map_va: the lowest free range at or above `next`, below the stack, or 0 exactly when
      there is none. */
  method FindMapVa(s: Space, next: nat, n: nat) returns (va: nat)
    requires s.Valid() && 0 < next && next + PAGE_SIZE <= WORD && n * PAGE_SIZE < WORD
    ensures va != 0 ==> Candidate(s.Abs(), next, n, va) && NoneBelow(s.Abs(), next, n, va)
    ensures va == 0 ==> forall c: nat :: !Candidate(s.Abs(), next, n, c)
  {
    ghost var m := s.Abs();
    var bytes := n * PAGE_SIZE;
    if bytes > USER_STACK_TOP_INIT {
      return 0;
    }
    var limit := USER_STACK_TOP_INIT - bytes;
    var cand := RoundUp(next);
    while cand <= limit
      invariant cand % PAGE_SIZE == 0 && cand >= next && NoneBelow(m, next, n, cand)
      decreases limit + PAGE_SIZE - cand
    {
      var i := FirstMapped(s, cand, n);
      if i == n {
        return cand;
      }
      SkipAhead(m, next, cand, i, n);
      RoundUpAligned(cand, i + 1);
      cand := RoundUp(cand + (i + 1) * PAGE_SIZE);
    }
    return 0;
  }

  lemma RoundUpAligned(a: nat, k: nat)
    requires a % PAGE_SIZE == 0
    ensures RoundUp(a + k * PAGE_SIZE) == a + k * PAGE_SIZE && (a + k * PAGE_SIZE) % PAGE_SIZE == 0
  {
  }

  method IsMapped(s: Space, va: nat, i: nat) returns (b: bool)
    requires s.Valid() && va % PAGE_SIZE == 0
    ensures b <==> PageAt(va, i) in s.Abs()
  {
    RoundUpAligned(va, i);
    var r := s.Query(va + i * PAGE_SIZE);
    b := r != None;
  }

  /** The inner loop: the first mapped page of the range, or `n`. */
  method FirstMapped(s: Space, va: nat, n: nat) returns (i: nat)
    requires s.Valid() && va % PAGE_SIZE == 0
    ensures i <= n && Unmapped(s.Abs(), va, i)
    ensures i < n ==> PageAt(va, i) in s.Abs()
  {
    ghost var m := s.Abs();
    i := 0;
    while i < n
      invariant i <= n && Unmapped(m, va, i)
    {
      var mapped := IsMapped(s, va, i);
      if mapped {
        return;
      }
      i := i + 1;
    }
  }

  // ---- range bookkeeping ---------------------------------------------------------

  lemma RangeGrows(va: nat, n: nat)
    ensures Range(va, n + 1) == Range(va, n) + {PageAt(va, n)}
  {
  }

  lemma RangeShrinks(va: nat, k: nat, n: nat)
    requires va % PAGE_SIZE == 0 && k < n && va + n * PAGE_SIZE <= VA_LIMIT
    ensures RangeFrom(va, k, n) - {PageAt(va, k)} == RangeFrom(va, k + 1, n)
    ensures PageAt(va, k) in RangeFrom(va, k, n)
  {
    forall i: nat | k < i < n
      ensures PageAt(va, i) != PageAt(va, k)
    {
      PagesDistinct(va, i, k);
    }
  }

  ghost function RangeFrom(va: nat, k: nat, n: nat): set<Path> {
    set i: nat | k <= i < n :: PageAt(va, i)
  }

  /** `m'` is `m` plus the pages in `ps`, all with flags `fl`. */
  ghost predicate Plus(m: map<Path, Mapping>, m': map<Path, Mapping>, ps: set<Path>, fl: Flags) {
    && m'.Keys == m.Keys + ps && m.Keys !! ps
    && (forall v :: v in m ==> m'[v] == m[v])
    && (forall v :: v in ps ==> m'[v].flags == fl)
  }

  lemma PlusOne(m: map<Path, Mapping>, m': map<Path, Mapping>, ps: set<Path>, fl: Flags, v: Path, f: int)
    requires Plus(m, m', ps, fl) && v !in m'
    ensures Plus(m, m'[v := Mapping(f, fl)], ps + {v}, fl)
  {
  }

  lemma PlusMinus(m: map<Path, Mapping>, m': map<Path, Mapping>, ps: set<Path>, fl: Flags, v: Path)
    requires Plus(m, m', ps, fl) && v in ps
    ensures Plus(m, m' - {v}, ps - {v}, fl)
  {
  }

  lemma PlusNothing(m: map<Path, Mapping>, m': map<Path, Mapping>, fl: Flags)
    requires Plus(m, m', {}, fl)
    ensures m' == m
  {
  }

  lemma NextIsFree(m: map<Path, Mapping>, m': map<Path, Mapping>, va: nat, i: nat, n: nat, fl: Flags)
    requires Plus(m, m', Range(va, i), fl) && Unmapped(m, va, n) && i < n
    requires va % PAGE_SIZE == 0 && va + n * PAGE_SIZE <= VA_LIMIT
    ensures PageAt(va, i) !in m'
  {
    forall k: nat | k < i
      ensures PageAt(va, k) != PageAt(va, i)
    {
      PagesDistinct(va, k, i);
    }
  }

  predicate UserRange(va: nat, n: nat) {
    va % PAGE_SIZE == 0 && USER_VA_BASE <= va && va + n * PAGE_SIZE <= USER_VA_TOP
  }

  method UserPage(va: nat, i: nat) returns (a: nat)
    requires UserRange(va, i + 1)
    ensures a % PAGE_SIZE == 0 && USER_VA_BASE <= a < VA_LIMIT && PathOf(a) == PageAt(va, i) && Private(PathOf(a))
  {
    a := va + i * PAGE_SIZE;
    RoundUpAligned(va, i);
    UserPagesArePrivate(a);
  }

  method MapOne(s: Space, va: nat, i: nat, fl: Flags, ghost base: seq<bool>) returns (ok: bool)
    requires Owned(s, base) && UserRange(va, i + 1) && fl.present && PageAt(va, i) !in s.Abs()
    modifies s.pmm, s.pmm.used, s.mem, s`tab
    ensures Owned(s, base)
    ensures ok ==> exists f :: s.Abs() == old(s.Abs())[PageAt(va, i) := Mapping(f, fl)]
    ensures !ok ==> s.Abs() == old(s.Abs()) && s.pmm.freePages <= 1
    ensures old(OpenWay(s.mem.t, s.tab)) && fl.user ==> OpenWay(s.mem.t, s.tab)
  {
    var a := UserPage(va, i);
    var pa := MapFresh(s, a, fl, base);
    ok := pa != 0;
    if old(OpenWay(s.mem.t, s.tab)) && fl.user { StaysOpen(old(s.mem.t), old(s.tab), s.mem.t, s.tab); }
  }

  method UnmapOne(s: Space, va: nat, i: nat, ghost base: seq<bool>)
    requires Owned(s, base) && UserRange(va, i + 1) && PageAt(va, i) in s.Abs()
    modifies s.pmm, s.pmm.used, s.mem, s`tab
    ensures Owned(s, base) && s.Abs() == old(s.Abs()) - {PageAt(va, i)}
    ensures s.pmm.freePages == old(s.pmm.freePages) + 1
    ensures old(OpenWay(s.mem.t, s.tab)) ==> OpenWay(s.mem.t, s.tab)
  {
    var a := UserPage(va, i);
    var ok := UnmapFree(s, a, base);
    if old(OpenWay(s.mem.t, s.tab)) { StaysOpen(old(s.mem.t), old(s.tab), s.mem.t, s.tab); }
  }

  /** The mapping loop of sys_map with its rollback: all pages or none. */
  method MapRange(s: Space, va: nat, n: nat, fl: Flags, ghost base: seq<bool>) returns (ok: bool)
    requires Owned(s, base) && UserRange(va, n) && fl.present && Unmapped(s.Abs(), va, n)
    modifies s.pmm, s.pmm.used, s.mem, s`tab
    ensures Owned(s, base)
    ensures ok ==> Plus(old(s.Abs()), s.Abs(), Range(va, n), fl)
    ensures !ok ==> s.Abs() == old(s.Abs()) && s.pmm.freePages <= n
    ensures old(OpenWay(s.mem.t, s.tab)) && fl.user ==> OpenWay(s.mem.t, s.tab)
  {
    ghost var m := s.Abs();
    var i := 0;
    while i < n
      invariant i <= n && Owned(s, base) && Plus(m, s.Abs(), Range(va, i), fl)
      invariant old(OpenWay(s.mem.t, s.tab)) && fl.user ==> OpenWay(s.mem.t, s.tab)
    {
      ghost var m' := s.Abs();
      NextIsFree(m, m', va, i, n, fl);
      ok := MapOne(s, va, i, fl, base);
      if !ok {
        Rollback(s, va, i, fl, base, m);
        return;
      }
      ghost var f :| s.Abs() == m'[PageAt(va, i) := Mapping(f, fl)];
      PlusOne(m, m', Range(va, i), fl, PageAt(va, i), f);
      RangeGrows(va, i);
      i := i + 1;
    }
    return true;
  }

  method Rollback(s: Space, va: nat, mapped: nat, fl: Flags, ghost base: seq<bool>, ghost m: map<Path, Mapping>)
    requires Owned(s, base) && UserRange(va, mapped) && Plus(m, s.Abs(), Range(va, mapped), fl)
    modifies s.pmm, s.pmm.used, s.mem, s`tab
    ensures Owned(s, base) && s.Abs() == m && s.pmm.freePages == old(s.pmm.freePages) + mapped
    ensures old(OpenWay(s.mem.t, s.tab)) ==> OpenWay(s.mem.t, s.tab)
  {
    assert RangeFrom(va, 0, mapped) == Range(va, mapped);
    var k := 0;
    while k < mapped
      invariant k <= mapped && Owned(s, base) && Plus(m, s.Abs(), RangeFrom(va, k, mapped), fl)
      invariant s.pmm.freePages == old(s.pmm.freePages) + k
      invariant old(OpenWay(s.mem.t, s.tab)) ==> OpenWay(s.mem.t, s.tab)
    {
      RangeShrinks(va, k, mapped);
      PlusMinus(m, s.Abs(), RangeFrom(va, k, mapped), fl, PageAt(va, k));
      UnmapOne(s, va, k, base);
      k := k + 1;
    }
    assert RangeFrom(va, mapped, mapped) == {};
    PlusNothing(m, s.Abs(), fl);
  }

  ghost predicate AllMapped(m: map<Path, Mapping>, va: nat, n: nat) {
    forall i :: 0 <= i < n ==> PageAt(va, i) in m
  }

  /** The first loop of sys_unmap. */
  method FirstUnmapped(s: Space, va: nat, n: nat) returns (i: nat)
    requires s.Valid() && va % PAGE_SIZE == 0
    ensures i <= n && AllMapped(s.Abs(), va, i)
    ensures i < n ==> PageAt(va, i) !in s.Abs()
  {
    ghost var m := s.Abs();
    i := 0;
    while i < n
      invariant i <= n && AllMapped(m, va, i)
    {
      var mapped := IsMapped(s, va, i);
      if !mapped {
        return;
      }
      i := i + 1;
    }
  }

  /** The second loop of sys_unmap: exactly these pages go, and as many frames come back. */
  method UnmapRange(s: Space, va: nat, n: nat, ghost base: seq<bool>)
    requires Owned(s, base) && UserRange(va, n) && AllMapped(s.Abs(), va, n)
    modifies s.pmm, s.pmm.used, s.mem, s`tab
    ensures Owned(s, base) && s.Abs() == old(s.Abs()) - Range(va, n) && s.pmm.freePages == old(s.pmm.freePages) + n
    ensures old(OpenWay(s.mem.t, s.tab)) ==> OpenWay(s.mem.t, s.tab)
  {
    ghost var m := s.Abs();
    assert m - Range(va, 0) == m;
    var k := 0;
    while k < n
      invariant k <= n && Owned(s, base) && s.Abs() == m - Range(va, k)
      invariant s.pmm.freePages == old(s.pmm.freePages) + k
      invariant old(OpenWay(s.mem.t, s.tab)) ==> OpenWay(s.mem.t, s.tab)
    {
      StillMapped(m, va, k, n);
      RangeGrows(va, k);
      TakeAway(m, Range(va, k), PageAt(va, k));
      UnmapOne(s, va, k, base);
      k := k + 1;
    }
  }

  lemma StillMapped(m: map<Path, Mapping>, va: nat, k: nat, n: nat)
    requires AllMapped(m, va, n) && k < n && va % PAGE_SIZE == 0 && va + n * PAGE_SIZE <= VA_LIMIT
    ensures PageAt(va, k) in m - Range(va, k)
  {
    forall i: nat | i < k
      ensures PageAt(va, i) != PageAt(va, k)
    {
      PagesDistinct(va, i, k);
    }
  }

  lemma TakeAway(m: map<Path, Mapping>, ps: set<Path>, v: Path)
    ensures m - ps - {v} == m - (ps + {v})
  {
  }

  ghost function Frames(tab: Shape, va: nat, n: nat): set<int> {
    set i: nat | i < n && PageAt(va, i) in tab :: tab[PageAt(va, i)]
  }

  lemma {:induction false} FramesCount(tab: Shape, va: nat, n: nat)
    requires Exclusive(tab) && UserPages(va, n) && forall i: nat :: i < n ==> PageAt(va, i) in tab
    ensures |Frames(tab, va, n)| == n
  {
    if n == 0 {
      assert Frames(tab, va, n) == {};
    } else {
      FramesCount(tab, va, n - 1);
      var f := tab[PageAt(va, n - 1)];
      forall i: nat | i < n - 1
        ensures tab[PageAt(va, i)] != f
      {
        PagesDistinct(va, i, n - 1);
        PageIsPrivate(va, i, n);
        PageIsPrivate(va, n - 1, n);
        assert Apart(tab, PageAt(va, i), PageAt(va, n - 1));
      }
      assert Frames(tab, va, n) == Frames(tab, va, n - 1) + {f};
    }
  }

  /** A range of distinct user pages; it may reach beyond USER_VA_TOP. */
  predicate UserPages(va: nat, n: nat) {
    va % PAGE_SIZE == 0 && USER_VA_BASE <= va && va + n * PAGE_SIZE <= VA_LIMIT
  }

  lemma PageIsPrivate(va: nat, i: nat, n: nat)
    requires UserPages(va, n) && i < n
    ensures Private(PageAt(va, i))
  {
    UserPagesArePrivate(va + i * PAGE_SIZE);
  }

  function Upto(n: nat): (fs: set<int>)
    ensures forall f :: 0 <= f < n ==> f in fs
  {
    if n == 0 then {} else Upto(n - 1) + {n - 1}
  }

  lemma {:induction false} SmallSet(fs: set<int>, n: nat)
    requires fs <= Upto(n)
    ensures |fs| <= n
    decreases n
  {
    if n == 0 {
      assert fs == {};
    } else {
      SmallSet(fs - {n - 1}, n - 1);
      assert n - 1 in fs ==> |fs - {n - 1}| == |fs| - 1;
      assert n - 1 !in fs ==> fs - {n - 1} == fs;
    }
  }

  /** No more pages can be mapped from `va` on than there are frames. */
  lemma NotMoreThanFrames(tab: Shape, total: nat, va: nat, n: nat)
    requires Exclusive(tab) && (forall f :: f in PrivateFrames(tab) ==> 0 <= f < total)
             && total <= MAX_TRACKED / PAGE_SIZE
    requires va % PAGE_SIZE == 0 && USER_VA_BASE <= va <= USER_VA_TOP && forall i: nat :: i < n ==> PageAt(va, i) in tab
    ensures n <= total
  {
    var k := if n <= total then n else total + 1;
    FramesCount(tab, va, k);
    forall f | f in Frames(tab, va, k)
      ensures 0 <= f < total
    {
      var i: nat :| i < k && PageAt(va, i) in tab && tab[PageAt(va, i)] == f;
      PageIsPrivate(va, i, k);
      assert f in PrivateFrames(tab);
    }
    SmallSet(Frames(tab, va, k), total);
  }

  /** Unmapping what was mapped restores the address space. */
  lemma MapThenUnmap(m: map<Path, Mapping>, m': map<Path, Mapping>, va: nat, n: nat, fl: Flags)
    requires Plus(m, m', Range(va, n), fl)
    ensures AllMapped(m', va, n) && m' - Range(va, n) == m
  {
    forall i: nat | i < n
      ensures PageAt(va, i) in m'
    {
      assert PageAt(va, i) in Range(va, n);
    }
  }

  /** What sys_map refuses at once: anything but one page or more up to the limit, plain or writable, at an
      address of the kernel's choice or in an aligned range of user memory. */
  lemma RefusedExactly(hint: nat, n: nat, flags: nat)
    ensures !Process.Malformed(hint, n, flags)
            <==> 1 <= n <= MAP_MAX_PAGES && flags in {0, VM_WRITE} && (hint == 0 || UserRange(hint, n))
  {
  }

  /** What sys_unmap accepts, where the byte count does not wrap: an aligned range of user memory. */
  lemma AcceptedExactly(va: nat, n: nat)
    requires va + n * PAGE_SIZE < WORD
    ensures !Process.BadRange(va, n) <==> n > 0 && UserRange(va, n)
  {
  }

  class Process {
    const space: Space
    var nextMapVa: nat

    constructor (space: Space, nextMapVa: nat)
      ensures this.space == space && this.nextMapVa == nextMapVa
    {
      this.space, this.nextMapVa := space, nextMapVa;
    }

    ghost predicate Valid(base: seq<bool>)
      reads this, space, space.mem, space.pmm, space.pmm.used, space.pmm.resv
    {
      Owned(space, base) && USER_VA_BASE <= nextMapVa <= USER_VA_TOP
    }

    /** A SYS_MAP request that is refused before anything is looked up. */
    static predicate Malformed(hint: nat, n: nat, flags: nat) {
      || n == 0 || n > MAP_MAX_PAGES
      || (flags != 0 && flags != VM_WRITE)
      || (hint != 0 && (hint < USER_VA_BASE || hint % PAGE_SIZE != 0 || hint + n * PAGE_SIZE > USER_VA_TOP))
    }

    /** sys_map: maps all `n` pages or leaves every mapping as it was. */
    method Map(hint: nat, n: nat, flags: nat, ghost base: seq<bool>) returns (r: SysRet)
      requires Valid(base)
      modifies this`nextMapVa, space.pmm, space.pmm.used, space.mem, space`tab
      ensures Valid(base)
      ensures r == Error(EINVAL) <==> Malformed(hint, n, flags)
      ensures r == Error(EEXIST) <==> !Malformed(hint, n, flags) && hint != 0 && !Unmapped(old(space.Abs()), hint, n)
      ensures r.Error? || r.Mapped?
      ensures r.Error? ==> space.Abs() == old(space.Abs()) && nextMapVa == old(nextMapVa)
      ensures r == Error(ENOMEM) ==>
                space.pmm.freePages <= n
                    || (hint == 0 && forall c: nat :: !Candidate(old(space.Abs()), old(nextMapVa), n, c))
      ensures r.Mapped? ==>
                Plus(old(space.Abs()), space.Abs(), Range(r.base, n), Flags(true, flags == VM_WRITE, true, false))
      ensures r.Mapped? && hint != 0 ==> r.base == hint && nextMapVa == old(nextMapVa)
      ensures r.Mapped? && hint == 0 ==>
                && Candidate(old(space.Abs()), old(nextMapVa), n, r.base)
                && NoneBelow(old(space.Abs()), old(nextMapVa), n, r.base)
                && nextMapVa == r.base + n * PAGE_SIZE
      ensures old(RightsHold(space)) ==> RightsHold(space)
    {
      r := Locate(hint, n, flags, base);
      if r.Error? {
        return;
      }
      var ok := MapRange(space, r.base, n, Flags(true, flags == VM_WRITE, true, false), base);
      if old(RightsHold(space)) { OpenHolds(space); }
      if !ok {
        return Error(ENOMEM);
      }
      if hint == 0 {
        nextMapVa := r.base + n * PAGE_SIZE;
      }
    }

    /** A SYS_UNMAP request that is refused before anything is looked up; the end address wraps. */
    static predicate BadRange(va: nat, n: nat) {
      var end := (va + n * PAGE_SIZE) % WORD;
      n == 0 || va < USER_VA_BASE || va % PAGE_SIZE != 0 || end < va || end > USER_VA_TOP
    }

    /** sys_unmap: all pages of a mapped range go, or nothing changes.  A page count whose bytes wrap
        can pass the range check, but then some page is not mapped. */
    method Unmap(va: nat, n: nat, ghost base: seq<bool>) returns (r: SysRet)
      requires Valid(base) && va < WORD && n < WORD
      modifies space.pmm, space.pmm.used, space.mem, space`tab
      ensures Valid(base) && (r.Error? || r == Done)
      ensures r == Error(EINVAL) <==> BadRange(va, n)
      ensures r == Error(ENOENT) <==> !BadRange(va, n) && !AllMapped(old(space.Abs()), va, n)
      ensures r == Done ==> n > 0 && UserRange(va, n)
      ensures r.Error? ==> space.Abs() == old(space.Abs()) && space.pmm.freePages == old(space.pmm.freePages)
      ensures r == Done ==>
              space.Abs() == old(space.Abs()) - Range(va, n)
              && space.pmm.freePages == old(space.pmm.freePages) + n
      ensures old(RightsHold(space)) ==> RightsHold(space)
    {
      if BadRange(va, n) {
        return Error(EINVAL);
      }
      var i := FirstUnmapped(space, va, n);
      if i < n {
        return Error(ENOENT);
      }
      UnmapMapped(va, n, base);
      return Done;
    }

    /** sys_unmap behind its checks. */
    method UnmapMapped(va: nat, n: nat, ghost base: seq<bool>)
      requires Valid(base) && !BadRange(va, n) && AllMapped(space.Abs(), va, n)
      modifies space.pmm, space.pmm.used, space.mem, space`tab
      ensures Valid(base) && UserRange(va, n) && space.Abs() == old(space.Abs()) - Range(va, n)
      ensures space.pmm.freePages == old(space.pmm.freePages) + n
      ensures old(RightsHold(space)) ==> RightsHold(space)
    {
      NotMoreThanFrames(space.tab, space.pmm.totalPages, va, n);
      UnmapRange(space, va, n, base);
      if old(RightsHold(space)) { OpenHolds(space); }
    }

    /** The checks of sys_map and its choice of a base address. */
    method Locate(hint: nat, n: nat, flags: nat, ghost base: seq<bool>) returns (r: SysRet)
      requires Valid(base)
      ensures r == Error(EINVAL) <==> Malformed(hint, n, flags)
      ensures r == Error(EEXIST) <==> !Malformed(hint, n, flags) && hint != 0 && !Unmapped(space.Abs(), hint, n)
      ensures r == Error(ENOMEM) ==> hint == 0 && forall c: nat :: !Candidate(space.Abs(), nextMapVa, n, c)
      ensures r.Error? || r.Mapped?
      ensures r.Mapped? ==> UserRange(r.base, n) && Unmapped(space.Abs(), r.base, n)
      ensures r.Mapped? && hint != 0 ==> r.base == hint
      ensures r.Mapped? && hint == 0 ==>
                Candidate(space.Abs(), nextMapVa, n, r.base) && NoneBelow(space.Abs(), nextMapVa, n, r.base)
    {
      if n == 0 || n > MAP_MAX_PAGES {
        return Error(EINVAL);
      }
      if flags != 0 && flags != VM_WRITE {
        return Error(EINVAL);
      }
      if hint == 0 {
        var va := FindMapVa(space, nextMapVa, n);
        return if va == 0 then Error(ENOMEM) else Mapped(va);
      }
      if hint < USER_VA_BASE || hint % PAGE_SIZE != 0 || hint + n * PAGE_SIZE > USER_VA_TOP {
        return Error(EINVAL);
      }
      var i := FirstMapped(space, hint, n);
      return if i < n then Error(EEXIST) else Mapped(hint);
    }
  }
}
