/** Address spaces (src/kernel/arch/x86_64/mm/vmm.c): mapping, unmapping, querying, creation
    and teardown of a page-table tree whose frames come from the page allocator. */
module AddressSpace {
  import opened Basics
  import opened Pmm
  import opened PageTree

  const KERNEL_VA_BASE: nat := 0x4000_0000
  const USER_VA_BASE: nat := 0x80_0000_0000
  const VA_LIMIT: nat := 0x1_0000_0000_0000

  /** The physical frames that hold page tables. */
  class PhysMem {
    var t: Tables

    constructor (t: Tables)
      ensures this.t == t
    {
      this.t := t;
    }
  }

  /** Only tables on the way to `v` were added, each in a frame that was free before. */
  ghost predicate Grows(tab: Shape, tab': Shape, used: seq<bool>, used': seq<bool>, v: Path) {
    && |used'| == |used|
    && (forall q :: q in tab ==> q in tab' && tab'[q] == tab[q])
    && (forall q :: q in tab' && q !in tab ==>
          q != [] && |q| < 4 && Under(q, v) && 0 <= tab'[q] < |used| && !used[tab'[q]])
    && (forall f :: 0 <= f < |used| ==> (used'[f] <==> used[f] || f in NewFrames(tab, tab')))
  }

  ghost function NewFrames(tab: Shape, tab': Shape): set<int> {
    set q | q in tab' && q !in tab :: tab'[q]
  }

  /** Frame `f` holds no table on the way to `v`. */
  ghost predicate OffWay(tab: Shape, v: Path, f: int) {
    forall q :: q in tab && |q| < 4 && Under(q, v) ==> tab[q] != f
  }

  /** No table in a used frame was written except those on the way to `v`. */
  ghost predicate Isolated(t: Tables, t': Tables, tab: Shape, used: seq<bool>, v: Path) {
    forall f :: f in t && 0 <= f < |used| && used[f] && OffWay(tab, v, f) ==> f in t' && t'[f] == t[f]
  }

  lemma GrowsThenGrows(tab: Shape, mid: Shape, tab': Shape,
                       used: seq<bool>, usedMid: seq<bool>, used': seq<bool>, v: Path)
    requires Grows(tab, mid, used, usedMid, v) && Grows(mid, tab', usedMid, used', v)
    ensures Grows(tab, tab', used, used', v)
  {
    forall q | q in tab' && q !in tab
      ensures q != [] && |q| < 4 && Under(q, v) && 0 <= tab'[q] < |used| && !used[tab'[q]]
    {
      if q in mid {
        assert tab'[q] == mid[q];
      }
    }
    assert NewFrames(tab, tab') == NewFrames(tab, mid) + NewFrames(mid, tab');
  }

  lemma IsolatedThenIsolated(t: Tables, mid: Tables, t': Tables, tab: Shape, tabMid: Shape,
                             used: seq<bool>, usedMid: seq<bool>, v: Path)
    requires Isolated(t, mid, tab, used, v) && Isolated(mid, t', tabMid, usedMid, v)
    requires Grows(tab, tabMid, used, usedMid, v)
    ensures Isolated(t, t', tab, used, v)
  {
    forall f | f in t && 0 <= f < |used| && used[f] && OffWay(tab, v, f)
      ensures f in t' && t'[f] == t[f]
    {
      assert f in mid && mid[f] == t[f] && usedMid[f];
      assert OffWay(tabMid, v, f);
    }
  }

  lemma GrowOne(tab: Shape, c: Path, f: int, used: seq<bool>, v: Path)
    requires c !in tab && c != [] && |c| < 4 && Under(c, v) && 0 <= f < |used| && !used[f]
    ensures Grows(tab, tab[c := f], used, used[f := true], v)
  {
    assert NewFrames(tab, tab[c := f]) == {f};
  }

  lemma SlotOnWay(p: Path, i: int, v: Path)
    requires |p| < 3 && |v| == 4 && Under(p, v) && v[|p|] == i
    ensures Under(p + [i], v)
  {
    assert v[..|p| + 1] == v[..|p|] + [v[|p|]];
  }

  /** Filling a free frame and one table on the way leaves the other used frames alone. */
  lemma OnlyTheWay(t: Tables, tab: Shape, used: seq<bool>, p: Path, child: int, zero: seq<Pte>, table: seq<Pte>,
                   v: Path)
    requires p in tab && |p| < 4 && Under(p, v) && 0 <= child < |used| && !used[child]
    ensures Isolated(t, t[child := zero][tab[p] := table], tab, used, v)
  {
  }

  /** Bits 12..51 of a physical address. */
  function FrameOf(pa: nat): nat {
    pa / PAGE_SIZE % FRAME_BITS
  }

  /** Exactly the frames in `fs` went from used to free. */
  ghost predicate Cleared(used: seq<bool>, used': seq<bool>, fs: set<int>) {
    && |used'| == |used|
    && (forall f :: f in fs ==> 0 <= f < |used| && used[f])
    && (forall f :: 0 <= f < |used| ==> used'[f] == (used[f] && f !in fs))
  }

  lemma SlotIsPrivate(tab: Shape, i: int)
    requires 1 <= i
    ensures UnderFrames(tab, [] + [i]) <= PrivateFrames(tab)
  {
    forall q | Under([] + [i], q)
      ensures Private(q)
    {
      assert q[0] == q[..1][0];
    }
  }

  /** What one slot of a private table contributes to the teardown. */
  lemma SlotFacts(t: Tables, tab: Shape, p: Path, i: int)
    requires Tree(t, tab) && NoHuge(t, tab) && Exclusive(tab)
    requires p in tab && 0 < |p| < 4 && Private(p) && IsTable(t, tab[p]) && 0 <= i < ENTRIES
    ensures var e := t[tab[p]][i];
            && !(e.present && e.huge) && (e.present <==> p + [i] in tab)
            && (p + [i] in tab ==> tab[p + [i]] == e.frame)
    ensures BelowFrames(tab, p, 0, i + 1) == BelowFrames(tab, p, 0, i) + UnderFrames(tab, p + [i])
    ensures p + [i] !in tab ==> UnderFrames(tab, p + [i]) == {}
    ensures p + [i] in tab && |p| == 3 ==> UnderFrames(tab, p + [i]) == {tab[p + [i]]}
    ensures UnderFrames(tab, p + [i]) !! BelowFrames(tab, p, 0, i) && UnderFrames(tab, p + [i]) <= UnderFrames(tab, p)
    ensures Private(p + [i])
  {
    BelowStep(t, tab, p, 0, i);
    SubtreesApart(tab, p, 0, i);
    UnderChild(tab, p, i);
    assert Linked(t, tab, p, i) && Plain(t, tab, p, i);
  }

  lemma NothingBelow(tab: Shape, p: Path)
    ensures BelowFrames(tab, p, 0, 0) == {}
  {
  }

  function TableEntry(frame: int, user: bool): Pte {
    Pte(true, true, user, false, false, false, frame)
  }

  class Space {
    const pmm: PageAllocator
    const mem: PhysMem
    const isKernel: bool
    var root: int
    var refcount: nat
    ghost var tab: Shape

    constructor Make(pmm: PageAllocator, mem: PhysMem, isKernel: bool, root: int, ghost tab: Shape)
      ensures this.pmm == pmm && this.mem == mem && this.isKernel == isKernel
      ensures this.root == root && this.refcount == 1 && this.tab == tab
    {
      this.pmm, this.mem, this.isKernel, this.root, this.refcount, this.tab := pmm, mem, isKernel, root, 1, tab;
    }

    /** The tables form a tree below `root`, in frames the allocator has marked used. */
    ghost predicate Valid()
      reads this, mem, pmm, pmm.used, pmm.resv
    {
      && pmm.Valid()
      && Tree(mem.t, tab)
      && tab[[]] == root
      && (!isKernel ==> NoHuge(mem.t, tab))
      && (forall p :: p in tab && |p| < 4 ==> 0 <= tab[p] < pmm.totalPages && pmm.used[tab[p]])
    }

    ghost function Abs(): map<Path, Mapping>
      reads this, mem
      requires Tree(mem.t, tab)
    {
      View(mem.t, tab)
    }

    ghost predicate Blocked(v: Path)
      reads this, mem
      requires Tree(mem.t, tab)
    {
      HugeOnWay(mem.t, tab, v)
    }

    /** descend_or_alloc: the child table in slot `i` of the table at `p`, made if missing. */
    method DescendOrAlloc(ghost p: Path, table: int, i: int, childUser: bool, ghost v: Path) returns (child: int)
      requires Valid() && p in tab && |p| < 3 && tab[p] == table && 0 <= i < ENTRIES
      requires |v| == 4 && Under(p, v) && v[|p|] == i
      modifies pmm, pmm.used, mem, this`tab
      ensures Valid() && Abs() == old(Abs())
      ensures Grows(old(tab), tab, old(pmm.used[..]), pmm.used[..], v)
      ensures Isolated(old(mem.t), mem.t, old(tab), old(pmm.used[..]), v)
      ensures child != 0 <==> p + [i] in tab
      ensures child != 0 ==> tab[p + [i]] == child
      ensures child == 0 ==> old(Blocked(v)) || pmm.freePages == 0
      ensures Blocked(v) ==> old(Blocked(v))
      ensures Ways(old(mem.t), old(tab), mem.t, tab, childUser)
    {
      assert Linked(mem.t, tab, p, i);
      var e := mem.t[table][i];
      if e.present {
        if e.huge {
          return 0;
        }
        assert IsTable(mem.t, tab[p + [i]]);
        return e.frame;
      }
      child := MakeTable(p, table, i, childUser, v);
    }

    /** The allocating half of descend_or_alloc. */
    method MakeTable(ghost p: Path, table: int, i: int, childUser: bool, ghost v: Path) returns (child: int)
      requires Valid() && p in tab && |p| < 3 && tab[p] == table && 0 <= i < ENTRIES && p + [i] !in tab
      requires |v| == 4 && Under(p, v) && v[|p|] == i
      modifies pmm, pmm.used, mem, this`tab
      ensures Valid() && Abs() == old(Abs())
      ensures Grows(old(tab), tab, old(pmm.used[..]), pmm.used[..], v)
      ensures Isolated(old(mem.t), mem.t, old(tab), old(pmm.used[..]), v)
      ensures child == 0 ==> tab == old(tab) && pmm.freePages == 0
      ensures Blocked(v) ==> old(Blocked(v))
      ensures child != 0 ==> tab == old(tab)[p + [i] := child]
      ensures Ways(old(mem.t), old(tab), mem.t, tab, childUser)
    {
      ghost var t0, tab0, used0 := mem.t, tab, pmm.used[..];
      var np := pmm.AllocPage();
      if np == 0 {
        return 0;
      }
      child := np / PAGE_SIZE;
      SlotOnWay(p, i, v);
      GrowOne(tab0, p + [i], child, used0, v);
      LinkTable(p, table, i, childUser, child, v);
      OnlyTheWay(t0, tab0, used0, p, child, ZeroPage(), mem.t[table], v);
    }

    /** Zero the new frame and hang it in slot `i`. */
    method LinkTable(ghost p: Path, table: int, i: int, childUser: bool, child: int, ghost v: Path)
      requires Valid() && p in tab && |p| < 3 && tab[p] == table && 0 <= i < ENTRIES && p + [i] !in tab
      requires 0 < child < pmm.totalPages && pmm.used[child]
      requires forall q :: q in tab && |q| < 4 ==> tab[q] != child
      modifies mem, this`tab
      ensures Valid() && Abs() == old(Abs())
      ensures tab == old(tab)[p + [i] := child]
      ensures Blocked(v) ==> old(Blocked(v))
      ensures Ways(old(mem.t), old(tab), mem.t, tab, childUser)
      ensures mem.t == old(mem.t)[child := ZeroPage()][table := old(mem.t)[table][i := TableEntry(child, childUser)]]
    {
      ghost var t0, tab0, entry := mem.t, tab, TableEntry(child, childUser);
      HangTable(p, table, i, childUser, child);
      AddTableWays(t0, tab0, p, i, child, entry, mem.t, tab);
      if HugeOnWay(mem.t, tab, v) {
        AddTableAddsNoHuge(t0, tab0, p, i, child, entry, mem.t, tab, v);
      }
    }

    method HangTable(ghost p: Path, table: int, i: int, childUser: bool, child: int)
      requires Valid() && p in tab && |p| < 3 && tab[p] == table && 0 <= i < ENTRIES && p + [i] !in tab
      requires 0 < child < pmm.totalPages && pmm.used[child]
      requires forall q :: q in tab && |q| < 4 ==> tab[q] != child
      modifies mem, this`tab
      ensures Valid() && Abs() == old(Abs())
      ensures tab == old(tab)[p + [i] := child]
      ensures mem.t == old(mem.t)[child := ZeroPage()][table := old(mem.t)[table][i := TableEntry(child, childUser)]]
    {
      var entry := TableEntry(child, childUser);
      ghost var t', tab' := mem.t[child := ZeroPage()][table := mem.t[table][i := entry]], tab[p + [i] := child];
      AddTable(mem.t, tab, p, i, child, entry, t', tab');
      if !isKernel {
        AddTablePlain(mem.t, tab, p, i, child, entry, t', tab');
      }
      mem.t := mem.t[child := ZeroPage()];
      mem.t := mem.t[table := mem.t[table][i := entry]];
      tab := tab[p + [i] := child];
    }

    function LowerBound(): nat {
      if isKernel then KERNEL_VA_BASE else USER_VA_BASE
    }

    predicate Mappable(va: nat, pa: nat, flags: Flags) {
      va % PAGE_SIZE == 0 && pa % PAGE_SIZE == 0 && va >= LowerBound() && flags.present
    }

    /** vmm_map: adds exactly one page, or leaves the view alone, whatever tables it had to add. */
    method Map(va: nat, pa: nat, flags: Flags) returns (ok: bool)
      requires Valid()
      modifies pmm, pmm.used, mem, this`tab
      ensures Valid() && Isolated(old(mem.t), mem.t, old(tab), old(pmm.used[..]), PathOf(va))
      ensures ok ==> Mappable(va, pa, flags) && Mapped(old(tab), old(pmm.used[..]), PathOf(va), FrameOf(pa))
      ensures ok ==> PathOf(va) !in old(Abs()) && Abs() == old(Abs())[PathOf(va) := Mapping(FrameOf(pa), flags)]
      ensures !ok ==> Abs() == old(Abs()) && Grows(old(tab), tab, old(pmm.used[..]), pmm.used[..], PathOf(va))
      ensures !ok ==> !Mappable(va, pa, flags) || PathOf(va) in old(Abs()) || old(Blocked(PathOf(va)))
                      || pmm.freePages == 0
      ensures !Mappable(va, pa, flags) ==> tab == old(tab) && pmm.used[..] == old(pmm.used[..])
      ensures Ways(old(mem.t), old(tab), mem.t, tab, flags.user)
    {
      if !Mappable(va, pa, flags) {
        return false;
      }
      ok := MapPath(PathOf(va), FrameOf(pa), flags);
    }

    /** The tree gained the page `v` and perhaps tables on the way to it, nothing else. */
    ghost predicate Mapped(tab0: Shape, used0: seq<bool>, v: Path, frame: int)
      reads this, pmm.used
    {
      v in tab && tab[v] == frame && Grows(tab0, tab - {v}, used0, pmm.used[..], v)
    }

    /** vmm_map behind its argument checks, on the path of the page. */
    method MapPath(v: Path, frame: int, flags: Flags) returns (ok: bool)
      requires Valid() && |v| == 4 && ValidPath(v) && flags.present
      modifies pmm, pmm.used, mem, this`tab
      ensures Valid() && Isolated(old(mem.t), mem.t, old(tab), old(pmm.used[..]), v)
      ensures ok ==> Mapped(old(tab), old(pmm.used[..]), v, frame)
      ensures ok ==> v !in old(Abs()) && Abs() == old(Abs())[v := Mapping(frame, flags)]
      ensures !ok ==> Abs() == old(Abs()) && Grows(old(tab), tab, old(pmm.used[..]), pmm.used[..], v)
      ensures !ok ==> v in old(Abs()) || old(Blocked(v)) || pmm.freePages == 0
      ensures Ways(old(mem.t), old(tab), mem.t, tab, flags.user)
    {
      var pt := ReachPt(v, flags.user);
      if pt == 0 {
        return false;
      }
      ghost var t1, tab1 := mem.t, tab;
      ok := SetLeaf(v, pt, FlagsToPte(flags, frame), flags.user);
      WaysThenWays(old(mem.t), old(tab), t1, tab1, mem.t, tab, flags.user);
      if ok {
        IsolatedThenIsolated(old(mem.t), t1, mem.t, old(tab), tab1, old(pmm.used[..]), pmm.used[..], v);
      }
    }

    /** The first two descents of vmm_map. */
    method ReachPd(v: Path, user: bool) returns (pd: int)
      requires Valid() && |v| == 4 && ValidPath(v)
      modifies pmm, pmm.used, mem, this`tab
      ensures Valid() && Abs() == old(Abs())
      ensures Grows(old(tab), tab, old(pmm.used[..]), pmm.used[..], v)
      ensures Isolated(old(mem.t), mem.t, old(tab), old(pmm.used[..]), v)
      ensures pd != 0 ==> v[..2] in tab && tab[v[..2]] == pd
      ensures pd == 0 ==> old(Blocked(v)) || pmm.freePages == 0
      ensures Blocked(v) ==> old(Blocked(v))
      ensures Ways(old(mem.t), old(tab), mem.t, tab, user)
    {
      assert [] + [v[0]] == v[..1] && v[..1] + [v[1]] == v[..2];
      var pdpt := DescendOrAlloc([], root, v[0], user, v);
      if pdpt == 0 {
        return 0;
      }
      ghost var t1, tab1, used1 := mem.t, tab, pmm.used[..];
      pd := DescendOrAlloc(v[..1], pdpt, v[1], user, v);
      WaysThenWays(old(mem.t), old(tab), t1, tab1, mem.t, tab, user);
      GrowsThenGrows(old(tab), tab1, tab, old(pmm.used[..]), used1, pmm.used[..], v);
      IsolatedThenIsolated(old(mem.t), t1, mem.t, old(tab), tab1, old(pmm.used[..]), used1, v);
    }

    /** All three descents of vmm_map. */
    method ReachPt(v: Path, user: bool) returns (pt: int)
      requires Valid() && |v| == 4 && ValidPath(v)
      modifies pmm, pmm.used, mem, this`tab
      ensures Valid() && Abs() == old(Abs())
      ensures Grows(old(tab), tab, old(pmm.used[..]), pmm.used[..], v)
      ensures Isolated(old(mem.t), mem.t, old(tab), old(pmm.used[..]), v)
      ensures pt != 0 ==> v[..3] in tab && tab[v[..3]] == pt
      ensures pt == 0 ==> old(Blocked(v)) || pmm.freePages == 0
      ensures Ways(old(mem.t), old(tab), mem.t, tab, user)
    {
      assert v[..2] + [v[2]] == v[..3];
      var pd := ReachPd(v, user);
      if pd == 0 {
        return 0;
      }
      ghost var t2, tab2, used2 := mem.t, tab, pmm.used[..];
      pt := DescendOrAlloc(v[..2], pd, v[2], user, v);
      WaysThenWays(old(mem.t), old(tab), t2, tab2, mem.t, tab, user);
      GrowsThenGrows(old(tab), tab2, tab, old(pmm.used[..]), used2, pmm.used[..], v);
      IsolatedThenIsolated(old(mem.t), t2, mem.t, old(tab), tab2, old(pmm.used[..]), used2, v);
    }

    /** The last part of vmm_map: refuse a present entry, else write it. */
    method SetLeaf(v: Path, pt: int, e: Pte, ghost user: bool) returns (ok: bool)
      requires Valid() && |v| == 4 && ValidPath(v) && v[..3] in tab && tab[v[..3]] == pt
      requires e.present && !e.huge
      modifies mem, this`tab
      ensures Valid()
      ensures ok <==> v !in old(Abs())
      ensures !ok ==> mem.t == old(mem.t) && tab == old(tab)
      ensures ok ==> tab == old(tab)[v := e.frame] && Abs() == old(Abs())[v := Mapping(e.frame, PteToFlags(e))]
      ensures ok ==> v !in old(tab) && tab - {v} == old(tab)
      ensures Ways(old(mem.t), old(tab), mem.t, tab, user)
      ensures Isolated(old(mem.t), mem.t, old(tab), pmm.used[..], v)
    {
      assert v[..3] + [v[3]] == v;
      assert Linked(mem.t, tab, v[..3], v[3]);
      if mem.t[pt][v[3]].present {
        return false;
      }
      MapLeaf(mem.t, tab, v[..3], v[3], e, mem.t[pt := mem.t[pt][v[3] := e]], tab[v := e.frame]);
      if !isKernel {
        WriteLeafPlain(mem.t, tab, v[..3], v[3], e, mem.t[pt := mem.t[pt][v[3] := e]], tab[v := e.frame]);
      }
      WriteLeafWays(mem.t, tab, v[..3], v[3], e, mem.t[pt := mem.t[pt][v[3] := e]], tab[v := e.frame], user);
      RemoveAdded(tab, v, e.frame);
      mem.t := mem.t[pt := mem.t[pt][v[3] := e]];
      tab := tab[v := e.frame];
      return true;
    }

    /** walk_leaf: the page table that holds the entry of `v`, or 0. */
    method WalkLeaf(v: Path) returns (pt: int)
      requires Valid() && |v| == 4 && ValidPath(v)
      ensures pt != 0 <==> v[..3] in tab
      ensures pt != 0 ==> tab[v[..3]] == pt
    {
      var pdpt := Step([], root, v[0]);
      assert [] + [v[0]] == v[..1] && v[..1] + [v[1]] == v[..2] && v[..2] + [v[2]] == v[..3];
      if pdpt == 0 {
        CutOff(mem.t, tab, v, 1, 3);
        return 0;
      }
      var pd := Step(v[..1], pdpt, v[1]);
      if pd == 0 {
        CutOff(mem.t, tab, v, 2, 3);
        return 0;
      }
      pt := Step(v[..2], pd, v[2]);
    }

    /** One level of the walk: refuse an absent or huge entry. */
    method Step(ghost p: Path, table: int, i: int) returns (child: int)
      requires Valid() && p in tab && |p| < 3 && tab[p] == table && 0 <= i < ENTRIES
      ensures child != 0 <==> p + [i] in tab
      ensures child != 0 ==> tab[p + [i]] == child
    {
      assert Linked(mem.t, tab, p, i);
      var e := mem.t[table][i];
      if !e.present || e.huge {
        return 0;
      }
      assert IsTable(mem.t, tab[p + [i]]);
      return e.frame;
    }

    /** vmm_query is a lookup in the view. */
    method Query(va: nat) returns (r: Option<Mapping>)
      requires Valid()
      ensures r == if va % PAGE_SIZE == 0 && PathOf(va) in Abs() then Some(Abs()[PathOf(va)]) else None
    {
      if va % PAGE_SIZE != 0 {
        return None;
      }
      var v := PathOf(va);
      var pt := WalkLeaf(v);
      assert v[..4] == v;
      if pt == 0 {
        CutOff(mem.t, tab, v, 3, 4);
        return None;
      }
      assert Linked(mem.t, tab, v[..3], v[3]) && v[..3] + [v[3]] == v && Parent(v) == v[..3];
      var e := mem.t[pt][v[3]];
      if !e.present {
        return None;
      }
      return Some(Mapping(e.frame, PteToFlags(e)));
    }

    /** vmm_unmap: removes exactly one page, or changes nothing. */
    method Unmap(va: nat) returns (ok: bool)
      requires Valid()
      modifies mem, this`tab
      ensures Valid()
      ensures ok <==> va % PAGE_SIZE == 0 && va >= LowerBound() && PathOf(va) in old(Abs())
      ensures !ok ==> mem.t == old(mem.t) && tab == old(tab)
      ensures ok ==> tab == old(tab) - {PathOf(va)} && Abs() == old(Abs()) - {PathOf(va)}
      ensures Ways(old(mem.t), old(tab), mem.t, tab, true)
      ensures Isolated(old(mem.t), mem.t, old(tab), pmm.used[..], PathOf(va))
    {
      if va % PAGE_SIZE != 0 || va < LowerBound() {
        return false;
      }
      var v := PathOf(va);
      var pt := WalkLeaf(v);
      assert v[..4] == v;
      if pt == 0 {
        CutOff(mem.t, tab, v, 3, 4);
        return false;
      }
      ok := ClearLeaf(v, pt);
    }

    /** The last part of vmm_unmap. */
    method ClearLeaf(v: Path, pt: int) returns (ok: bool)
      requires Valid() && |v| == 4 && ValidPath(v) && v[..3] in tab && tab[v[..3]] == pt
      modifies mem, this`tab
      ensures Valid() && ok == (v in old(Abs()))
      ensures !ok ==> mem.t == old(mem.t) && tab == old(tab)
      ensures ok ==> tab == old(tab) - {v} && Abs() == old(Abs()) - {v}
      ensures Ways(old(mem.t), old(tab), mem.t, tab, true)
      ensures Isolated(old(mem.t), mem.t, old(tab), pmm.used[..], v)
    {
      assert Linked(mem.t, tab, v[..3], v[3]) && v[..3] + [v[3]] == v;
      if !mem.t[pt][v[3]].present {
        return false;
      }
      UnmapLeaf(mem.t, tab, v[..3], v[3], NO_ENTRY, mem.t[pt := mem.t[pt][v[3] := NO_ENTRY]], tab - {v});
      if !isKernel {
        WriteLeafPlain(mem.t, tab, v[..3], v[3], NO_ENTRY, mem.t[pt := mem.t[pt][v[3] := NO_ENTRY]], tab - {v});
      }
      WriteLeafWays(mem.t, tab, v[..3], v[3], NO_ENTRY, mem.t[pt := mem.t[pt][v[3] := NO_ENTRY]], tab - {v}, true);
      mem.t := mem.t[pt := mem.t[pt][v[3] := NO_ENTRY]];
      tab := tab - {v};
      return true;
    }

    // ---- teardown -----------------------------------------------------------

    /** What the freeing loops need of the subtree at `p`: its frames were allocated at the start. */
    ghost predicate Doomed(used0: seq<bool>, p: Path)
      reads this, mem, pmm.resv
    {
      && Tree(mem.t, tab) && NoHuge(mem.t, tab) && Exclusive(tab)
      && p in tab && p != [] && Private(p)
      && |used0| == pmm.resv.Length
      && (forall f :: f in UnderFrames(tab, p) ==> 0 <= f < |used0| && used0[f] && !pmm.resv[f])
    }

    /** One successful pmm_free_page of a frame that was not released before. */
    method Release(f: int, ghost used0: seq<bool>, ghost fs: set<int>)
      requires pmm.Valid() && Cleared(used0, pmm.used[..], fs) && f !in fs
      requires 0 <= f < |used0| && used0[f] && !pmm.resv[f]
      modifies pmm, pmm.used
      ensures pmm.Valid() && Cleared(used0, pmm.used[..], fs + {f})
      ensures pmm.freePages == old(pmm.freePages) + 1
    {
      var ok := pmm.FreePage(f * PAGE_SIZE);
      assert ok;
    }

    method FreePt(pt: int, ghost p: Path, ghost used0: seq<bool>, ghost fs: set<int>)
      requires Doomed(used0, p) && |p| == 3 && tab[p] == pt
      requires pmm.Valid() && Cleared(used0, pmm.used[..], fs) && UnderFrames(tab, p) !! fs
      modifies pmm, pmm.used
      ensures pmm.Valid() && Cleared(used0, pmm.used[..], fs + UnderFrames(tab, p))
    {
      NothingBelow(tab, p);
      assert fs + BelowFrames(tab, p, 0, 0) == fs;
      var i := 0;
      while i < ENTRIES
        invariant 0 <= i <= ENTRIES && pmm.Valid()
        invariant Cleared(used0, pmm.used[..], fs + BelowFrames(tab, p, 0, i))
      {
        FreeSlotPt(pt, i, p, used0, fs);
        i := i + 1;
      }
      UnderIsBelow(mem.t, tab, p);
      assert pt in UnderFrames(tab, p);
      Release(pt, used0, fs + BelowFrames(tab, p, 0, ENTRIES));
      assert fs + BelowFrames(tab, p, 0, ENTRIES) + {pt} == fs + UnderFrames(tab, p);
    }

    method FreeSlotPt(pt: int, i: int, ghost p: Path, ghost used0: seq<bool>, ghost fs: set<int>)
      requires Doomed(used0, p) && |p| == 3 && tab[p] == pt && 0 <= i < ENTRIES
      requires pmm.Valid() && Cleared(used0, pmm.used[..], fs + BelowFrames(tab, p, 0, i)) && UnderFrames(tab, p) !! fs
      modifies pmm, pmm.used
      ensures pmm.Valid() && Cleared(used0, pmm.used[..], fs + BelowFrames(tab, p, 0, i + 1))
    {
      SlotFacts(mem.t, tab, p, i);
      ghost var done := fs + BelowFrames(tab, p, 0, i);
      var e := mem.t[pt][i];
      if e.present && !e.huge {
        Release(e.frame, used0, done);
      }
      assert fs + BelowFrames(tab, p, 0, i + 1) == done + UnderFrames(tab, p + [i]);
    }

    method FreePd(pd: int, ghost p: Path, ghost used0: seq<bool>, ghost fs: set<int>)
      requires Doomed(used0, p) && |p| == 2 && tab[p] == pd
      requires pmm.Valid() && Cleared(used0, pmm.used[..], fs) && UnderFrames(tab, p) !! fs
      modifies pmm, pmm.used
      ensures pmm.Valid() && Cleared(used0, pmm.used[..], fs + UnderFrames(tab, p))
    {
      NothingBelow(tab, p);
      assert fs + BelowFrames(tab, p, 0, 0) == fs;
      var i := 0;
      while i < ENTRIES
        invariant 0 <= i <= ENTRIES && pmm.Valid()
        invariant Cleared(used0, pmm.used[..], fs + BelowFrames(tab, p, 0, i))
      {
        FreeSlotPd(pd, i, p, used0, fs);
        i := i + 1;
      }
      UnderIsBelow(mem.t, tab, p);
      assert pd in UnderFrames(tab, p);
      Release(pd, used0, fs + BelowFrames(tab, p, 0, ENTRIES));
      assert fs + BelowFrames(tab, p, 0, ENTRIES) + {pd} == fs + UnderFrames(tab, p);
    }

    method FreeSlotPd(pd: int, i: int, ghost p: Path, ghost used0: seq<bool>, ghost fs: set<int>)
      requires Doomed(used0, p) && |p| == 2 && tab[p] == pd && 0 <= i < ENTRIES
      requires pmm.Valid() && Cleared(used0, pmm.used[..], fs + BelowFrames(tab, p, 0, i)) && UnderFrames(tab, p) !! fs
      modifies pmm, pmm.used
      ensures pmm.Valid() && Cleared(used0, pmm.used[..], fs + BelowFrames(tab, p, 0, i + 1))
    {
      SlotFacts(mem.t, tab, p, i);
      ghost var done := fs + BelowFrames(tab, p, 0, i);
      var e := mem.t[pd][i];
      if e.present {
        assert !e.huge;  // vmm_map makes no huge entry, so the branch that frees one is not taken
        FreePt(e.frame, p + [i], used0, done);
      }
      assert fs + BelowFrames(tab, p, 0, i + 1) == done + UnderFrames(tab, p + [i]);
    }

    method FreePdpt(pdpt: int, ghost p: Path, ghost used0: seq<bool>, ghost fs: set<int>)
      requires Doomed(used0, p) && |p| == 1 && tab[p] == pdpt
      requires pmm.Valid() && Cleared(used0, pmm.used[..], fs) && UnderFrames(tab, p) !! fs
      modifies pmm, pmm.used
      ensures pmm.Valid() && Cleared(used0, pmm.used[..], fs + UnderFrames(tab, p))
    {
      NothingBelow(tab, p);
      assert fs + BelowFrames(tab, p, 0, 0) == fs;
      var i := 0;
      while i < ENTRIES
        invariant 0 <= i <= ENTRIES && pmm.Valid()
        invariant Cleared(used0, pmm.used[..], fs + BelowFrames(tab, p, 0, i))
      {
        FreeSlotPdpt(pdpt, i, p, used0, fs);
        i := i + 1;
      }
      UnderIsBelow(mem.t, tab, p);
      assert pdpt in UnderFrames(tab, p);
      Release(pdpt, used0, fs + BelowFrames(tab, p, 0, ENTRIES));
      assert fs + BelowFrames(tab, p, 0, ENTRIES) + {pdpt} == fs + UnderFrames(tab, p);
    }

    method FreeSlotPdpt(pdpt: int, i: int, ghost p: Path, ghost used0: seq<bool>, ghost fs: set<int>)
      requires Doomed(used0, p) && |p| == 1 && tab[p] == pdpt && 0 <= i < ENTRIES
      requires pmm.Valid() && Cleared(used0, pmm.used[..], fs + BelowFrames(tab, p, 0, i)) && UnderFrames(tab, p) !! fs
      modifies pmm, pmm.used
      ensures pmm.Valid() && Cleared(used0, pmm.used[..], fs + BelowFrames(tab, p, 0, i + 1))
    {
      SlotFacts(mem.t, tab, p, i);
      ghost var done := fs + BelowFrames(tab, p, 0, i);
      var e := mem.t[pdpt][i];
      if e.present {
        assert !e.huge;  // vmm_map makes no huge entry, so the branch that frees one is not taken
        FreePd(e.frame, p + [i], used0, done);
      }
      assert fs + BelowFrames(tab, p, 0, i + 1) == done + UnderFrames(tab, p + [i]);
    }

    /** destroy_space: every private frame goes back to the allocator, each exactly once. */
    method Destroy()
      requires Valid() && !isKernel && Exclusive(tab)
      requires forall f :: f in PrivateFrames(tab) ==> 0 <= f < pmm.totalPages && pmm.Releasable(f)
      modifies pmm, pmm.used
      ensures pmm.Valid() && Cleared(old(pmm.used[..]), pmm.used[..], PrivateFrames(tab))
    {
      PrivateIsBelowRoot(mem.t, tab);
      ghost var used0 := pmm.used[..];
      var i := 1;
      while i < ENTRIES
        invariant 1 <= i <= ENTRIES && pmm.Valid()
        invariant Cleared(used0, pmm.used[..], BelowFrames(tab, [], 1, i))
      {
        FreeSlotRoot(i, used0);
        i := i + 1;
      }
      Release(root, used0, BelowFrames(tab, [], 1, ENTRIES));
    }

    method FreeSlotRoot(i: int, ghost used0: seq<bool>)
      requires Tree(mem.t, tab) && NoHuge(mem.t, tab) && Exclusive(tab) && tab[[]] == root && 1 <= i < ENTRIES
      requires |used0| == pmm.resv.Length
      requires forall f :: f in PrivateFrames(tab) ==> 0 <= f < |used0| && used0[f] && !pmm.resv[f]
      requires pmm.Valid() && Cleared(used0, pmm.used[..], BelowFrames(tab, [], 1, i))
      modifies pmm, pmm.used
      ensures pmm.Valid() && Cleared(used0, pmm.used[..], BelowFrames(tab, [], 1, i + 1))
    {
      BelowStep(mem.t, tab, [], 1, i);
      SubtreesApart(tab, [], 1, i);
      SlotIsPrivate(tab, i);
      assert Linked(mem.t, tab, [], i) && Plain(mem.t, tab, [], i);
      ghost var done := BelowFrames(tab, [], 1, i);
      var e := mem.t[root][i];
      if e.present {
        assert !e.huge;  // as in FreeSlotPd
        FreePdpt(e.frame, [] + [i], used0, done);
      }
      assert BelowFrames(tab, [], 1, i + 1) == done + UnderFrames(tab, [] + [i]);
    }

    /** vmm_space_ref */
    method Ref()
      modifies this`refcount
      ensures refcount == old(refcount) + if isKernel then 0 else 1
    {
      if !isKernel {
        refcount := refcount + 1;
      }
    }

    /** vmm_space_unref: the last reference tears the tree down, no other does, and a count of
        zero is left alone. */
    method Unref()
      requires Valid()
      requires !isKernel && refcount == 1 ==>
                 Exclusive(tab) && forall f :: f in PrivateFrames(tab) ==> 0 <= f < pmm.totalPages && pmm.Releasable(f)
      modifies this`refcount, pmm, pmm.used
      ensures pmm.Valid() && Cleared(old(pmm.used[..]), pmm.used[..],
                                     if !isKernel && old(refcount) == 1 then PrivateFrames(tab) else {})
      ensures refcount == if isKernel || old(refcount) == 0 then old(refcount) else old(refcount) - 1
    {
      if isKernel || refcount == 0 {
        return;
      }
      refcount := refcount - 1;
      if refcount == 0 {
        Destroy();
      }
    }
  }

  /** Taking and dropping a reference on a living space changes nothing, whoever else holds one. */
  method RefUnref(s: Space)
    requires s.Valid() && (s.isKernel || s.refcount > 0)
    modifies s`refcount, s.pmm, s.pmm.used
    ensures s.refcount == old(s.refcount) && s.pmm.used[..] == old(s.pmm.used[..])
  {
    s.Ref();
    s.Unref();
  }
}
