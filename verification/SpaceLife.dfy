/** The life of a user address space: vmm_create, any mix of mapping fresh pages and
    unmap-then-free, and the final vmm_space_unref.  Every frame taken from the page allocator
    goes back exactly once, and the kernel's own mappings are never touched. */
module SpaceLife {
  import opened Basics
  import opened Pmm
  import opened PageTree
  import opened AddressSpace

  /** User addresses below 2^48 never reach slot 0 of the root, the kernel's subtree. */
  lemma UserPagesArePrivate(va: nat)
    requires USER_VA_BASE <= va < VA_LIMIT
    ensures Private(PathOf(va))
  {
  }

  /** A page lies outside the slot shared with the kernel exactly when its address is at least
      USER_VA_BASE modulo 2^48. */
  lemma PrivateIff(va: nat)
    ensures Private(PathOf(va)) <==> va % VA_LIMIT >= USER_VA_BASE
  {
    var q, r := va / VA_LIMIT, va % VA_LIMIT;
    assert va == q * VA_LIMIT + r;
    assert va / 0x80_0000_0000 == q * 512 + r / 0x80_0000_0000;
    assert (q * 512 + r / 0x80_0000_0000) % 512 == r / 0x80_0000_0000;
  }

  /** vmm_map has no upper bound: an address above 2^48 can pass its check and land in slot 0. */
  lemma NonCanonicalReachesKernelSlot(kva: nat)
    requires kva < USER_VA_BASE && kva % PAGE_SIZE == 0
    ensures PathOf(VA_LIMIT + kva) == PathOf(kva) && PathOf(kva)[0] == 0
  {
    PathOfIdentifiesPage(VA_LIMIT + kva, kva);
  }

  lemma FarAligned(kva: nat)
    requires kva % PAGE_SIZE == 0
    ensures (VA_LIMIT + kva) % PAGE_SIZE == 0 && VA_LIMIT + kva >= USER_VA_BASE
  {
  }

  // ---- shapes -----------------------------------------------------------------

  ghost predicate TablesApart(tab: Shape) {
    forall p, q {:trigger Apart(tab, p, q)} ::
      p in tab && q in tab && |p| < 4 && |q| < 4 && p != q ==> Apart(tab, p, q)
  }

  lemma PrefixPrivate(q: Path, v: Path)
    requires Under(q, v) && v != [] && Private(v)
    ensures Private(q)
  {
    if q != [] { assert q[0] == v[..|q|][0]; }
  }

  /** Growing towards a private page takes only fresh frames, so nothing becomes shared. */
  lemma GrowKeepsExclusive(tab: Shape, tab': Shape, used: seq<bool>, used': seq<bool>, v: Path)
    requires Exclusive(tab) && Grows(tab, tab', used, used', v) && TablesApart(tab')
    requires v != [] && Private(v)
    requires forall f :: f in PrivateFrames(tab) ==> 0 <= f < |used| && used[f]
    ensures Exclusive(tab') && PrivateFrames(tab') == PrivateFrames(tab) + NewFrames(tab, tab')
  {
    forall q | q in tab' && q !in tab
      ensures Private(q)
    {
      PrefixPrivate(q, v);
    }
    forall p, q | p in tab' && q in tab' && Private(p) && Private(q) && p != q
      ensures Apart(tab', p, q)
    {
      if p in tab && q in tab {
        assert Apart(tab, p, q);
      } else if p !in tab && q !in tab {
        assert Apart(tab', p, q);
      } else if p in tab {
        assert tab[p] in PrivateFrames(tab) && !used[tab'[q]];
      } else {
        assert tab[q] in PrivateFrames(tab) && !used[tab'[p]];
      }
    }
  }

  lemma LeafKeepsExclusive(tab: Shape, v: Path, f: int)
    requires Exclusive(tab) && v !in tab && Private(v) && f !in PrivateFrames(tab)
    ensures Exclusive(tab[v := f]) && PrivateFrames(tab[v := f]) == PrivateFrames(tab) + {f}
  {
    var tab' := tab[v := f];
    forall p, q | p in tab' && q in tab' && Private(p) && Private(q) && p != q
      ensures Apart(tab', p, q)
    {
      if p in tab && q in tab { assert Apart(tab, p, q); }
      if p in tab { assert tab[p] in PrivateFrames(tab); }
      if q in tab { assert tab[q] in PrivateFrames(tab); }
    }
    forall x
      ensures x in PrivateFrames(tab') <==> x in PrivateFrames(tab) || x == f
    {
      assert tab'[v] == f;
      if x in PrivateFrames(tab) {
        var p :| p in tab && Private(p) && tab[p] == x;
        assert tab'[p] == x;
      }
    }
  }

  lemma DropKeepsExclusive(tab: Shape, v: Path)
    requires Exclusive(tab) && v in tab && Private(v)
    ensures Exclusive(tab - {v}) && PrivateFrames(tab - {v}) == PrivateFrames(tab) - {tab[v]}
    ensures tab[v] in PrivateFrames(tab)
  {
    var tab' := tab - {v};
    forall p, q | p in tab' && q in tab' && Private(p) && Private(q) && p != q
      ensures Apart(tab', p, q)
    {
      assert Apart(tab, p, q);
    }
    forall p | p in tab && Private(p) && p != v
      ensures tab[p] != tab[v]
    {
      assert Apart(tab, p, v);
    }
    forall x | x in PrivateFrames(tab) && x != tab[v]
      ensures x in PrivateFrames(tab')
    {
      var p :| p in tab && Private(p) && tab[p] == x;
      assert tab'[p] == x;
    }
  }

  /** A tree whose tables were not written is the same tree. */
  lemma Untouched(t: Tables, t': Tables, tab: Shape)
    requires Tree(t, tab)
    requires forall q :: q in tab && |q| < 4 ==> tab[q] in t' && t'[tab[q]] == t[tab[q]]
    ensures Tree(t', tab) && View(t', tab) == View(t, tab) && (NoHuge(t, tab) ==> NoHuge(t', tab))
  {
    forall q, k | q in tab && |q| < 4 && 0 <= k < ENTRIES
      ensures Linked(t', tab, q, k)
    {
      assert Linked(t, tab, q, k);
    }
    assert forall q, k :: q in tab && |q| < 4 && 0 <= k < ENTRIES ==> Plain(t', tab, q, k) == Plain(t, tab, q, k);
    assert forall q :: q in tab && |q| == 4 ==> Parent(q) in tab && Entry(t', tab, q) == Entry(t, tab, q);
  }

  // ---- one space --------------------------------------------------------------

  /** The space holds exactly the frames that are used now and were free in `base`. */
  ghost predicate Owned(s: Space, base: seq<bool>)
    reads s, s.mem, s.pmm, s.pmm.used, s.pmm.resv
  {
    && s.Valid() && !s.isKernel && Exclusive(s.tab)
    && Cleared(s.pmm.used[..], base, PrivateFrames(s.tab))
    && BaseKept(s, base)
  }

  /** What was in use before the space was made: the reserved pages and the shared tables. */
  ghost predicate BaseKept(s: Space, base: seq<bool>)
    reads s, s.pmm.resv
  {
    && |base| == s.pmm.resv.Length
    && (forall f :: 0 <= f < |base| && s.pmm.resv[f] ==> base[f])
    && SharedIn(s.tab, base)
  }

  ghost predicate SharedIn(tab: Shape, base: seq<bool>) {
    forall q :: q in tab && |q| < 4 && !Private(q) ==> 0 <= tab[q] < |base| && base[tab[q]]
  }

  /** In a user space nothing but memory can stop a mapping. */
  lemma PrivateNeverBlocked(s: Space, v: Path)
    requires s.Valid() && !s.isKernel && v != [] && Private(v)
    ensures !s.Blocked(v)
  {
    forall p | p in s.tab && |p| < 3 && |p| < |v| && Under(p, v) && 0 <= v[|p|] < ENTRIES
      ensures !HugeAt(s.mem.t, s.tab[p], p, v)
    {
      PrefixPrivate(p, v);
      assert Plain(s.mem.t, s.tab, p, v[|p|]);
    }
  }

  /** vmm_create.  `heapOk` is the outcome of the allocation of the struct itself. */
  method Create(kernel: Space, heapOk: bool) returns (s: Space?)
    requires kernel.Valid() && kernel.isKernel
    requires forall i :: 1 <= i < ENTRIES ==> !kernel.mem.t[kernel.root][i].present
    modifies kernel.pmm, kernel.pmm.used, kernel.mem
    ensures kernel.Valid() && kernel.Abs() == old(kernel.Abs())
    ensures s == null <==> !heapOk || old(kernel.pmm.freePages) == 0
    ensures s == null ==> kernel.pmm.used[..] == old(kernel.pmm.used[..])
    ensures s != null ==>
              && fresh(s) && s.pmm == kernel.pmm && s.mem == kernel.mem && s.refcount == 1
              && Owned(s, old(kernel.pmm.used[..])) && s.Abs() == kernel.Abs() && RightsHold(s)
  {
    s := CreateSharing(kernel, heapOk);
    if s != null {
      NothingYet(s);
      OpenHolds(s);
    }
  }

  /** A space whose only private frame is its root has no table in the way. */
  lemma NothingYet(s: Space)
    requires s.Valid() && Exclusive(s.tab) && PrivateFrames(s.tab) == {s.root}
    ensures OpenWay(s.mem.t, s.tab)
  {
    forall p | p in s.tab && 0 < |p| < 4
      ensures !Private(p)
    {
      assert Apart(s.tab, p, []);
      if Private(p) { FrameCounts(s.tab, p); }
    }
  }

  lemma FrameCounts(tab: Shape, p: Path)
    requires p in tab && Private(p)
    ensures tab[p] in PrivateFrames(tab)
  {
  }

  /** vmm_create again, saying what the new space shares with the kernel: everything but the root. */
  method CreateSharing(kernel: Space, heapOk: bool) returns (s: Space?)
    requires kernel.Valid() && kernel.isKernel
    requires forall i :: 1 <= i < ENTRIES ==> !kernel.mem.t[kernel.root][i].present
    modifies kernel.pmm, kernel.pmm.used, kernel.mem
    ensures kernel.Valid() && kernel.Abs() == old(kernel.Abs())
    ensures s == null <==> !heapOk || old(kernel.pmm.freePages) == 0
    ensures s == null ==> kernel.pmm.used[..] == old(kernel.pmm.used[..])
    ensures s != null ==>
              && fresh(s) && s.pmm == kernel.pmm && s.mem == kernel.mem && s.refcount == 1
              && Owned(s, old(kernel.pmm.used[..])) && s.Abs() == kernel.Abs()
              && s.tab == kernel.tab[[] := s.root] && s.root != kernel.root && PrivateFrames(s.tab) == {s.root}
              && forall v: Path :: s.Blocked(v) ==> HugeOnWay(old(kernel.mem.t), kernel.tab, v)
  {
    if !heapOk {
      return null;
    }
    var np := kernel.pmm.AllocPage();
    if np == 0 {
      return null;
    }
    s := CloneKernel(kernel, np / PAGE_SIZE);
    NewIsOwned(s, kernel.tab, old(kernel.pmm.used[..]));
    forall v: Path
      ensures s.Blocked(v) ==> HugeOnWay(old(kernel.mem.t), kernel.tab, v)
    {
      CloneBlocked(old(kernel.mem.t), kernel.tab, s.root, s.mem.t, s.tab, v);
    }
  }

  /** A user space maps a page at 2^48 plus a kernel address. It fails only for want of memory, or where the
      kernel has a page already; whenever it succeeds, the kernel's own tables map the page too. */
  method MapBeyondCanonical(kernel: Space, kva: nat, pa: nat, fl: Flags) returns (ok: bool, ghost ktab: Shape)
    requires kernel.Valid() && kernel.isKernel && [0] in kernel.tab
    requires forall i :: 1 <= i < ENTRIES ==> !kernel.mem.t[kernel.root][i].present
    requires kva < USER_VA_BASE && kva % PAGE_SIZE == 0 && pa % PAGE_SIZE == 0 && fl.present
    modifies kernel.pmm, kernel.pmm.used, kernel.mem
    ensures !ok ==> kernel.pmm.freePages == 0 || PathOf(kva) in old(kernel.Abs())
                    || HugeOnWay(old(kernel.mem.t), kernel.tab, PathOf(kva))
    ensures ok ==> PathOf(kva) !in old(kernel.Abs())
    ensures ok ==> Tree(kernel.mem.t, ktab) && ktab[[]] == kernel.root
    ensures ok ==> View(kernel.mem.t, ktab) == old(kernel.Abs())[PathOf(kva) := Mapping(FrameOf(pa), fl)]
  {
    ktab := map[];
    var s := CreateSharing(kernel, true);
    if s == null {
      return false, ktab;
    }
    ok, ktab := MapFar(kernel, s, kva, pa, fl);
  }

  /** The same through a user space that differs from the kernel's only in its root. */
  method MapFar(kernel: Space, s: Space, kva: nat, pa: nat, fl: Flags) returns (ok: bool, ghost ktab: Shape)
    requires kernel.Valid() && s.Valid() && !s.isKernel && s.pmm == kernel.pmm && s.mem == kernel.mem
    requires [0] in kernel.tab && s.tab == kernel.tab[[] := s.root] && s.root != kernel.root && s != kernel
    requires kva < USER_VA_BASE && kva % PAGE_SIZE == 0 && pa % PAGE_SIZE == 0 && fl.present
    modifies s.pmm, s.pmm.used, s.mem, s`tab
    ensures !ok ==> s.pmm.freePages == 0 || PathOf(kva) in old(s.Abs()) || old(s.Blocked(PathOf(kva)))
    ensures ok ==> PathOf(kva) !in old(s.Abs()) && Tree(s.mem.t, ktab) && ktab[[]] == kernel.root
    ensures ok ==> View(s.mem.t, ktab) == old(s.Abs())[PathOf(kva) := Mapping(FrameOf(pa), fl)]
  {
    ktab := map[];
    FarAligned(kva);
    NonCanonicalReachesKernelSlot(kva);
    ok := s.Map(VA_LIMIT + kva, pa, fl);
    if ok {
      ktab := s.tab[[] := kernel.root];
      KernelSees(old(s.mem.t), s.mem.t, kernel.tab, kernel.root, old(s.tab), s.tab,
                 old(s.pmm.used[..]), s.pmm.used[..], PathOf(kva), FrameOf(pa));
    }
  }

  lemma CloneBlocked(t: Tables, tab: Shape, f: int, t': Tables, tab': Shape, v: Path)
    requires Clones(t, tab, f, t', tab') && Tree(t', tab')
    ensures HugeOnWay(t', tab', v) ==> HugeOnWay(t, tab, v)
  {
    if HugeOnWay(t', tab', v) {
      var p :| p in tab' && HugeAt(t', tab'[p], p, v);
      assert p in tab && HugeAt(t, tab[p], p, v);
    }
  }

  lemma SlotOfPath(i: int, v: Path)
    requires |v| == 4
    ensures Under([] + [i], v) ==> [] + [i] == [v[0]]
  {
    assert v[..1] == [v[0]];
  }

  /** After growth below a slot that both roots share, the kernel's root leads to the same pages. */
  lemma KernelSees(t: Tables, t': Tables, ktab: Shape, kroot: int, tab: Shape, tab': Shape,
                   used: seq<bool>, used': seq<bool>, v: Path, frame: int)
    requires Tree(t, ktab) && ktab[[]] == kroot && [] in tab && tab == ktab[[] := tab[[]]] && tab[[]] != kroot
    requires Tree(t, tab) && Tree(t', tab') && [0] in ktab && |v| == 4 && v[0] == 0
    requires v in tab' && Grows(tab, tab' - {v}, used, used', v) && Isolated(t, t', tab, used, v)
    requires 0 <= kroot < |used| && used[kroot]
    ensures Tree(t', tab'[[] := kroot]) && View(t', tab'[[] := kroot]) == View(t', tab')
  {
    forall q | q in tab && |q| < 4
      ensures tab[q] != kroot
    {
      if q != [] { assert Apart(ktab, q, []); }
    }
    assert OffWay(tab, v, kroot);
    var ktab' := tab'[[] := kroot];
    forall i | 0 <= i < ENTRIES
      ensures Linked(t', ktab', [], i)
    {
      assert Linked(t, ktab, [], i);
      SlotOfPath(i, v);
    }
    OtherRoot(t', tab', kroot, ktab');
  }

  /** The copying half of vmm_create, into the frame `f` just taken. */
  method CloneKernel(kernel: Space, f: int) returns (s: Space)
    requires kernel.Valid() && kernel.isKernel
    requires forall i :: 1 <= i < ENTRIES ==> !kernel.mem.t[kernel.root][i].present
    requires 0 < f < kernel.pmm.totalPages && kernel.pmm.used[f]
    requires forall q :: q in kernel.tab && |q| < 4 ==> kernel.tab[q] != f
    modifies kernel.mem
    ensures kernel.Valid() && kernel.Abs() == old(kernel.Abs())
    ensures fresh(s) && s.pmm == kernel.pmm && s.mem == kernel.mem && s.refcount == 1 && s.root == f
    ensures s.Valid() && !s.isKernel && s.Abs() == kernel.Abs()
    ensures Exclusive(s.tab) && PrivateFrames(s.tab) == {f}
    ensures Clones(old(kernel.mem.t), kernel.tab, f, s.mem.t, s.tab)
  {
    ghost var tab' := kernel.tab[[] := f];
    CloneForUser(kernel.mem.t, kernel.tab, f, kernel.mem.t[f := kernel.mem.t[kernel.root]], tab');
    kernel.mem.t := kernel.mem.t[f := kernel.mem.t[kernel.root]];
    s := new Space.Make(kernel.pmm, kernel.mem, false, f, tab');
  }

  lemma NewIsOwned(s: Space, ktab: Shape, base: seq<bool>)
    requires s.Valid() && !s.isKernel && Exclusive(s.tab) && PrivateFrames(s.tab) == {s.root}
    requires s.tab == ktab[[] := s.root] && |base| == s.pmm.totalPages && s.pmm.used[..] == base[s.root := true]
    requires !base[s.root] && !s.pmm.resv[s.root] && forall q :: q in ktab && |q| < 4 ==> ktab[q] != s.root
    ensures Owned(s, base)
  {
    assert SharedIn(s.tab, base);
    ClearedOne(base, s.root);
  }

  lemma ClearedOne(base: seq<bool>, f: int)
    requires 0 <= f < |base| && !base[f]
    ensures Cleared(base[f := true], base, {f})
  {
  }

  lemma CloneForUser(t: Tables, tab: Shape, f: int, t': Tables, tab': Shape)
    requires Clones(t, tab, f, t', tab')
    requires forall i :: 1 <= i < ENTRIES ==> !t[tab[[]]][i].present
    ensures Tree(t', tab) && View(t', tab) == View(t, tab)
    ensures Tree(t', tab') && View(t', tab') == View(t, tab)
    ensures NoHuge(t', tab') && Exclusive(tab') && PrivateFrames(tab') == {f}
  {
    CloneRoot(t, tab, f, t', tab');
    CloneKeepsOriginal(t, tab, f, t', tab');
    CloneRootPrivate(t, tab, t', tab');
  }

  lemma OwnAfterGrow(tab: Shape, tab': Shape, used: seq<bool>, used': seq<bool>, base: seq<bool>, v: Path, f: int)
    requires Exclusive(tab) && Cleared(used, base, PrivateFrames(tab))
    requires 0 <= f < |used| && !used[f] && TablesApart(tab')
    requires v != [] && Private(v) && Grows(tab, tab', used[f := true], used', v)
    ensures Exclusive(tab') && f !in PrivateFrames(tab') && (SharedIn(tab, base) ==> SharedIn(tab', base))
    ensures Cleared(used', base, PrivateFrames(tab') + {f})
    ensures Cleared(used'[f := false], base, PrivateFrames(tab'))
  {
    GrowKeepsExclusive(tab, tab', used[f := true], used', v);
    forall q | q in tab' && q !in tab
      ensures Private(q)
    {
      PrefixPrivate(q, v);
    }
  }

  lemma OwnAfterMap(tab: Shape, tab': Shape, used: seq<bool>, used': seq<bool>, base: seq<bool>, v: Path, f: int)
    requires Exclusive(tab) && Cleared(used, base, PrivateFrames(tab))
    requires 0 <= f < |used| && !used[f] && TablesApart(tab') && v in tab' && |v| == 4 && tab'[v] == f
    requires Private(v) && Grows(tab, tab' - {v}, used[f := true], used', v)
    ensures Exclusive(tab') && Cleared(used', base, PrivateFrames(tab'))
    ensures SharedIn(tab, base) ==> SharedIn(tab', base)
  {
    var mid := tab' - {v};
    forall p, q | p in mid && q in mid && |p| < 4 && |q| < 4 && p != q
      ensures Apart(mid, p, q)
    {
      assert Apart(tab', p, q);
    }
    OwnAfterGrow(tab, mid, used, used', base, v, f);
    LeafKeepsExclusive(mid, v, f);
    assert mid[v := f] == tab';
  }

  lemma IsolatedEarlier(t: Tables, t': Tables, tab: Shape, used: seq<bool>, f: int, v: Path)
    requires 0 <= f < |used| && Isolated(t, t', tab, used[f := true], v)
    ensures Isolated(t, t', tab, used, v)
  {
    forall x | x in t && 0 <= x < |used| && used[x] && OffWay(tab, v, x)
      ensures x in t' && t'[x] == t[x]
    {
      assert used[f := true][x];
    }
  }

  /** The page at `f` was just taken from an allocator that had `used`. */
  ghost predicate Holding(s: Space, base: seq<bool>, used: seq<bool>, f: int)
    reads s, s.mem, s.pmm, s.pmm.used, s.pmm.resv
  {
    && s.Valid() && !s.isKernel && Exclusive(s.tab)
    && |used| == |base| == s.pmm.totalPages && 0 < f < |used| && !used[f]
    && Cleared(used, base, PrivateFrames(s.tab)) && NoTableIn(s.tab, f)
    && s.pmm.used[..] == used[f := true]
    && BaseKept(s, base)
  }

  /** Map one freshly allocated page and return its address, or 0; a page that could not be
      mapped is given back. */
  method MapFresh(s: Space, va: nat, flags: Flags, ghost base: seq<bool>) returns (pa: nat)
    requires Owned(s, base) && Private(PathOf(va))
    modifies s.pmm, s.pmm.used, s.mem, s`tab
    ensures Owned(s, base)
    ensures Isolated(old(s.mem.t), s.mem.t, old(s.tab), old(s.pmm.used[..]), PathOf(va))
    ensures Ways(old(s.mem.t), old(s.tab), s.mem.t, s.tab, flags.user)
    ensures pa == 0 ==> s.Abs() == old(s.Abs())
    ensures pa == 0 ==> s.pmm.freePages <= 1 || PathOf(va) in old(s.Abs()) || !s.Mappable(va, 0, flags)
    ensures pa != 0 ==> PathOf(va) !in old(s.Abs()) && s.Mappable(va, pa, flags)
    ensures pa != 0 ==> pa / PAGE_SIZE < s.pmm.totalPages && !old(s.pmm.used[pa / PAGE_SIZE])
    ensures pa != 0 ==> s.Abs() == old(s.Abs())[PathOf(va) := Mapping(pa / PAGE_SIZE, flags)]
  {
    pa := s.pmm.AllocPage();
    if pa == 0 {
      return;
    }
    assert Holding(s, base, old(s.pmm.used[..]), pa / PAGE_SIZE);
    var ok := MapHeld(s, va, pa, flags, base, old(s.pmm.used[..]));
    if !ok {
      GiveBack(s, pa, base, s.pmm.used[..]);
      pa := 0;
    }
  }

  method MapHeld(s: Space, va: nat, pa: nat, flags: Flags, ghost base: seq<bool>, ghost used: seq<bool>)
    returns (ok: bool)
    requires pa % PAGE_SIZE == 0 && Holding(s, base, used, pa / PAGE_SIZE) && Private(PathOf(va))
    modifies s.pmm, s.pmm.used, s.mem, s`tab
    ensures s.Valid() && Exclusive(s.tab) && BaseKept(s, base)
    ensures ok ==> Owned(s, base) && PathOf(va) !in old(s.Abs()) && s.Mappable(va, pa, flags)
    ensures ok ==> s.Abs() == old(s.Abs())[PathOf(va) := Mapping(pa / PAGE_SIZE, flags)]
    ensures !ok ==> Cleared(s.pmm.used[..][pa / PAGE_SIZE := false], base, PrivateFrames(s.tab))
    ensures !ok ==> s.pmm.used[pa / PAGE_SIZE] && pa / PAGE_SIZE !in PrivateFrames(s.tab) && s.Abs() == old(s.Abs())
    ensures !ok ==> s.pmm.freePages == 0 || PathOf(va) in old(s.Abs()) || !s.Mappable(va, 0, flags)
    ensures !ok ==> NoTableIn(s.tab, pa / PAGE_SIZE)
    ensures Ways(old(s.mem.t), old(s.tab), s.mem.t, s.tab, flags.user)
    ensures Isolated(old(s.mem.t), s.mem.t, old(s.tab), used, PathOf(va))
  {
    ghost var f, v := pa / PAGE_SIZE, PathOf(va);
    PrivateNeverBlocked(s, v);
    FrameOfSmall(pa);
    ok := s.Map(va, pa, flags);
    IsolatedEarlier(old(s.mem.t), s.mem.t, old(s.tab), used, f, v);
    if ok {
      OwnAfterMap(old(s.tab), s.tab, used, s.pmm.used[..], base, v, f);
    } else {
      OwnAfterGrow(old(s.tab), s.tab, used, s.pmm.used[..], base, v, f);
      assert NoTableIn(s.tab, f);
    }
  }

  ghost predicate NoTableIn(tab: Shape, f: int) {
    forall q :: q in tab && |q| < 4 ==> tab[q] != f
  }

  lemma FrameOfSmall(pa: nat)
    requires pa / PAGE_SIZE < FRAME_BITS
    ensures FrameOf(pa) == pa / PAGE_SIZE
  {
  }

  method GiveBack(s: Space, pa: nat, ghost base: seq<bool>, ghost used: seq<bool>)
    requires s.Valid() && !s.isKernel && Exclusive(s.tab) && s.pmm.used[..] == used
    requires pa % PAGE_SIZE == 0 && pa / PAGE_SIZE < |used| && used[pa / PAGE_SIZE]
    requires !s.pmm.resv[pa / PAGE_SIZE] && pa / PAGE_SIZE !in PrivateFrames(s.tab)
    requires NoTableIn(s.tab, pa / PAGE_SIZE)
    requires Cleared(used[pa / PAGE_SIZE := false], base, PrivateFrames(s.tab))
    requires BaseKept(s, base)
    modifies s.pmm, s.pmm.used
    ensures Owned(s, base) && s.Abs() == old(s.Abs()) && s.pmm.freePages == old(s.pmm.freePages) + 1
  {
    var freed := s.pmm.FreePage(pa);
  }

  /** Unmap one page and give its frame back (the loop body of sys_unmap). */
  method UnmapFree(s: Space, va: nat, ghost base: seq<bool>) returns (ok: bool)
    requires Owned(s, base) && Private(PathOf(va))
    modifies s.pmm, s.pmm.used, s.mem, s`tab
    ensures Owned(s, base)
    ensures Isolated(old(s.mem.t), s.mem.t, old(s.tab), old(s.pmm.used[..]), PathOf(va))
    ensures ok <==> va % PAGE_SIZE == 0 && va >= USER_VA_BASE && PathOf(va) in old(s.Abs())
    ensures Ways(old(s.mem.t), old(s.tab), s.mem.t, s.tab, true)
    ensures ok ==> s.Abs() == old(s.Abs()) - {PathOf(va)}
    ensures ok ==> s.pmm.freePages == old(s.pmm.freePages) + 1
    ensures !ok ==> s.Abs() == old(s.Abs()) && s.pmm.used[..] == old(s.pmm.used[..])
  {
    var r := s.Query(va);
    if r == None {
      return false;
    }
    ok := TakeOut(s, va, r.value.frame, base);
    if ok {
      ReleaseLeaf(s, r.value.frame, base, old(PrivateFrames(s.tab)));
    }
  }

  /** The page is out of the tables, its frame still marked used. */
  ghost predicate Between(s: Space, f: int, base: seq<bool>, fs: set<int>)
    reads s, s.mem, s.pmm, s.pmm.used, s.pmm.resv
  {
    && s.Valid() && !s.isKernel && Exclusive(s.tab) && f in fs && PrivateFrames(s.tab) == fs - {f}
    && Cleared(s.pmm.used[..], base, fs) && NoTableIn(s.tab, f) && BaseKept(s, base)
  }

  method TakeOut(s: Space, va: nat, ghost f: int, ghost base: seq<bool>) returns (ok: bool)
    requires Owned(s, base) && Private(PathOf(va)) && PathOf(va) in s.Abs() && s.Abs()[PathOf(va)].frame == f
    modifies s.mem, s`tab
    ensures Isolated(old(s.mem.t), s.mem.t, old(s.tab), old(s.pmm.used[..]), PathOf(va))
    ensures ok <==> va % PAGE_SIZE == 0 && va >= USER_VA_BASE
    ensures Ways(old(s.mem.t), old(s.tab), s.mem.t, s.tab, true)
    ensures ok ==> Between(s, f, base, old(PrivateFrames(s.tab))) && s.Abs() == old(s.Abs()) - {PathOf(va)}
    ensures !ok ==> Owned(s, base) && s.Abs() == old(s.Abs())
  {
    ok := s.Unmap(va);
    if ok {
      DropLeaf(old(s.tab), PathOf(va), old(s.pmm.used[..]), base);
    }
  }

  /** An unmapped frame is no table, private or shared. */
  lemma DropLeaf(tab: Shape, v: Path, used: seq<bool>, base: seq<bool>)
    requires Exclusive(tab) && v in tab && |v| == 4 && Private(v)
    requires Cleared(used, base, PrivateFrames(tab)) && SharedIn(tab, base)
    ensures Exclusive(tab - {v}) && PrivateFrames(tab - {v}) == PrivateFrames(tab) - {tab[v]}
    ensures tab[v] in PrivateFrames(tab) && NoTableIn(tab - {v}, tab[v]) && SharedIn(tab - {v}, base)
  {
    DropKeepsExclusive(tab, v);
    forall q | q in tab && |q| < 4
      ensures tab[q] != tab[v]
    {
      if Private(q) { assert Apart(tab, q, v); }
    }
  }

  method ReleaseLeaf(s: Space, f: int, ghost base: seq<bool>, ghost fs: set<int>)
    requires Between(s, f, base, fs)
    modifies s.pmm, s.pmm.used
    ensures Owned(s, base) && s.Abs() == old(s.Abs()) && s.pmm.freePages == old(s.pmm.freePages) + 1
  {
    var freed := s.pmm.FreePage(f * PAGE_SIZE);
  }

  /** A page for the kernel first, then one for the user behind the same tables: the second is reported as a
      user page, and the processor lets no user access through. */
  method SupervisorFirst(s: Space, va: nat, wa: nat, pa: nat, pb: nat) returns (ok: bool)
    requires s.Valid() && !s.isKernel && va % PAGE_SIZE == wa % PAGE_SIZE == pa % PAGE_SIZE == pb % PAGE_SIZE == 0
    requires va >= USER_VA_BASE && wa >= USER_VA_BASE && PathOf(va) != PathOf(wa)
    requires PathOf(va)[0] == PathOf(wa)[0] >= 1 && [PathOf(va)[0]] !in s.tab
    modifies s.pmm, s.pmm.used, s.mem, s`tab
    ensures s.Valid() && (!ok ==> s.pmm.freePages == 0)
    ensures ok ==> PathOf(wa) in s.Abs() && s.Abs()[PathOf(wa)].flags.user
    ensures ok ==> !Effective(s.mem.t, s.tab, PathOf(wa)).user
  {
    ghost var v, w := PathOf(va), PathOf(wa);
    NotYet(s, v);
    NotYet(s, w);
    ok := s.Map(va, pa, Flags(true, true, false, false));
    if ok {
      PrefixIn(s.mem.t, s.tab, v, 1);
      assert v[..1] == [v[0]] && !Upper(s.mem.t, s.tab, [v[0]]).user;
      PrivateNeverBlocked(s, w);
      ok := UserSecond(s, wa, pb);
    }
  }

  lemma NotYet(s: Space, v: Path)
    requires s.Valid() && !s.isKernel && |v| == 4 && v[0] >= 1 && [v[0]] !in s.tab
    ensures v !in s.Abs() && !s.Blocked(v)
  {
    assert v[..1] == [v[0]] && v[..4] == v;
    CutOff(s.mem.t, s.tab, v, 1, 4);
    PrivateNeverBlocked(s, v);
  }

  method UserSecond(s: Space, wa: nat, pb: nat) returns (ok: bool)
    requires s.Valid() && !s.isKernel && wa % PAGE_SIZE == pb % PAGE_SIZE == 0 && wa >= USER_VA_BASE
    requires PathOf(wa) !in s.Abs() && !s.Blocked(PathOf(wa))
    requires [PathOf(wa)[0]] in s.tab && !Upper(s.mem.t, s.tab, [PathOf(wa)[0]]).user
    modifies s.pmm, s.pmm.used, s.mem, s`tab
    ensures s.Valid() && (!ok ==> s.pmm.freePages == 0)
    ensures ok ==> PathOf(wa) in s.Abs() && s.Abs()[PathOf(wa)].flags.user
    ensures ok ==> !Effective(s.mem.t, s.tab, PathOf(wa)).user
  {
    ghost var w, t, tab := PathOf(wa), s.mem.t, s.tab;
    ok := s.Map(wa, pb, Flags(true, true, true, false));
    if ok {
      PrefixIn(s.mem.t, s.tab, w, 1);
      assert w[..1] == [w[0]] && Upper(s.mem.t, s.tab, [w[0]]) == Upper(t, tab, [w[0]]);
      NoWiderThan(s.mem.t, s.tab, w, 1);
    }
  }

  // ---- a whole life -------------------------------------------------------------

  datatype Op = MapOp(va: nat, flags: Flags) | UnmapOp(va: nat)

  /** sys_map and sys_unmap only ever ask for user pages below the canonical top. */
  predicate UserOp(op: Op) {
    USER_VA_BASE <= op.va < VA_LIMIT
  }

  /** It maps nothing but user pages. */
  predicate AsksUser(op: Op) {
    op.MapOp? ==> op.flags.user
  }

  /** The processor grants on every private page exactly what its flags say. */
  ghost predicate RightsHold(s: Space)
    reads s, s.mem
  {
    Tree(s.mem.t, s.tab) && OpenWay(s.mem.t, s.tab)
    && forall v :: v in s.Abs() && Private(v) ==>
         Effective(s.mem.t, s.tab, v) == Rights(s.Abs()[v].flags.write, s.Abs()[v].flags.user)
  }

  lemma OpenHolds(s: Space)
    requires s.Valid() && OpenWay(s.mem.t, s.tab)
    ensures RightsHold(s)
  {
    forall v | v in s.Abs() && Private(v)
      ensures Effective(s.mem.t, s.tab, v) == Rights(s.Abs()[v].flags.write, s.Abs()[v].flags.user)
    {
      RightsAreFlags(s.mem.t, s.tab, v);
    }
  }

  /** The kernel's tables were in use before the space was made. */
  ghost predicate KernelIn(kernel: Space, base: seq<bool>)
    reads kernel
  {
    forall q :: q in kernel.tab && |q| < 4 ==> 0 <= kernel.tab[q] < |base| && base[kernel.tab[q]]
  }

  /** A write on the way to a private page leaves every table that was in use before alone. */
  lemma KernelSurvives(t: Tables, t': Tables, ktab: Shape, tab: Shape, used: seq<bool>, base: seq<bool>, v: Path)
    requires Tree(t, ktab) && Isolated(t, t', tab, used, v) && v != [] && Private(v)
    requires Cleared(used, base, PrivateFrames(tab))
    requires forall q :: q in ktab && |q| < 4 ==> 0 <= ktab[q] < |base| && base[ktab[q]]
    ensures Tree(t', ktab) && View(t', ktab) == View(t, ktab)
  {
    forall q | q in ktab && |q| < 4
      ensures ktab[q] in t' && t'[ktab[q]] == t[ktab[q]]
    {
      assert IsTable(t, ktab[q]);
      forall r | r in tab && |r| < 4 && Under(r, v)
        ensures tab[r] != ktab[q]
      {
        PrefixPrivate(r, v);
        assert tab[r] in PrivateFrames(tab);
      }
      assert OffWay(tab, v, ktab[q]);
    }
    Untouched(t, t', ktab);
  }

  /** One request of the process. */
  method Serve(s: Space, op: Op, ghost base: seq<bool>)
    requires Owned(s, base) && UserOp(op)
    modifies s.pmm, s.pmm.used, s.mem, s`tab
    ensures Owned(s, base)
    ensures Isolated(old(s.mem.t), s.mem.t, old(s.tab), old(s.pmm.used[..]), PathOf(op.va))
    ensures AsksUser(op) ==> Ways(old(s.mem.t), old(s.tab), s.mem.t, s.tab, true)
  {
    UserPagesArePrivate(op.va);
    match op
    case MapOp(va, flags) =>
      var pa := MapFresh(s, va, flags, base);
    case UnmapOp(va) =>
      var ok := UnmapFree(s, va, base);
  }

  lemma BaseStaysUsed(s: Space, base: seq<bool>)
    requires Owned(s, base)
    ensures |base| == s.pmm.totalPages && forall f :: 0 <= f < |base| && base[f] ==> s.pmm.used[f]
  {
    assert forall f :: 0 <= f < |base| ==> base[f] == (s.pmm.used[..][f] && f !in PrivateFrames(s.tab));
  }

  /** The same with the kernel looking on. */
  method Perform(s: Space, kernel: Space, op: Op, ghost base: seq<bool>)
    requires Owned(s, base) && UserOp(op)
    requires kernel != s && kernel.pmm == s.pmm && kernel.mem == s.mem && kernel.isKernel
    requires kernel.Valid() && KernelIn(kernel, base)
    modifies s.pmm, s.pmm.used, s.mem, s`tab
    ensures Owned(s, base)
    ensures kernel.Valid() && kernel.Abs() == old(kernel.Abs())
    ensures old(OpenWay(s.mem.t, s.tab)) && AsksUser(op) ==> OpenWay(s.mem.t, s.tab)
  {
    UserPagesArePrivate(op.va);
    Serve(s, op, base);
    if old(OpenWay(s.mem.t, s.tab)) && AsksUser(op) { StaysOpen(old(s.mem.t), old(s.tab), s.mem.t, s.tab); }
    KernelSurvives(old(s.mem.t), s.mem.t, kernel.tab, old(s.tab), old(s.pmm.used[..]), base, PathOf(op.va));
    BaseStaysUsed(s, base);
  }

  method PerformAll(s: Space, kernel: Space, ops: seq<Op>, ghost base: seq<bool>)
    requires Owned(s, base) && (forall op :: op in ops ==> UserOp(op))
    requires kernel != s && kernel.pmm == s.pmm && kernel.mem == s.mem && kernel.isKernel
    requires kernel.Valid() && KernelIn(kernel, base)
    modifies s.pmm, s.pmm.used, s.mem, s`tab
    ensures Owned(s, base)
    ensures kernel.Valid() && kernel.Abs() == old(kernel.Abs())
    ensures old(RightsHold(s)) && (forall op :: op in ops ==> AsksUser(op)) ==> RightsHold(s)
  {
    ghost var user := old(RightsHold(s)) && forall op :: op in ops ==> AsksUser(op);
    for i := 0 to |ops|
      invariant Owned(s, base) && (user ==> OpenWay(s.mem.t, s.tab))
      invariant kernel.Valid() && kernel.Abs() == old(kernel.Abs())
    {
      assert user ==> AsksUser(ops[i]);
      Perform(s, kernel, ops[i], base);
    }
    if user { OpenHolds(s); }
  }

  method LastUnref(s: Space, kernel: Space, ghost base: seq<bool>)
    requires Owned(s, base) && s.refcount == 1
    requires kernel.pmm == s.pmm && kernel.mem == s.mem && kernel.Valid() && KernelIn(kernel, base)
    modifies s`refcount, s.pmm, s.pmm.used
    ensures kernel.Valid() && s.pmm.used[..] == base
  {
    s.Unref();
    assert s.pmm.used[..] == base;
    assert forall f :: 0 <= f < |base| ==> s.pmm.used[f] == base[f];
  }

  /** Frame conservation: whatever a process maps and unmaps, and however many of its requests
      fail, the last unref restores the allocator bit for bit, and the kernel's mappings never
      change. */
  method Life(kernel: Space, ops: seq<Op>, heapOk: bool)
    requires kernel.Valid() && kernel.isKernel
    requires forall i :: 1 <= i < ENTRIES ==> !kernel.mem.t[kernel.root][i].present
    requires forall op :: op in ops ==> UserOp(op)
    modifies kernel.pmm, kernel.pmm.used, kernel.mem
    ensures kernel.Valid() && kernel.Abs() == old(kernel.Abs())
    ensures kernel.pmm.used[..] == old(kernel.pmm.used[..])
    ensures kernel.pmm.freePages == old(kernel.pmm.freePages)
  {
    ghost var base := kernel.pmm.used[..];
    var s := Create(kernel, heapOk);
    if s != null {
      LiveAndDie(s, kernel, ops, base);
    }
  }

  method LiveAndDie(s: Space, kernel: Space, ops: seq<Op>, ghost base: seq<bool>)
    requires Owned(s, base) && s.refcount == 1 && (forall op :: op in ops ==> UserOp(op))
    requires kernel != s && kernel.pmm == s.pmm && kernel.mem == s.mem && kernel.isKernel
    requires kernel.Valid() && KernelIn(kernel, base)
    modifies s, s.pmm, s.pmm.used, s.mem
    ensures kernel.Valid() && kernel.Abs() == old(kernel.Abs()) && s.pmm.used[..] == base
  {
    PerformAll(s, kernel, ops, base);
    LastUnref(s, kernel, base);
  }
}
