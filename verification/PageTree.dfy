/** Four-level page tables (src/kernel/arch/x86_64/mm/vmm.c, section 4.5 of volume 3A of the
    Intel SDM).  Tables are mutable 512-entry arrays in physical frames, linked by frame
    number.  The ghost map `tab` records the shape of the radix tree: it sends the path of
    indices from the root to the frame found there (length 0..3: a table, length 4: a mapped
    page).  Everything the walks do is proved equal to a lookup in the plain map `View`. */
module PageTree {
  import opened Pmm

  const ENTRIES: nat := 512
  const FRAME_BITS: nat := 0x100_0000_0000  // bits 12..51 of an entry

  datatype Flags = Flags(present: bool, write: bool, user: bool, nocache: bool)

  datatype Pte = Pte(present: bool, write: bool, user: bool, pwt: bool, pcd: bool, huge: bool, frame: int)

  datatype Mapping = Mapping(frame: int, flags: Flags)

  type Path = seq<int>
  type Tables = map<int, seq<Pte>>
  type Shape = map<Path, int>

  const NO_ENTRY := Pte(false, false, false, false, false, false, 0)

  function ZeroPage(): (z: seq<Pte>)
    ensures |z| == ENTRIES && forall i :: 0 <= i < ENTRIES ==> z[i] == NO_ENTRY
  {
    seq(ENTRIES, _ => NO_ENTRY)
  }

  function FlagsToPte(f: Flags, frame: int): Pte {
    Pte(f.present, f.write, f.user, f.nocache, f.nocache, false, frame)
  }

  function PteToFlags(e: Pte): Flags {
    Flags(e.present, e.write, e.user, e.pwt || e.pcd)
  }

  /** idx_pml4, idx_pdpt, idx_pd and idx_pt of a virtual address. */
  function PathOf(va: nat): (p: Path)
    ensures |p| == 4 && ValidPath(p)
  {
    [va / 0x80_0000_0000 % 512, va / 0x4000_0000 % 512, va / 0x20_0000 % 512, va / 0x1000 % 512]
  }

  /** Aligned addresses have the same path exactly when they agree modulo 2^48. */
  lemma PathOfIdentifiesPage(va: nat, wa: nat)
    requires va % PAGE_SIZE == 0 && wa % PAGE_SIZE == 0
    ensures PathOf(va) == PathOf(wa) <==> va % 0x1_0000_0000_0000 == wa % 0x1_0000_0000_0000
  {
    PathOfDigits(va);
    PathOfDigits(wa);
    var p, q := PathOf(va), PathOf(wa);
    if Pages(p) == Pages(q) {
      DigitsUnique((p[0] * 512 + p[1]) * 512 + p[2], p[3], (q[0] * 512 + q[1]) * 512 + q[2], q[3]);
      DigitsUnique(p[0] * 512 + p[1], p[2], q[0] * 512 + q[1], q[2]);
      DigitsUnique(p[0], p[1], q[0], q[1]);
      assert p == [p[0], p[1], p[2], p[3]] && q == [q[0], q[1], q[2], q[3]];
    }
  }

  lemma DigitsUnique(a: int, i: int, b: int, k: int)
    requires 0 <= i < 512 && 0 <= k < 512 && a * 512 + i == b * 512 + k
    ensures a == b && i == k
  {
  }

  function Pages(p: Path): int
    requires |p| == 4
  {
    ((p[0] * 512 + p[1]) * 512 + p[2]) * 512 + p[3]
  }

  lemma PathOfDigits(va: nat)
    requires va % PAGE_SIZE == 0
    ensures va % 0x1_0000_0000_0000 == Pages(PathOf(va)) * PAGE_SIZE
  {
    var a := va / 0x1000;
    var b := va / 0x20_0000;
    var c := va / 0x4000_0000;
    var d := va / 0x80_0000_0000;
    DivChain(va);
    LowDigits(a, b, c, d);
    ModScale(va, a);
  }

  lemma ModScale(va: nat, a: nat)
    requires va == a * 0x1000
    ensures va % 0x1_0000_0000_0000 == a % 0x10_0000_0000 * 0x1000
  {
    var h, l := a / 0x10_0000_0000, a % 0x10_0000_0000;
    assert va == h * 0x1_0000_0000_0000 + l * 0x1000;
  }

  lemma DivChain(va: nat)
    ensures va / 0x20_0000 == va / 0x1000 / 512
    ensures va / 0x4000_0000 == va / 0x20_0000 / 512
    ensures va / 0x80_0000_0000 == va / 0x4000_0000 / 512
  {
  }

  lemma LowDigits(a: nat, b: nat, c: nat, d: nat)
    requires a == 512 * b + a % 512 && b == 512 * c + b % 512 && c == 512 * d + c % 512
    ensures a % 0x10_0000_0000 == ((d % 512 * 512 + c % 512) * 512 + b % 512) * 512 + a % 512
  {
    assert d == d / 512 * 512 + d % 512;
    assert a == d / 512 * 0x10_0000_0000 + (((d % 512 * 512 + c % 512) * 512 + b % 512) * 512 + a % 512);
  }

  predicate ValidPath(p: Path) {
    |p| <= 4 && forall k :: 0 <= k < |p| ==> 0 <= p[k] < ENTRIES
  }

  function Parent(p: Path): Path
    requires p != []
  {
    p[..|p| - 1]
  }

  predicate IsTable(t: Tables, f: int) {
    f > 0 && f in t && |t[f]| == ENTRIES
  }

  /** The walk continues through entry `e` of a table at this depth. */
  predicate Follows(e: Pte, depth: nat) {
    e.present && (depth == 3 || !e.huge)
  }

  ghost predicate Linked(t: Tables, tab: Shape, p: Path, i: int)
    requires p in tab && IsTable(t, tab[p]) && 0 <= i < ENTRIES
  {
    var e := t[tab[p]][i];
    && (Follows(e, |p|) <==> p + [i] in tab)
    && (p + [i] in tab ==> e.frame == tab[p + [i]])
  }

  predicate Apart(tab: Shape, p: Path, q: Path)
    requires p in tab && q in tab
  {
    tab[p] != tab[q]
  }

  /** `tab` is the shape of a tree of tables in `t`: closed under prefixes, no table shared by
      two paths, and every entry agrees with it. */
  ghost predicate Tree(t: Tables, tab: Shape) {
    && [] in tab
    && (forall p :: p in tab ==> ValidPath(p))
    && (forall p {:trigger Parent(p)} :: p in tab && p != [] ==> Parent(p) in tab)
    && (forall p :: p in tab && |p| < 4 ==> IsTable(t, tab[p]))
    && (forall p, q {:trigger Apart(tab, p, q)} ::
          p in tab && q in tab && |p| < 4 && |q| < 4 && p != q ==> Apart(tab, p, q))
    && (forall p, i :: p in tab && |p| < 4 && 0 <= i < ENTRIES ==> Linked(t, tab, p, i))
  }

  /** The entry that leads to `p`. */
  ghost function Entry(t: Tables, tab: Shape, p: Path): Pte
    requires Tree(t, tab) && p in tab && p != []
  {
    t[tab[Parent(p)]][p[|p| - 1]]
  }

  /** The abstract map of an address space: page path to frame and flags. */
  ghost function View(t: Tables, tab: Shape): (m: map<Path, Mapping>)
    requires Tree(t, tab)
  {
    map p | p in tab && |p| == 4 :: Mapping(tab[p], PteToFlags(Entry(t, tab, p)))
  }

  lemma {:induction false} PrefixIn(t: Tables, tab: Shape, p: Path, k: nat)
    requires Tree(t, tab) && p in tab && k <= |p|
    ensures p[..k] in tab
    decreases |p| - k
  {
    if k < |p| {
      PrefixIn(t, tab, p, k + 1);
      assert Parent(p[..k+1]) == p[..k];
    } else {
      assert p[..k] == p;
    }
  }

  /** A missing table leaves nothing below it. */
  lemma CutOff(t: Tables, tab: Shape, p: Path, k: nat, n: nat)
    requires Tree(t, tab) && k <= n <= |p| && p[..k] !in tab
    ensures p[..n] !in tab
  {
    assert p[..n][..k] == p[..k];
    if p[..n] in tab {
      PrefixIn(t, tab, p[..n], k);
    }
  }

  lemma SlotPath(p: Path, i: int, q: Path, k: int)
    ensures p + [i] == q + [k] <==> p == q && i == k
    ensures (p + [i])[..|p|] == p && |p + [i]| == |p| + 1
  {
    if p + [i] == q + [k] {
      assert (p + [i])[..|p|] == p && (q + [k])[..|q|] == q;
      assert (p + [i])[|p|] == i && (q + [k])[|q|] == k;
    }
  }

  lemma NoOrphan(t: Tables, tab: Shape, c: Path, k: int)
    requires Tree(t, tab) && c !in tab
    ensures c + [k] !in tab
  {
    assert Parent(c + [k]) == c;
  }

  /** The new table `f`, reached by entry `e`, hangs in the unused slot `i` of the table at `p`. */
  ghost predicate Adds(t: Tables, tab: Shape, p: Path, i: int, f: int, e: Pte, t': Tables, tab': Shape) {
    && Tree(t, tab) && p in tab && |p| < 3 && 0 <= i < ENTRIES && p + [i] !in tab
    && f > 0 && (forall q :: q in tab && |q| < 4 ==> tab[q] != f)
    && e.present && !e.huge && e.frame == f
    && t' == t[f := ZeroPage()][tab[p] := t[tab[p]][i := e]]
    && tab' == tab[p + [i] := f]
  }

  /** descend_or_alloc: linking a zeroed table in an unused slot keeps the tree and the view. */
  lemma AddTable(t: Tables, tab: Shape, p: Path, i: int, f: int, e: Pte, t': Tables, tab': Shape)
    requires Adds(t, tab, p, i, f, e, t', tab')
    ensures Tree(t', tab') && View(t', tab') == View(t, tab)
  {
    AddTableTree(t, tab, p, i, f, e, t', tab');
    forall q | q in tab && |q| == 4
      ensures Entry(t', tab', q) == Entry(t, tab, q)
    {
      assert Parent(q) in tab && |Parent(q)| == 3 && |p| < 3;
      assert Apart(tab, p, Parent(q));
    }
    assert View(t', tab').Keys == View(t, tab).Keys;
  }

  lemma AddTableTree(t: Tables, tab: Shape, p: Path, i: int, f: int, e: Pte, t': Tables, tab': Shape)
    requires Adds(t, tab, p, i, f, e, t', tab')
    ensures Tree(t', tab')
  {
    SlotPath(p, i, p, i);
    assert Parent(p + [i]) == p;
    forall x, y | x in tab' && y in tab' && |x| < 4 && |y| < 4 && x != y
      ensures Apart(tab', x, y)
    {
      assert x !in tab || y !in tab || Apart(tab, x, y);
    }
    forall q, k | q in tab' && |q| < 4 && 0 <= k < ENTRIES
      ensures Linked(t', tab', q, k)
    {
      AddTableLinked(t, tab, p, i, f, e, t', tab', q, k);
    }
  }

  lemma AddTableLinked(t: Tables, tab: Shape, p: Path, i: int, f: int, e: Pte, t': Tables, tab': Shape,
                       q: Path, k: int)
    requires Adds(t, tab, p, i, f, e, t', tab') && q in tab' && |q| < 4 && 0 <= k < ENTRIES
    ensures IsTable(t', tab'[q]) && Linked(t', tab', q, k)
  {
    SlotPath(p, i, q, k);
    if q == p + [i] {
      NoOrphan(t, tab, q, k);
    } else {
      assert Linked(t, tab, q, k);
      assert q == p || Apart(tab, p, q);
    }
  }

  /** A huge page sits where the walk to `v` needs a table. */
  ghost predicate HugeOnWay(t: Tables, tab: Shape, v: Path)
    requires Tree(t, tab)
  {
    exists p :: p in tab && HugeAt(t, tab[p], p, v)
  }

  predicate HugeAt(t: Tables, f: int, p: Path, v: Path) {
    && |p| < 3 && |p| < |v| && Under(p, v) && IsTable(t, f) && 0 <= v[|p|] < ENTRIES
    && t[f][v[|p|]].present && t[f][v[|p|]].huge
  }

  lemma AddTableAddsNoHuge(t: Tables, tab: Shape, p: Path, i: int, f: int, e: Pte, t': Tables, tab': Shape, v: Path)
    requires Adds(t, tab, p, i, f, e, t', tab') && Tree(t', tab') && HugeOnWay(t', tab', v)
    ensures HugeOnWay(t, tab, v)
  {
    var q :| q in tab' && HugeAt(t', tab'[q], q, v);
    assert q in tab && HugeAt(t, tab[q], q, v);
  }

  ghost predicate Writes(t: Tables, tab: Shape, p: Path, i: int, e: Pte, t': Tables, tab': Shape) {
    && Tree(t, tab) && p in tab && |p| == 3 && 0 <= i < ENTRIES
    && t' == t[tab[p] := t[tab[p]][i := e]]
    && tab' == if e.present then tab[p + [i] := e.frame] else tab - {p + [i]}
  }

  /** Writing a present leaf entry adds exactly that page. */
  lemma MapLeaf(t: Tables, tab: Shape, p: Path, i: int, e: Pte, t': Tables, tab': Shape)
    requires Writes(t, tab, p, i, e, t', tab') && e.present
    ensures Tree(t', tab')
    ensures View(t', tab') == View(t, tab)[p + [i] := Mapping(e.frame, PteToFlags(e))]
  {
    WriteLeafTree(t, tab, p, i, e, t', tab');
    var v, v', c := View(t, tab), View(t', tab'), p + [i];
    assert |c| == 4;
    forall q | q in v'
      ensures q == c || q in v
      ensures v'[q] == if q == c then Mapping(e.frame, PteToFlags(e)) else v[q]
    {
      WriteLeafEntry(t, tab, p, i, e, t', tab', q);
    }
    IsUpdate(v, v', c, Mapping(e.frame, PteToFlags(e)));
  }

  lemma RemoveAdded<K, V>(m: map<K, V>, k: K, v: V)
    requires k !in m
    ensures m[k := v] - {k} == m
  {
  }

  lemma IsUpdate<K, V>(m: map<K, V>, m': map<K, V>, k: K, v: V)
    requires k in m' && (forall q :: q in m ==> q in m')
    requires forall q :: q in m' ==> (q == k || q in m) && m'[q] == if q == k then v else m[q]
    ensures m' == m[k := v]
  {
  }

  /** Clearing a leaf entry removes exactly that page. */
  lemma UnmapLeaf(t: Tables, tab: Shape, p: Path, i: int, e: Pte, t': Tables, tab': Shape)
    requires Writes(t, tab, p, i, e, t', tab') && !e.present
    ensures Tree(t', tab')
    ensures View(t', tab') == View(t, tab) - {p + [i]}
  {
    WriteLeafTree(t, tab, p, i, e, t', tab');
    forall q | q in tab' && |q| == 4
      ensures View(t', tab')[q] == View(t, tab)[q]
    {
      WriteLeafEntry(t, tab, p, i, e, t', tab', q);
    }
  }

  lemma WriteLeafEntry(t: Tables, tab: Shape, p: Path, i: int, e: Pte, t': Tables, tab': Shape, q: Path)
    requires Writes(t, tab, p, i, e, t', tab') && Tree(t', tab') && q in tab' && |q| == 4
    ensures q == p + [i] ==> Entry(t', tab', q) == e
    ensures q != p + [i] ==> q in tab && Entry(t', tab', q) == Entry(t, tab, q)
  {
    assert q == Parent(q) + [q[3]];
    SlotPath(p, i, Parent(q), q[3]);
    assert Parent(q) == p || Apart(tab, p, Parent(q));
  }

  lemma WriteLeafTree(t: Tables, tab: Shape, p: Path, i: int, e: Pte, t': Tables, tab': Shape)
    requires Writes(t, tab, p, i, e, t', tab')
    ensures Tree(t', tab')
  {
    SlotPath(p, i, p, i);
    assert Parent(p + [i]) == p;
    forall x, y | x in tab' && y in tab' && |x| < 4 && |y| < 4 && x != y
      ensures Apart(tab', x, y)
    {
      assert x !in tab || y !in tab || Apart(tab, x, y);
    }
    forall q, k | q in tab' && |q| < 4 && 0 <= k < ENTRIES
      ensures Linked(t', tab', q, k)
    {
      WriteLeafLinked(t, tab, p, i, e, t', tab', q, k);
    }
  }

  lemma WriteLeafLinked(t: Tables, tab: Shape, p: Path, i: int, e: Pte, t': Tables, tab': Shape, q: Path, k: int)
    requires Writes(t, tab, p, i, e, t', tab') && q in tab' && |q| < 4 && 0 <= k < ENTRIES
    ensures IsTable(t', tab'[q]) && Linked(t', tab', q, k)
  {
    SlotPath(p, i, q, k);
    assert Linked(t, tab, q, k);
    assert q == p || Apart(tab, p, q);
  }

  // ---- what the way to a page lets through ----------------------------------

  /** The entry that leads to the table or page at `p`, wherever there is one. */
  ghost function Upper(t: Tables, tab: Shape, p: Path): Pte {
    if p != [] && Parent(p) in tab && tab[Parent(p)] in t && 0 <= p[|p| - 1] < |t[tab[Parent(p)]]|
    then t[tab[Parent(p)]][p[|p| - 1]] else NO_ENTRY
  }

  /** Entries that lead to tables are as they were; those that are new let writes through, and user
      accesses exactly if `user`. */
  ghost predicate Ways(t: Tables, tab: Shape, t': Tables, tab': Shape, user: bool) {
    forall p {:trigger Upper(t', tab', p)} :: p in tab' && 0 < |p| < 4 ==>
      if p in tab then Upper(t', tab', p) == Upper(t, tab, p)
      else Upper(t', tab', p).write && Upper(t', tab', p).user == user
  }

  lemma WaysThenWays(t: Tables, tab: Shape, t1: Tables, tab1: Shape, t2: Tables, tab2: Shape, user: bool)
    requires Ways(t, tab, t1, tab1, user) && Ways(t1, tab1, t2, tab2, user)
    requires forall p :: p in tab ==> p in tab1
    ensures Ways(t, tab, t2, tab2, user)
  {
    forall p | p in tab2 && 0 < |p| < 4
      ensures if p in tab then Upper(t2, tab2, p) == Upper(t, tab, p)
              else Upper(t2, tab2, p).write && Upper(t2, tab2, p).user == user
    {
      if p in tab1 { assert Upper(t2, tab2, p) == Upper(t1, tab1, p); }
    }
  }

  lemma AddTableWays(t: Tables, tab: Shape, p: Path, i: int, f: int, e: Pte, t': Tables, tab': Shape)
    requires Adds(t, tab, p, i, f, e, t', tab') && e.write
    ensures Ways(t, tab, t', tab', e.user)
  {
    forall q | q in tab' && 0 < |q| < 4
      ensures if q in tab then Upper(t', tab', q) == Upper(t, tab, q)
              else Upper(t', tab', q).write && Upper(t', tab', q).user == e.user
    {
      var k := q[|q| - 1];
      assert q == Parent(q) + [k];
      SlotPath(p, i, Parent(q), k);
      if q in tab {
        assert Parent(q) in tab;
        assert Parent(q) == p || Apart(tab, p, Parent(q));
      }
    }
  }

  lemma WriteLeafWays(t: Tables, tab: Shape, p: Path, i: int, e: Pte, t': Tables, tab': Shape, user: bool)
    requires Writes(t, tab, p, i, e, t', tab')
    ensures Ways(t, tab, t', tab', user)
  {
    forall q | q in tab' && 0 < |q| < 4
      ensures q in tab && Upper(t', tab', q) == Upper(t, tab, q)
    {
      assert q in tab && Parent(q) in tab && |Parent(q)| < 3;
      assert Apart(tab, p, Parent(q));
    }
  }

  /** Every table outside the shared slot is reached through entries that let everything through. */
  ghost predicate OpenWay(t: Tables, tab: Shape) {
    forall p {:trigger Upper(t, tab, p)} :: p in tab && 0 < |p| < 4 && Private(p) ==>
      Upper(t, tab, p).write && Upper(t, tab, p).user
  }

  lemma StaysOpen(t: Tables, tab: Shape, t': Tables, tab': Shape)
    requires Ways(t, tab, t', tab', true) && OpenWay(t, tab)
    ensures OpenWay(t', tab')
  {
    forall p | p in tab' && 0 < |p| < 4 && Private(p)
      ensures Upper(t', tab', p).write && Upper(t', tab', p).user
    {
      if p in tab { assert Upper(t, tab, p).write; }
    }
  }

  datatype Rights = Rights(write: bool, user: bool)

  /** What the processor grants: the conjunction over all entries on the way. */
  ghost function Effective(t: Tables, tab: Shape, p: Path): Rights {
    if p == [] then Rights(true, true)
    else
      var r := Effective(t, tab, Parent(p));
      Rights(r.write && Upper(t, tab, p).write, r.user && Upper(t, tab, p).user)
  }

  lemma {:induction false} OpenGrants(t: Tables, tab: Shape, p: Path)
    requires Tree(t, tab) && OpenWay(t, tab) && p in tab && |p| < 4 && Private(p)
    ensures Effective(t, tab, p) == Rights(true, true)
    decreases |p|
  {
    if p != [] {
      var q := Parent(p);
      assert q in tab && Private(q);
      OpenGrants(t, tab, q);
    }
  }

  /** A way is no wider than any entry on it. */
  lemma {:induction false} NoWiderThan(t: Tables, tab: Shape, p: Path, k: nat)
    requires 0 < k <= |p|
    ensures Effective(t, tab, p).user ==> Upper(t, tab, p[..k]).user
    ensures Effective(t, tab, p).write ==> Upper(t, tab, p[..k]).write
    decreases |p|
  {
    if k < |p| {
      NoWiderThan(t, tab, Parent(p), k);
      assert Parent(p)[..k] == p[..k];
    } else {
      assert p[..k] == p;
    }
  }

  /** Where the way is open, the processor grants exactly what the page's own flags say. */
  lemma RightsAreFlags(t: Tables, tab: Shape, v: Path)
    requires Tree(t, tab) && OpenWay(t, tab) && v in tab && |v| == 4 && Private(v)
    ensures v in View(t, tab)
    ensures Effective(t, tab, v) == Rights(View(t, tab)[v].flags.write, View(t, tab)[v].flags.user)
  {
    var q := Parent(v);
    assert q in tab && Private(q);
    OpenGrants(t, tab, q);
    assert IsTable(t, tab[q]);
    assert Upper(t, tab, v) == Entry(t, tab, v);
  }

  /** In general it grants them exactly if every entry above grants what they ask for. */
  lemma RightsAreFlagsIff(t: Tables, tab: Shape, v: Path)
    requires Tree(t, tab) && v in tab && |v| == 4
    ensures v in View(t, tab)
    ensures var fl, up := View(t, tab)[v].flags, Effective(t, tab, Parent(v));
            Effective(t, tab, v) == Rights(fl.write, fl.user) <==> (fl.write ==> up.write) && (fl.user ==> up.user)
  {
    var q := Parent(v);
    assert q in tab && IsTable(t, tab[q]);
    assert Upper(t, tab, v) == Entry(t, tab, v);
  }

  // ---- the frames of a subtree ---------------------------------------------

  predicate Under(p: Path, q: Path) {
    |p| <= |q| && q[..|p|] == p
  }

  /** `q` hangs in one of the slots lo..i-1 of the table at `p`. */
  predicate Below(p: Path, lo: int, i: int, q: Path) {
    |p| < |q| && q[..|p|] == p && lo <= q[|p|] < i
  }

  ghost function UnderFrames(tab: Shape, p: Path): set<int> {
    set q | q in tab && Under(p, q) :: tab[q]
  }

  ghost function BelowFrames(tab: Shape, p: Path, lo: int, i: int): set<int> {
    set q | q in tab && Below(p, lo, i, q) :: tab[q]
  }

  /** One turn of a freeing loop handles slot `i`. */
  lemma BelowStep(t: Tables, tab: Shape, p: Path, lo: int, i: int)
    requires Tree(t, tab) && p in tab && |p| < 4 && 0 <= lo <= i < ENTRIES
    ensures BelowFrames(tab, p, lo, i + 1) == BelowFrames(tab, p, lo, i) + UnderFrames(tab, p + [i])
    ensures p + [i] !in tab ==> UnderFrames(tab, p + [i]) == {}
    ensures p + [i] in tab && |p| == 3 ==> UnderFrames(tab, p + [i]) == {tab[p + [i]]}
  {
    var c := p + [i];
    forall q | q in tab
      ensures Below(p, lo, i + 1, q) <==> Below(p, lo, i, q) || Under(c, q)
    {
      if |q| > |p| {
        assert q[..|c|] == q[..|p|] + [q[|p|]];
        assert (q[..|c|] == c) <==> (q[..|p|] == p && q[|p|] == i) by {
          SlotPath(q[..|p|], q[|p|], p, i);
        }
      }
    }
    forall q | q in tab && Under(c, q)
      ensures c in tab && (|p| == 3 ==> q == c)
    {
      PrefixIn(t, tab, q, |c|);
      assert |q| <= 4;
    }
  }

  /** The subtree in slot `i` shares no frame with the slots before it. */
  lemma SubtreesApart(tab: Shape, p: Path, lo: int, i: int)
    requires Exclusive(tab) && Private(p) && 0 <= lo <= i && (p == [] ==> lo >= 1)
    ensures UnderFrames(tab, p + [i]) !! BelowFrames(tab, p, lo, i)
  {
    var c := p + [i];
    forall q, r | q in tab && Under(c, q) && r in tab && Below(p, lo, i, r)
      ensures tab[q] != tab[r]
    {
      assert q[|p|] == c[|p|] == i;
      assert q[0] == c[0];
      assert Apart(tab, q, r);
    }
  }

  lemma UnderChild(tab: Shape, p: Path, i: int)
    ensures UnderFrames(tab, p + [i]) <= UnderFrames(tab, p)
  {
    forall q | Under(p + [i], q)
      ensures Under(p, q)
    {
      assert q[..|p|] == q[..|p| + 1][..|p|] == (p + [i])[..|p|] == p;
    }
  }

  lemma UnderIsBelow(t: Tables, tab: Shape, p: Path)
    requires Tree(t, tab) && p in tab
    ensures UnderFrames(tab, p) == BelowFrames(tab, p, 0, ENTRIES) + {tab[p]}
    ensures Exclusive(tab) && Private(p) && p != [] ==> tab[p] !in BelowFrames(tab, p, 0, ENTRIES)
  {
    forall q | q in tab
      ensures Under(p, q) <==> q == p || Below(p, 0, ENTRIES, q)
    {
      if |q| == |p| { assert q[..|p|] == q; }
    }
    if Exclusive(tab) && Private(p) && p != [] {
      forall q | q in tab && Below(p, 0, ENTRIES, q)
        ensures tab[q] != tab[p]
      {
        assert q[0] == q[..|p|][0];
        assert Apart(tab, q, p);
      }
    }
  }

  /** Paths of a user address space: the root, and everything outside slot 0, which is the
      subtree shared with the kernel. */
  predicate Private(p: Path) {
    p == [] || p[0] >= 1
  }

  predicate Plain(t: Tables, tab: Shape, p: Path, i: int)
    requires p in tab && IsTable(t, tab[p]) && 0 <= i < ENTRIES
  {
    !(t[tab[p]][i].present && t[tab[p]][i].huge)
  }

  /** The private part holds no huge entry. */
  ghost predicate NoHuge(t: Tables, tab: Shape)
    requires Tree(t, tab)
  {
    forall p, i {:trigger Plain(t, tab, p, i)} ::
      p in tab && |p| < 4 && 0 <= i < ENTRIES && Private(p) && (p == [] ==> i >= 1) ==> Plain(t, tab, p, i)
  }

  /** No frame is reached twice from the private part. */
  ghost predicate Exclusive(tab: Shape) {
    forall p, q {:trigger Apart(tab, p, q)} ::
      p in tab && q in tab && Private(p) && Private(q) && p != q ==> Apart(tab, p, q)
  }

  ghost function PrivateFrames(tab: Shape): set<int> {
    set p | p in tab && Private(p) :: tab[p]
  }

  lemma PrivateIsBelowRoot(t: Tables, tab: Shape)
    requires Tree(t, tab)
    ensures PrivateFrames(tab) == BelowFrames(tab, [], 1, ENTRIES) + {tab[[]]}
    ensures Exclusive(tab) ==> tab[[]] !in BelowFrames(tab, [], 1, ENTRIES)
  {
    forall q | q in tab
      ensures Private(q) <==> q == [] || Below([], 1, ENTRIES, q)
    {
      if q != [] { assert q[..0] == []; }
    }
    if Exclusive(tab) {
      forall q | q in tab && Below([], 1, ENTRIES, q)
        ensures tab[q] != tab[[]]
      {
        assert Apart(tab, q, []);
      }
    }
  }

  lemma AddTablePlain(t: Tables, tab: Shape, p: Path, i: int, f: int, e: Pte, t': Tables, tab': Shape)
    requires Adds(t, tab, p, i, f, e, t', tab') && Tree(t', tab') && NoHuge(t, tab)
    ensures NoHuge(t', tab')
  {
    forall q, k | q in tab' && |q| < 4 && 0 <= k < ENTRIES && Private(q) && (q == [] ==> k >= 1)
      ensures Plain(t', tab', q, k)
    {
      if q in tab {
        assert Plain(t, tab, q, k);
        assert q == p || Apart(tab, p, q);
      }
    }
  }

  lemma WriteLeafPlain(t: Tables, tab: Shape, p: Path, i: int, e: Pte, t': Tables, tab': Shape)
    requires Writes(t, tab, p, i, e, t', tab') && Tree(t', tab') && NoHuge(t, tab) && !e.huge
    ensures NoHuge(t', tab')
  {
    forall q, k | q in tab' && |q| < 4 && 0 <= k < ENTRIES && Private(q) && (q == [] ==> k >= 1)
      ensures Plain(t', tab', q, k)
    {
      assert Plain(t, tab, q, k);
      assert q == p || Apart(tab, p, q);
    }
  }

  ghost predicate Clones(t: Tables, tab: Shape, f: int, t': Tables, tab': Shape) {
    && Tree(t, tab) && f > 0 && (forall q :: q in tab && |q| < 4 ==> tab[q] != f)
    && t' == t[f := t[tab[[]]]] && tab' == tab[[] := f]
  }

  lemma CloneTree(t: Tables, tab: Shape, f: int, t': Tables, tab': Shape)
    requires Clones(t, tab, f, t', tab')
    ensures Tree(t', tab')
  {
    forall q, k | q in tab && |q| < 4 && 0 <= k < ENTRIES
      ensures Linked(t', tab', q, k)
    {
      assert Linked(t, tab, q, k);
    }
    forall x, y | x in tab && y in tab && |x| < 4 && |y| < 4 && x != y
      ensures Apart(tab', x, y)
    {
      assert Apart(tab, x, y);
    }
  }

  /** A copy of the root table leads to the same pages... */
  lemma CloneRoot(t: Tables, tab: Shape, f: int, t': Tables, tab': Shape)
    requires Clones(t, tab, f, t', tab')
    ensures Tree(t', tab') && View(t', tab') == View(t, tab)
  {
    CloneTree(t, tab, f, t', tab');
    forall q | q in tab && |q| == 4
      ensures Entry(t', tab', q) == Entry(t, tab, q)
    {
      assert Parent(q) in tab;
    }
  }

  /** ... and leaves the original as it was. */
  lemma CloneKeepsOriginal(t: Tables, tab: Shape, f: int, t': Tables, tab': Shape)
    requires Clones(t, tab, f, t', tab')
    ensures Tree(t', tab) && View(t', tab) == View(t, tab)
    ensures NoHuge(t, tab) ==> NoHuge(t', tab)
  {
    forall q, k | q in tab && |q| < 4 && 0 <= k < ENTRIES
      ensures Linked(t', tab, q, k)
    {
      assert Linked(t, tab, q, k);
    }
    assert forall q, k :: q in tab && |q| < 4 && 0 <= k < ENTRIES ==> Plain(t', tab, q, k) == Plain(t, tab, q, k);
    assert forall q :: q in tab && |q| == 4 ==> Parent(q) in tab;
  }

  lemma CloneRootPrivate(t: Tables, tab: Shape, t': Tables, tab': Shape)
    requires Tree(t, tab) && Tree(t', tab') && tab'.Keys == tab.Keys && t'[tab'[[]]] == t[tab[[]]]
    requires forall i :: 1 <= i < ENTRIES ==> !t[tab[[]]][i].present
    ensures NoHuge(t', tab') && Exclusive(tab') && PrivateFrames(tab') == {tab'[[]]}
  {
    forall q | q in tab && q != []
      ensures !Private(q)
    {
      PrefixIn(t, tab, q, 1);
      assert q[..1] == [] + [q[0]] && Linked(t, tab, [], q[0]);
    }
  }

  /** The same tables read from another root whose entries agree with the shape. */
  lemma OtherRoot(t: Tables, tab: Shape, f: int, tab': Shape)
    requires Tree(t, tab) && IsTable(t, f) && (forall q :: q in tab && |q| < 4 ==> tab[q] != f)
    requires tab' == tab[[] := f] && forall i :: 0 <= i < ENTRIES ==> Linked(t, tab', [], i)
    ensures Tree(t, tab') && View(t, tab') == View(t, tab)
  {
    forall q, k | q in tab' && |q| < 4 && 0 <= k < ENTRIES
      ensures Linked(t, tab', q, k)
    {
      if q != [] { assert Linked(t, tab, q, k); }
    }
    forall x, y | x in tab' && y in tab' && |x| < 4 && |y| < 4 && x != y
      ensures Apart(tab', x, y)
    {
      assert Apart(tab, x, y);
    }
    assert Tree(t, tab');
    assert forall q :: q in tab && |q| == 4 ==> Parent(q) in tab;
  }
}
