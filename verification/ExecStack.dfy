/** The initial user stack: the kernel writes it (src/kernel/core/exec.c) and crt0 reads it back
    (src/userspace/crt/crt0.asm).  User memory is a map from address to byte. */
module ExecStack {
  import opened Basics

  const MAX_ARGS: int := 16
  const MAX_ENVS: int := 16

  type Mem = map<int, int>

  /** Little-endian bytes of a value. */
  function Bytes(v: int, n: int): (b: seq<int>)
    requires v >= 0 && n >= 0
    ensures |b| == n && forall k :: 0 <= k < n ==> 0 <= b[k] < 256
    decreases n
  {
    if n == 0 then [] else [v % 256] + Bytes(v / 256, n - 1)
  }

  function Value(b: seq<int>): int {
    if b == [] then 0 else b[0] + 256 * Value(b[1..])
  }

  function Pow256(n: int): int
    requires n >= 0
  {
    if n == 0 then 1 else 256 * Pow256(n - 1)
  }

  lemma {:induction false} ValueOfBytes(v: int, n: int)
    requires 0 <= n && 0 <= v < Pow256(n)
    ensures Value(Bytes(v, n)) == v
    decreases n
  {
    if n > 0 {
      ValueOfBytes(v / 256, n - 1);
      assert Bytes(v, n)[1..] == Bytes(v / 256, n - 1);
    }
  }

  /** The byte at `a + k`, or -1 where nothing is mapped. */
  function ByteAt(mem: Mem, a: int, k: int): int {
    if a + k in mem then mem[a + k] else -1
  }

  /** The bytes at `a`. */
  ghost predicate Holds(mem: Mem, a: int, b: seq<int>) {
    forall k :: 0 <= k < |b| ==> b[k] >= 0 && ByteAt(mem, a, k) == b[k]
  }

  /** Nothing at or above `from` changed. */
  ghost predicate Kept(m: Mem, m': Mem, from: int) {
    forall x :: x in m && x >= from ==> x in m' && m'[x] == m[x]
  }

  lemma KeptTrans(a: Mem, b: Mem, c: Mem, from: int, low: int)
    requires Kept(a, b, from) && Kept(b, c, low) && low <= from
    ensures Kept(a, c, from)
  {
  }

  lemma HoldsKept(m: Mem, m': Mem, from: int, a: int, b: seq<int>)
    requires Holds(m, a, b) && Kept(m, m', from) && from <= a
    ensures Holds(m', a, b)
  {
    forall k | 0 <= k < |b|
      ensures b[k] >= 0 && ByteAt(m', a, k) == b[k]
    {
      assert ByteAt(m, a, k) == b[k];
    }
  }

  ghost predicate WordAt(mem: Mem, a: int, v: int) {
    v >= 0 && Holds(mem, a, Bytes(v, 8))
  }

  /** What a 64-bit load reads. */
  function Load(mem: Mem, a: int): int {
    Value(seq(8, k => ByteAt(mem, a, k)))
  }

  lemma LoadIs(mem: Mem, a: int, v: int)
    requires WordAt(mem, a, v) && v < WORD
    ensures Load(mem, a) == v
  {
    var b := Bytes(v, 8);
    assert seq(8, k => ByteAt(mem, a, k)) == b;
    Word256();
    ValueOfBytes(v, 8);
  }

  lemma Word256()
    ensures Pow256(8) == WORD
  {
    assert Pow256(4) == 256 * Pow256(3) == 65536 * Pow256(2) == 0x100_0000 * Pow256(1) == 0x1_0000_0000;
    assert Pow256(8) == 256 * Pow256(7) == 65536 * Pow256(6) == 0x100_0000 * Pow256(5) == 0x1_0000_0000 * Pow256(4);
  }

  ghost predicate NulFree(s: seq<int>) {
    forall k :: 0 <= k < |s| ==> s[k] > 0
  }

  /** A C string: its characters, then a zero byte. */
  ghost predicate StrAt(mem: Mem, a: int, s: seq<int>) {
    NulFree(s) && Holds(mem, a, s + [0])
  }

  /** At most one string can be read at an address. */
  lemma StrIsUnique(mem: Mem, a: int, s: seq<int>, t: seq<int>)
    requires StrAt(mem, a, s) && StrAt(mem, a, t)
    ensures s == t
  {
    var n := if |s| < |t| then |s| else |t|;
    assert (s + [0])[n] == ByteAt(mem, a, n) == (t + [0])[n];
    forall k | 0 <= k < n
      ensures s[k] == t[k]
    {
      assert (s + [0])[k] == ByteAt(mem, a, k) == (t + [0])[k];
    }
  }

  /** Where string `i` goes when the strings are pushed from the last to the first below `top`. */
  function StrAddr(top: int, strs: seq<seq<int>>, i: int): int
    requires 0 <= i <= |strs|
    decreases |strs| - i
  {
    if i == |strs| then top else StrAddr(top, strs, i + 1) - (|strs[i]| + 1)
  }

  lemma {:induction false} StrAddrFallsFrom(top: int, strs: seq<seq<int>>, i: int, j: int)
    requires 0 <= i <= j <= |strs|
    ensures StrAddr(top, strs, i) <= StrAddr(top, strs, j) <= top
    decreases |strs| - i
  {
    if i < j {
      StrAddrFallsFrom(top, strs, i + 1, j);
    } else if j < |strs| {
      StrAddrFallsFrom(top, strs, i + 1, j + 1);
    }
  }

  function Slot(a: int, i: int): int {
    a + 8 * i
  }

  function Aligned(a: int): int {
    a / 16 * 16
  }

  /** The stack pointer the build ends with. */
  function FinalRsp(top: int, argv: seq<seq<int>>, envp: seq<seq<int>>): int {
    var strings := StrAddr(StrAddr(top, envp, 0), argv, 0);
    var slots := |argv| + |envp| + 3;
    Below(strings, slots)
  }

  /** The strings from `i` on are in memory, and `vas` says where. */
  ghost predicate StringsAt(mem: Mem, top: int, strs: seq<seq<int>>, i: int, vas: seq<int>) {
    && 0 <= i <= |strs| && |vas| == |strs| - i
    && forall j :: 0 <= j < |vas| ==> vas[j] == StrAddr(top, strs, i + j) && StrAt(mem, vas[j], strs[i + j])
  }

  lemma OneMoreString(m: Mem, m': Mem, top: int, strs: seq<seq<int>>, i: int, vas: seq<int>)
    requires 0 <= i < |strs| && StringsAt(m, top, strs, i + 1, vas) && Kept(m, m', StrAddr(top, strs, i + 1))
    requires StrAt(m', StrAddr(top, strs, i), strs[i])
    ensures StringsAt(m', top, strs, i, [StrAddr(top, strs, i)] + vas)
  {
    var vas' := [StrAddr(top, strs, i)] + vas;
    forall j | 0 <= j < |vas'|
      ensures vas'[j] == StrAddr(top, strs, i + j) && StrAt(m', vas'[j], strs[i + j])
    {
      if j > 0 {
        assert vas'[j] == vas[j - 1] && strs[i + j] == strs[i + 1 + (j - 1)];
        StrAddrFallsFrom(top, strs, i + 1, i + j);
        HoldsKept(m, m', StrAddr(top, strs, i + 1), vas[j - 1], strs[i + j] + [0]);
      }
    }
  }

  class Stack {
    var mem: Mem
    var rsp: int
    const lo: int
    const hi: int

    ghost predicate Valid()
      reads this
    {
      0 < lo <= rsp <= hi < WORD && lo % 16 == 0
    }

    /** A freshly mapped stack. */
    constructor (bottom: int, top: int, m: Mem)
      requires 0 < bottom <= top < WORD && bottom % 16 == 0
      ensures Valid() && rsp == top && lo == bottom && hi == top && mem == m
    {
      lo, hi, rsp, mem := bottom, top, top, m;
    }

    /** Move the pointer down and copy to user memory; false when that leaves the mapped pages. */
    method Push(b: seq<int>) returns (ok: bool)
      requires Valid() && forall k :: 0 <= k < |b| ==> b[k] >= 0
      modifies this
      ensures ok <==> old(rsp) - |b| >= lo
      ensures ok ==> Valid() && rsp == old(rsp) - |b| && Holds(mem, rsp, b) && Kept(old(mem), mem, old(rsp))
    {
      rsp := rsp - |b|;
      if rsp < lo {
        return false;
      }
      var k := 0;
      while k < |b|
        invariant 0 <= k <= |b| && rsp == old(rsp) - |b|
        invariant forall j :: 0 <= j < k ==> ByteAt(mem, rsp, j) == b[j]
        invariant Kept(old(mem), mem, old(rsp))
      {
        mem := mem[rsp + k := b[k]];
        k := k + 1;
      }
      return true;
    }

    /** push_string for each string, last one first. */
    method PushStrings(strs: seq<seq<int>>) returns (ok: bool, vas: seq<int>)
      requires Valid() && AllNulFree(strs)
      modifies this
      ensures ok <==> StrAddr(old(rsp), strs, 0) >= lo
      ensures ok ==> Valid() && rsp == StrAddr(old(rsp), strs, 0) && Kept(old(mem), mem, old(rsp)) && |vas| == |strs|
      ensures ok ==> StringsAt(mem, old(rsp), strs, 0, vas)
    {
      ghost var top := rsp;
      var i := |strs|;
      vas := [];
      while i > 0
        invariant 0 <= i <= |strs| && |vas| == |strs| - i && Valid() && rsp == StrAddr(top, strs, i) <= top
        invariant Kept(old(mem), mem, top)
        invariant StringsAt(mem, top, strs, i, vas)
      {
        i := i - 1;
        ghost var m0, v0 := mem, vas;
        StrAddrFallsFrom(top, strs, 0, i);
        StrAddrFallsFrom(top, strs, i, i + 1);
        ok := Push(strs[i] + [0]);
        if !ok {
          return;
        }
        KeptTrans(old(mem), m0, mem, top, StrAddr(top, strs, i + 1));
        vas := [rsp] + vas;
        OneMoreString(m0, mem, top, strs, i, v0);
      }
      ok := true;
    }

    /** push_u64 */
    method PushWord(v: int) returns (ok: bool)
      requires Valid() && 0 <= v
      modifies this
      ensures ok <==> old(rsp) - 8 >= lo
      ensures ok ==> Valid() && rsp == old(rsp) - 8 && WordAt(mem, rsp, v) && Kept(old(mem), mem, old(rsp))
    {
      ok := Push(Bytes(v, 8));
    }

    /** push_u64 for each value, last one first, on top of the words `below`. */
    method PushWords(ws: seq<int>, ghost below: seq<int>) returns (ok: bool)
      requires Valid() && (forall i :: 0 <= i < |ws| ==> 0 <= ws[i]) && Words(mem, rsp, below)
      modifies this
      ensures ok <==> old(rsp) - 8 * |ws| >= lo
      ensures ok ==>
              Valid() && rsp == old(rsp) - 8 * |ws| && Kept(old(mem), mem, old(rsp))
              && Words(mem, rsp, ws + below)
    {
      ghost var top := rsp;
      var i := |ws|;
      assert ws[i..] + below == below;
      while i > 0
        invariant 0 <= i <= |ws| && Valid() && rsp == top - 8 * (|ws| - i)
        invariant Kept(old(mem), mem, top) && Words(mem, rsp, ws[i..] + below)
      {
        i := i - 1;
        ghost var m0, r0 := mem, rsp;
        ok := PushWord(ws[i]);
        if !ok {
          return;
        }
        KeptTrans(old(mem), m0, mem, top, r0);
        OneMoreOf(m0, mem, rsp, ws, i, below);
      }
      assert ws[0..] == ws;
      ok := true;
    }

    /** The pointer block: pad, NULL, environment, NULL, arguments, count. */
    method PushTables(ava: seq<int>, eva: seq<int>) returns (ok: bool)
      requires Valid() && rsp % 16 == 0 && Naturals(ava) && Naturals(eva)
      modifies this
      ensures var n := |ava| + |eva| + 3; ok <==> old(rsp) - 8 * (n + n % 2) >= lo
      ensures ok ==> Valid() && rsp == old(rsp) - 8 * (|ava| + |eva| + 3 + (|ava| + |eva| + 3) % 2) && rsp % 16 == 0
      ensures ok ==> Kept(old(mem), mem, old(rsp)) && Words(mem, rsp, Table(ava, eva))
    {
      ghost var m0, top := mem, rsp;
      if (|ava| + |eva| + 3) % 2 == 1 {
        ok := PushWords([0], []);
        if !ok {
          return;
        }
      }
      ghost var m1, r1 := mem, rsp;
      ok := PushBoth(ava, eva);
      if ok {
        KeptTrans(m0, m1, mem, top, r1);
      }
    }

    method PushBoth(ava: seq<int>, eva: seq<int>) returns (ok: bool)
      requires Valid() && Naturals(ava) && Naturals(eva)
      modifies this
      ensures ok <==> old(rsp) - 8 * (|ava| + |eva| + 3) >= lo
      ensures ok ==> Valid() && rsp == old(rsp) - 8 * (|ava| + |eva| + 3)
      ensures ok ==> Kept(old(mem), mem, old(rsp)) && Words(mem, rsp, Table(ava, eva))
    {
      ghost var m0, r0 := mem, rsp;
      ok := PushWords(eva + [0], []);
      if !ok {
        return;
      }
      ghost var m1, r1 := mem, rsp;
      assert eva + [0] + [] == eva + [0];
      ok := PushWords([|ava|] + ava + [0], eva + [0]);
      if !ok {
        return;
      }
      KeptTrans(m0, m1, mem, r0, r1);
      assert [|ava|] + ava + [0] + (eva + [0]) == Table(ava, eva);
    }

    /** exec_build_initial_stack; 0 exactly when there are too many strings or they do not fit. */
    method Build(argv: seq<seq<int>>, envp: seq<seq<int>>)
      returns (result: int, ghost ava: seq<int>, ghost eva: seq<int>)
      requires Valid() && rsp == hi && AllNulFree(argv) && AllNulFree(envp)
      modifies this
      ensures result != 0 <==> |argv| <= MAX_ARGS && |envp| <= MAX_ENVS && FinalRsp(hi, argv, envp) >= lo
      ensures result != 0 ==> result == FinalRsp(hi, argv, envp) && Image(mem, result, hi, argv, envp, ava, eva)
    {
      ava, eva := [], [];
      if |argv| > MAX_ARGS || |envp| > MAX_ENVS {
        return 0, ava, eva;
      }
      FinalBelow(hi, argv, envp);
      var ok, es := PushStrings(envp);
      if !ok {
        return 0, ava, eva;
      }
      ghost var m1, r1 := mem, rsp;
      var as_;
      ok, as_ := PushStrings(argv);
      if !ok {
        return 0, ava, eva;
      }
      ghost var m2, r2 := mem, rsp;
      StringsKept(m1, m2, hi, envp, es, r1);
      AddressesNatural(m2, hi, envp, es, lo);
      AddressesNatural(m2, r1, argv, as_, lo);
      rsp := Aligned(rsp);
      ghost var r3 := rsp;
      ok := PushTables(as_, es);
      if !ok {
        return 0, ava, eva;
      }
      StringsKept(m2, mem, hi, envp, es, r3);
      StringsKept(m2, mem, r1, argv, as_, r3);
      return rsp, as_, es;
    }
  }

  ghost predicate Naturals(ws: seq<int>) {
    forall i :: 0 <= i < |ws| ==> 0 <= ws[i] < WORD
  }

  ghost predicate AllNulFree(strs: seq<seq<int>>) {
    forall i :: 0 <= i < |strs| ==> NulFree(strs[i])
  }

  ghost predicate Words(mem: Mem, a: int, ws: seq<int>) {
    forall i :: 0 <= i < |ws| ==> WordAt(mem, Slot(a, i), ws[i])
  }

  lemma OneMoreWord(m: Mem, m': Mem, a: int, w: int, ws: seq<int>)
    requires Words(m, a + 8, ws) && Kept(m, m', a + 8) && WordAt(m', a, w)
    ensures Words(m', a, [w] + ws)
  {
    forall i | 0 <= i < |ws| + 1
      ensures WordAt(m', Slot(a, i), ([w] + ws)[i])
    {
      if i > 0 {
        assert Slot(a, i) == Slot(a + 8, i - 1) && ([w] + ws)[i] == ws[i - 1];
        HoldsKept(m, m', a + 8, Slot(a + 8, i - 1), Bytes(ws[i - 1], 8));
      }
    }
  }

  lemma OneMoreOf(m: Mem, m': Mem, a: int, ws: seq<int>, i: int, below: seq<int>)
    requires 0 <= i < |ws| && Words(m, a + 8, ws[i + 1..] + below) && Kept(m, m', a + 8) && WordAt(m', a, ws[i])
    ensures Words(m', a, ws[i..] + below)
  {
    OneMoreWord(m, m', a, ws[i], ws[i + 1..] + below);
    assert ws[i..] + below == [ws[i]] + (ws[i + 1..] + below);
  }

  /** What _start finds: argc, the argument pointers, NULL, the environment pointers, NULL. */
  function Table(ava: seq<int>, eva: seq<int>): seq<int> {
    [|ava|] + ava + [0] + eva + [0]
  }

  /** The finished stack. */
  ghost predicate Image(mem: Mem, rsp: int, top: int, argv: seq<seq<int>>, envp: seq<seq<int>>, ava: seq<int>,
                        eva: seq<int>) {
    && rsp % 16 == 0 && Naturals(ava) && Naturals(eva)
    && Words(mem, rsp, Table(ava, eva))
    && StringsAt(mem, top, envp, 0, eva) && StringsAt(mem, StrAddr(top, envp, 0), argv, 0, ava)
    && Slot(rsp, |Table(ava, eva)|) <= StrAddr(StrAddr(top, envp, 0), argv, 0)
  }

  lemma StringsKept(m: Mem, m': Mem, top: int, strs: seq<seq<int>>, vas: seq<int>, from: int)
    requires StringsAt(m, top, strs, 0, vas) && Kept(m, m', from) && from <= StrAddr(top, strs, 0)
    ensures StringsAt(m', top, strs, 0, vas)
  {
    forall j | 0 <= j < |vas|
      ensures vas[j] == StrAddr(top, strs, 0 + j) && StrAt(m', vas[j], strs[0 + j])
    {
      StrAddrFallsFrom(top, strs, 0, j);
      assert StrAt(m, vas[j], strs[0 + j]);
      HoldsKept(m, m', from, vas[j], strs[j] + [0]);
    }
  }

  lemma AddressesNatural(m: Mem, top: int, strs: seq<seq<int>>, vas: seq<int>, lo: int)
    requires StringsAt(m, top, strs, 0, vas) && 0 <= lo <= StrAddr(top, strs, 0) && top < WORD
    ensures Naturals(vas)
  {
    forall j | 0 <= j < |vas|
      ensures 0 <= vas[j] < WORD
    {
      StrAddrFallsFrom(top, strs, 0, j);
      assert vas[j] == StrAddr(top, strs, 0 + j);
    }
  }

  lemma FinalBelow(top: int, argv: seq<seq<int>>, envp: seq<seq<int>>)
    ensures FinalRsp(top, argv, envp) <= StrAddr(StrAddr(top, envp, 0), argv, 0) <= StrAddr(top, envp, 0) <= top
  {
    StrAddrFallsFrom(top, envp, 0, 0);
    StrAddrFallsFrom(StrAddr(top, envp, 0), argv, 0, 0);
  }

  /** The bytes of the strings with their terminators. */
  function BytesOf(strs: seq<seq<int>>): int {
    if strs == [] then 0 else |strs[0]| + 1 + BytesOf(strs[1..])
  }

  lemma {:induction false} StringsTake(top: int, strs: seq<seq<int>>, i: nat)
    requires i <= |strs|
    ensures StrAddr(top, strs, i) == top - BytesOf(strs[i..])
    decreases |strs| - i
  {
    if i < |strs| {
      StringsTake(top, strs, i + 1);
      assert strs[i..][1..] == strs[i + 1..];
    }
  }

  lemma AllStringsTake(top: int, argv: seq<seq<int>>, envp: seq<seq<int>>)
    ensures FinalRsp(top, argv, envp) == Below(top - BytesOf(argv) - BytesOf(envp), |argv| + |envp| + 3)
  {
    assert envp[0..] == envp && argv[0..] == argv;
    StringsTake(top, envp, 0);
    StringsTake(StrAddr(top, envp, 0), argv, 0);
  }

  /** The pointer block below address `a`, which is rounded down first. */
  function Below(a: int, slots: nat): int {
    Aligned(a) - 8 * (slots + slots % 2)
  }

  lemma RoundedRoom(a: int, slots: nat)
    ensures Below(a, slots) % 16 == 0 && 0 <= a - 8 * slots - Below(a, slots) < 24
  {
    var q, k := a / 16, (slots + slots % 2) / 2;
    assert slots + slots % 2 == 2 * k;
    assert Below(a, slots) == 16 * (q - k);
  }

  /** The room a build needs: all strings, one word for each pointer, the count and the two ends, and less
      than three words to align the stack pointer. */
  lemma RoomNeeded(top: int, argv: seq<seq<int>>, envp: seq<seq<int>>)
    ensures FinalRsp(top, argv, envp) % 16 == 0
    ensures 0 <= top - BytesOf(argv) - BytesOf(envp) - 8 * (|argv| + |envp| + 3) - FinalRsp(top, argv, envp) < 24
  {
    AllStringsTake(top, argv, envp);
    RoundedRoom(top - BytesOf(argv) - BytesOf(envp), |argv| + |envp| + 3);
  }

  // ---- crt0 ---------------------------------------------------------------------------------

  /** The registers _start passes to main. */
  datatype Start = Start(argc: int, argv: int, envp: int)

  function Decode(mem: Mem, rsp: int): Start {
    var argc := Load(mem, rsp);
    Start(argc, rsp + 8, rsp + 8 + (argc + 1) * 8)
  }

  /** `p` points to the strings, one pointer each, and a NULL behind them. */
  ghost predicate Vector(mem: Mem, p: int, strs: seq<seq<int>>) {
    && Load(mem, Slot(p, |strs|)) == 0
    && forall i :: 0 <= i < |strs| ==> Load(mem, Slot(p, i)) != 0 && StrAt(mem, Load(mem, Slot(p, i)), strs[i])
  }

  /** crt0 recovers exactly what the kernel was given. */
  lemma RoundTrip(mem: Mem, rsp: int, top: int, argv: seq<seq<int>>, envp: seq<seq<int>>, ava: seq<int>, eva: seq<int>)
    requires Image(mem, rsp, top, argv, envp, ava, eva) && rsp > 0 && |argv| <= MAX_ARGS && |envp| <= MAX_ENVS
    ensures var st := Decode(mem, rsp);
            st.argc == |argv| && Vector(mem, st.argv, argv) && Vector(mem, st.envp, envp)
  {
    FinalBelow(top, argv, envp);
    TableParts(ava, eva);
    LoadsAre(mem, rsp, Table(ava, eva));
    ReadBack(mem, rsp, Table(ava, eva), top, StrAddr(top, envp, 0), argv, envp, ava, eva);
  }

  ghost predicate Loads(mem: Mem, rsp: int, t: seq<int>) {
    forall i :: 0 <= i < |t| ==> Load(mem, Slot(rsp, i)) == t[i]
  }

  lemma LoadsAre(mem: Mem, rsp: int, t: seq<int>)
    requires Words(mem, rsp, t) && Naturals(t)
    ensures Loads(mem, rsp, t)
  {
    forall i | 0 <= i < |t|
      ensures Load(mem, Slot(rsp, i)) == t[i]
    {
      assert WordAt(mem, Slot(rsp, i), t[i]);
      LoadIs(mem, Slot(rsp, i), t[i]);
    }
  }

  lemma ReadBack(mem: Mem, rsp: int, t: seq<int>, top: int, mid: int,
                 argv: seq<seq<int>>, envp: seq<seq<int>>, ava: seq<int>, eva: seq<int>)
    requires Loads(mem, rsp, t)
    requires StringsAt(mem, top, envp, 0, eva) && StringsAt(mem, mid, argv, 0, ava)
    requires StrAddr(mid, argv, 0) > 0 && StrAddr(top, envp, 0) > 0
    requires IsTable(t, ava, eva)
    ensures var st := Decode(mem, rsp);
            st.argc == |argv| && Vector(mem, st.argv, argv) && Vector(mem, st.envp, envp)
  {
    var n := |argv|;
    assert rsp == Slot(rsp, 0) && rsp + 8 == Slot(rsp, 1) && rsp + 8 + (n + 1) * 8 == Slot(rsp, n + 2);
    assert Load(mem, Slot(rsp, 0)) == t[0];
    TableVector(mem, rsp, t, mid, argv, ava, 1);
    TableVector(mem, rsp, t, top, envp, eva, n + 2);
  }

  ghost predicate IsTable(t: seq<int>, ava: seq<int>, eva: seq<int>) {
    var n := |ava|;
    && |t| == n + |eva| + 3 && t[0] == n && t[1 + n] == 0 && t[n + 2 + |eva|] == 0
    && (forall i :: 0 <= i < |ava| ==> ava[i] == t[1 + i])
    && (forall i :: 0 <= i < |eva| ==> eva[i] == t[n + 2 + i])
  }

  lemma TableParts(ava: seq<int>, eva: seq<int>)
    requires Naturals(ava) && Naturals(eva) && |ava| <= MAX_ARGS && |eva| <= MAX_ENVS
    ensures IsTable(Table(ava, eva), ava, eva) && Naturals(Table(ava, eva))
  {
  }

  /** The words from number `k` on are a vector of strings. */
  lemma TableVector(mem: Mem, rsp: int, t: seq<int>, top: int, strs: seq<seq<int>>, vas: seq<int>, k: int)
    requires Loads(mem, rsp, t) && StringsAt(mem, top, strs, 0, vas) && StrAddr(top, strs, 0) > 0
    requires 0 <= k && k + |strs| < |t| && t[k + |strs|] == 0
    requires forall i :: 0 <= i < |vas| ==> vas[i] == t[k + i]
    ensures Vector(mem, Slot(rsp, k), strs)
  {
    var p := Slot(rsp, k);
    assert Slot(p, |strs|) == Slot(rsp, k + |strs|);
    assert Load(mem, Slot(rsp, k + |strs|)) == t[k + |strs|];
    forall i | 0 <= i < |strs|
      ensures Load(mem, Slot(p, i)) != 0 && StrAt(mem, Load(mem, Slot(p, i)), strs[i])
    {
      assert Slot(p, i) == Slot(rsp, k + i);
      assert Load(mem, Slot(rsp, k + i)) == t[k + i] == vas[i];
      assert strs[i] == strs[0 + i];
      StrAddrFallsFrom(top, strs, 0, i);
    }
  }
}
