/** Integer output and input of the C library: the integer conversions of printf
    (src/userspace/libc/stdio.c) and strtol/strtoul (src/userspace/libc/stdlib.c). */
module Numbers {

  const ULONG_MAX: int := 0xFFFF_FFFF_FFFF_FFFF
  const LONG_MAX: int := 0x7FFF_FFFF_FFFF_FFFF
  const LONG_MIN: int := -0x8000_0000_0000_0000

  /** The character at `i`, or the terminator. */
  function At(s: string, i: int): char {
    if 0 <= i < |s| then s[i] else '\0'
  }

  predicate IsSpace(c: char) {
    c == ' ' || c == '\t' || c == '\n' || c == (11 as char) || c == (12 as char) || c == '\r'
  }

  function DigitVal(c: char): int {
    if '0' <= c <= '9' then c as int - '0' as int
    else if 'a' <= c <= 'z' then 10 + (c as int - 'a' as int)
    else if 'A' <= c <= 'Z' then 10 + (c as int - 'A' as int)
    else -1
  }

  predicate IsDigit(c: char, base: int) {
    0 <= DigitVal(c) < base
  }

  // ---- reading ------------------------------------------------------------------------------

  function SpaceLen(s: string): (n: int)
    ensures 0 <= n <= |s|
  {
    if s == [] || !IsSpace(s[0]) then 0 else 1 + SpaceLen(s[1..])
  }

  /** Length of the leading run of digits. */
  function DigLen(s: string, base: int): (n: int)
    ensures 0 <= n <= |s|
    ensures forall i :: 0 <= i < n ==> IsDigit(s[i], base)
  {
    if s == [] || !IsDigit(s[0], base) then 0 else 1 + DigLen(s[1..], base)
  }

  /** The number a digit string denotes. */
  function Magnitude(ds: string, base: int): int {
    if ds == [] then 0 else Magnitude(ds[..|ds| - 1], base) * base + DigitVal(ds[|ds| - 1])
  }

  /** Sign, base and first digit position. */
  datatype Head = Head(negative: bool, base: int, start: int)

  predicate HexPrefix(s: string, p: int) {
    At(s, p) == '0' && (At(s, p + 1) == 'x' || At(s, p + 1) == 'X')
  }

  function ReadHead(s: string, base: int): (h: Head)
    ensures 0 <= h.start <= |s|
  {
    var p := SpaceLen(s);
    var neg := At(s, p) == '-';
    var q := if neg || At(s, p) == '+' then p + 1 else p;
    if base == 0 then
      if HexPrefix(s, q) then Head(neg, 16, q + 2)
      else if At(s, q) == '0' then Head(neg, 8, q)
      else Head(neg, 10, q)
    else if base == 16 && HexPrefix(s, q) then Head(neg, 16, q + 2)
    else Head(neg, base, q)
  }

  /** Value, end position, whether it was out of range, whether the base was refused. */
  datatype Conv = Conv(value: int, end: int, range: bool, bad: bool)

  predicate GoodBase(base: int) {
    base == 0 || 2 <= base <= 36
  }

  function DigitsOf(s: string, h: Head): string
    requires 0 <= h.start <= |s|
  {
    s[h.start..h.start + DigLen(s[h.start..], h.base)]
  }

  /** The exact value, or saturation precisely when it does not fit. */
  function Strtol(s: string, base: int): Conv {
    if !GoodBase(base) then Conv(0, 0, false, true)
    else
      var h := ReadHead(s, base);
      var ds := DigitsOf(s, h);
      SignedConv(h.negative, Magnitude(ds, h.base), if ds == [] then 0 else h.start + |ds|)
  }

  function SignedConv(negative: bool, m: int, end: int): Conv {
    var v := if negative then -m else m;
    Conv(if v > LONG_MAX then LONG_MAX else if v < LONG_MIN then LONG_MIN else v,
         end, v > LONG_MAX || v < LONG_MIN, false)
  }

  /** The same for unsigned long, where a minus sign negates modulo 2^64. */
  function Strtoul(s: string, base: int): Conv {
    if !GoodBase(base) then Conv(0, 0, false, true)
    else
      var h := ReadHead(s, base);
      var ds := DigitsOf(s, h);
      UnsignedConv(h.negative, Magnitude(ds, h.base), if ds == [] then 0 else h.start + |ds|)
  }

  function UnsignedConv(negative: bool, m: int, end: int): Conv {
    Conv(if m > ULONG_MAX then ULONG_MAX else if negative then (ULONG_MAX + 1 - m) % (ULONG_MAX + 1) else m,
         end, m > ULONG_MAX, false)
  }

  /** The cutoff/cutlim test decides exactly whether one more digit exceeds the limit. */
  lemma CutoffTest(acc: int, d: int, base: int, limit: int)
    requires 0 <= acc && 0 <= d < base && 0 <= limit
    ensures acc > limit / base || (acc == limit / base && d > limit % base) <==> acc * base + d > limit
  {
    var c, r := limit / base, limit % base;
    assert limit == c * base + r;
    if acc > c {
      assert acc * base >= (c + 1) * base == c * base + base;
    } else if acc < c {
      assert (acc + 1) * base <= c * base && (acc + 1) * base == acc * base + base;
    }
  }

  lemma MagnitudeNext(s: string, p: int, q: int, base: int)
    requires 0 <= p <= q < |s|
    ensures Magnitude(s[p..q + 1], base) == Magnitude(s[p..q], base) * base + DigitVal(s[q])
  {
    assert s[p..q + 1][..q - p] == s[p..q];
  }

  /** The accumulation loop shared by strtol and strtoul. */
  method ScanDigits(s: string, p: int, base: int, limit: int) returns (acc: int, overflow: bool, q: int)
    requires 0 <= p <= |s| && 2 <= base <= 36 && 0 <= limit
    ensures q == p + DigLen(s[p..], base)
    ensures overflow <==> Magnitude(s[p..q], base) > limit
    ensures !overflow ==> acc == Magnitude(s[p..q], base)
    ensures Magnitude(s[p..q], base) >= 0
  {
    var cutoff, cutlim := limit / base, limit % base;
    acc, overflow, q := 0, false, p;
    ghost var m := 0;
    while true
      invariant p <= q <= |s| && DigLen(s[p..], base) == q - p + DigLen(s[q..], base)
      invariant m == Magnitude(s[p..q], base) >= 0
      invariant overflow <==> m > limit
      invariant !overflow ==> acc == m
      decreases |s| - q
    {
      var d := DigitVal(At(s, q));
      if d < 0 || d >= base {
        break;
      }
      MagnitudeNext(s, p, q, base);
      assert s[q..][1..] == s[q + 1..];
      acc, overflow, m := AddDigit(acc, overflow, d, base, cutoff, cutlim, m, limit);
      q := q + 1;
    }
  }

  /** One digit of the accumulation. */
  method AddDigit(acc: int, overflow: bool, d: int, base: int, cutoff: int, cutlim: int, ghost m: int, ghost limit: int)
    returns (acc': int, overflow': bool, ghost m': int)
    requires 0 <= d < base && 2 <= base && 0 <= limit && cutoff == limit / base && cutlim == limit % base
    requires m >= 0 && (overflow <==> m > limit) && (!overflow ==> acc == m)
    ensures m' == m * base + d && m' >= 0 && (overflow' <==> m' > limit) && (!overflow' ==> acc' == m')
  {
    acc', overflow', m' := acc, overflow, m * base + d;
    if !overflow {
      CutoffTest(acc, d, base, limit);
      if acc > cutoff || (acc == cutoff && d > cutlim) {
        overflow' := true;
      } else {
        acc' := acc * base + d;
      }
    } else {
      StaysOver(m, d, base, limit);
    }
    ProductNotNegative(m, base);
  }

  lemma StaysOver(m: int, d: int, base: int, limit: int)
    requires m > limit >= 0 && d >= 0 && base >= 2
    ensures m * base + d > limit
  {
    assert m * base >= m * 2;
  }

  /** The leading part of strtol and strtoul: blanks, sign, prefix. */
  method ScanHead(s: string, base: int) returns (h: Head)
    ensures h == ReadHead(s, base)
  {
    var p := 0;
    assert s[0..] == s;
    while IsSpace(At(s, p))
      invariant 0 <= p <= |s| && SpaceLen(s) == p + SpaceLen(s[p..])
      decreases |s| - p
    {
      assert s[p..][1..] == s[p + 1..];
      p := p + 1;
    }
    var negative := false;
    if At(s, p) == '+' || At(s, p) == '-' {
      negative := At(s, p) == '-';
      p := p + 1;
    }
    var b := base;
    if b == 0 {
      if At(s, p) == '0' && (At(s, p + 1) == 'x' || At(s, p + 1) == 'X') {
        b, p := 16, p + 2;
      } else if At(s, p) == '0' {
        b := 8;
      } else {
        b := 10;
      }
    } else if b == 16 {
      if At(s, p) == '0' && (At(s, p + 1) == 'x' || At(s, p + 1) == 'X') {
        p := p + 2;
      }
    }
    h := Head(negative, b, p);
  }

  /** strtol */
  method ParseLong(s: string, base: int) returns (r: Conv)
    ensures r == Strtol(s, base) && MeansLong(s, base, r)
  {
    ReadersAnswer(s, base);
    if base != 0 && base != 16 && (base < 2 || base > 36) {
      return Conv(0, 0, false, true);
    }
    var h := ScanHead(s, base);
    var limit := if h.negative then LONG_MAX + 1 else LONG_MAX;
    var acc, overflow, q := ScanDigits(s, h.start, h.base, limit);
    assert DigitsOf(s, h) == s[h.start..q];
    r := FinishLong(h.negative, acc, overflow, if q > h.start then q else 0, Magnitude(s[h.start..q], h.base));
  }

  /** The end of strtol: the sign, with LONG_MIN on its own. */
  method FinishLong(negative: bool, acc: int, overflow: bool, end: int, ghost m: int) returns (r: Conv)
    requires m >= 0 && (overflow <==> m > if negative then LONG_MAX + 1 else LONG_MAX) && (!overflow ==> acc == m)
    ensures r == SignedConv(negative, m, end)
  {
    if overflow {
      return Conv(if negative then LONG_MIN else LONG_MAX, end, true, false);
    }
    if negative {
      return Conv(if acc == LONG_MAX + 1 then LONG_MIN else -acc, end, false, false);
    }
    return Conv(acc, end, false, false);
  }

  /** strtoul */
  method ParseUnsigned(s: string, base: int) returns (r: Conv)
    ensures r == Strtoul(s, base) && MeansUnsigned(s, base, r)
  {
    ReadersAnswer(s, base);
    if base != 0 && base != 16 && (base < 2 || base > 36) {
      return Conv(0, 0, false, true);
    }
    var h := ScanHead(s, base);
    var acc, overflow, q := ScanDigits(s, h.start, h.base, ULONG_MAX);
    assert DigitsOf(s, h) == s[h.start..q];
    r := FinishUnsigned(h.negative, acc, overflow, if q > h.start then q else 0, Magnitude(s[h.start..q], h.base));
  }

  method FinishUnsigned(negative: bool, acc: int, overflow: bool, end: int, ghost m: int) returns (r: Conv)
    requires m >= 0 && (overflow <==> m > ULONG_MAX) && (!overflow ==> acc == m)
    ensures r == UnsignedConv(negative, m, end)
  {
    if overflow {
      return Conv(ULONG_MAX, end, true, false);
    }
    return Conv(if negative then (ULONG_MAX + 1 - acc) % (ULONG_MAX + 1) else acc, end, false, false);
  }

  // ---- what the readers mean ------------------------------------------------------------------

  const BLANKS := [' ', '\t', '\n', 11 as char, 12 as char, '\r']
  const LOWER := "0123456789abcdefghijklmnopqrstuvwxyz"
  const UPPER := "0123456789ABCDEFGHIJKLMNOPQRSTUVWXYZ"

  function Pow(base: int, n: nat): int {
    if n == 0 then 1 else base * Pow(base, n - 1)
  }

  /** Digit by digit, each times the power of its position. */
  function PlaceSum(ds: string, base: int): int {
    if ds == [] then 0 else DigitVal(ds[0]) * Pow(base, |ds| - 1) + PlaceSum(ds[1..], base)
  }

  /** A character is the digit `d` exactly if it stands at place `d` of one of the two alphabets. */
  lemma DigitIs(c: char, d: int)
    requires 0 <= d < 36
    ensures DigitVal(c) == d <==> c == LOWER[d] || c == UPPER[d]
  {
    if d >= 10 {
      assert LOWER[d] == ('a' as int + d - 10) as char && UPPER[d] == ('A' as int + d - 10) as char;
    } else {
      assert LOWER[d] == UPPER[d] == ('0' as int + d) as char;
    }
  }

  ghost predicate AllDigits(ds: string, base: int) {
    forall i :: 0 <= i < |ds| ==> IsDigit(ds[i], base)
  }

  ghost predicate AllBlank(sp: string) {
    forall i :: 0 <= i < |sp| ==> sp[i] in BLANKS
  }

  predicate HexStart(t: string) {
    |t| >= 2 && t[0] == '0' && (t[1] == 'x' || t[1] == 'X')
  }

  /** The base in which the digits of `t` count when the caller asked for `base` and `pre` stands in
      front of them: a prefix belongs to bases 0 and 16 only, and there it is never part of the digits. */
  predicate BaseFor(base: int, pre: string, t: string, b: int) {
    if pre == "" then
      && (base == 0 || base == 16 ==> !HexStart(t))
      && if base == 0 then b == (if t != [] && t[0] == '0' then 8 else 10) else 2 <= base <= 36 && b == base
    else (pre == "0x" || pre == "0X") && (base == 0 || base == 16) && b == 16
  }

  /** `s` is blanks, a sign or none, a prefix or none, the digits `ds` and something else. */
  ghost predicate Parts(s: string, base: int, sp: string, sign: string, pre: string, ds: string, rest: string, b: int) {
    && s == sp + (sign + (pre + (ds + rest)))
    && AllBlank(sp) && (sign == "" || sign == "-" || sign == "+")
    && AllDigits(ds, b) && (rest == [] || !IsDigit(rest[0], b)) && BaseFor(base, pre, ds + rest, b)
    && (sign == "" ==> Plain(pre + (ds + rest)))
  }

  /** Neither a blank nor a sign comes first. */
  predicate Plain(w: string) {
    w == [] || (w[0] !in BLANKS && w[0] != '-' && w[0] != '+')
  }

  /** What a reader should answer for such a string: without digits 0 and no progress; otherwise the
      signed sum, the nearer limit where that is out of range, and the place behind the digits. */
  function LongAnswer(sign: string, before: nat, ds: string, b: int): Conv {
    var v := if sign == "-" then -PlaceSum(ds, b) else PlaceSum(ds, b);
    if ds == [] then Conv(0, 0, false, false)
    else if v > LONG_MAX then Conv(LONG_MAX, before + |ds|, true, false)
    else if v < LONG_MIN then Conv(LONG_MIN, before + |ds|, true, false)
    else Conv(v, before + |ds|, false, false)
  }

  function UnsignedAnswer(sign: string, before: nat, ds: string, b: int): Conv {
    var m := PlaceSum(ds, b);
    if ds == [] then Conv(0, 0, false, false)
    else if m > ULONG_MAX then Conv(ULONG_MAX, before + |ds|, true, false)
    else if sign == "-" && m > 0 then Conv(ULONG_MAX + 1 - m, before + |ds|, false, false)
    else Conv(m, before + |ds|, false, false)
  }

  lemma {:induction false} SumSnoc(ds: string, c: char, base: int)
    ensures PlaceSum(ds + [c], base) == PlaceSum(ds, base) * base + DigitVal(c)
  {
    if ds == [] {
      assert ds + [c] == [c] && [c][1..] == [];
      assert Pow(base, 0) == 1;
    } else {
      var r := ds[1..];
      assert (ds + [c])[1..] == r + [c];
      SumSnoc(r, c, base);
      assert Pow(base, |ds|) == base * Pow(base, |ds| - 1);
      Shifted(DigitVal(ds[0]), Pow(base, |ds| - 1), PlaceSum(r, base), DigitVal(c), base);
    }
  }

  lemma Shifted(d: int, p: int, s: int, c: int, base: int)
    ensures d * (base * p) + (s * base + c) == (d * p + s) * base + c
  {
    assert (d * p + s) * base == d * p * base + s * base;
  }

  /** Horner's scheme computes the sum over the positions. */
  lemma {:induction false} MagnitudeIsSum(ds: string, base: int)
    ensures Magnitude(ds, base) == PlaceSum(ds, base)
    decreases |ds|
  {
    if ds != [] {
      MagnitudeIsSum(ds[..|ds| - 1], base);
      SumSnoc(ds[..|ds| - 1], ds[|ds| - 1], base);
      assert ds[..|ds| - 1] + [ds[|ds| - 1]] == ds;
    }
  }

  lemma {:induction false} SpaceLenOf(sp: string, rest: string)
    requires AllBlank(sp) && (rest == [] || rest[0] !in BLANKS)
    ensures SpaceLen(sp + rest) == |sp|
  {
    if sp == [] {
      assert sp + rest == rest;
    } else {
      assert (sp + rest)[1..] == sp[1..] + rest;
      SpaceLenOf(sp[1..], rest);
    }
  }

  lemma {:induction false} DigLenOf(ds: string, rest: string, base: int)
    requires AllDigits(ds, base) && (rest == [] || !IsDigit(rest[0], base))
    ensures DigLen(ds + rest, base) == |ds|
  {
    if ds == [] {
      assert ds + rest == rest;
    } else {
      assert (ds + rest)[1..] == ds[1..] + rest;
      assert IsDigit(ds[0], base);
      DigLenOf(ds[1..], rest, base);
    }
  }

  lemma FrontIs(s: string, base: int, sp: string, sign: string, pre: string, ds: string, rest: string, b: int)
    requires Parts(s, base, sp, sign, pre, ds, rest, b)
    ensures SpaceLen(s) == |sp| && (At(s, |sp|) == '-' <==> sign == "-") && (At(s, |sp|) == '+' <==> sign == "+")
  {
    var w := pre + (ds + rest);
    SpaceLenOf(sp, sign + w);
    AtBehind(sp, sign + w, 0);
  }

  lemma HeadOf(s: string, base: int, sp: string, sign: string, pre: string, ds: string, rest: string, b: int)
    requires Parts(s, base, sp, sign, pre, ds, rest, b)
    ensures GoodBase(base) && ReadHead(s, base) == Head(sign == "-", b, |sp| + |sign| + |pre|)
  {
    var t := ds + rest;
    FrontIs(s, base, sp, sign, pre, ds, rest, b);
    AtBehind(sp, sign + (pre + t), |sign|);
    AtBehind(sp, sign + (pre + t), |sign| + 1);
    AtBehind(sign, pre + t, 0);
    AtBehind(sign, pre + t, 1);
  }

  lemma AtBehind(a: string, w: string, i: nat)
    ensures At(a + w, |a| + i) == At(w, i)
  {
  }

  lemma DigitsAfter(s: string, base: int, sp: string, sign: string, pre: string, ds: string, rest: string, b: int)
    requires Parts(s, base, sp, sign, pre, ds, rest, b)
    ensures DigitsOf(s, Head(sign == "-", b, |sp| + |sign| + |pre|)) == ds
  {
    assert s[|sp| + |sign| + |pre|..] == ds + rest;
    DigLenOf(ds, rest, b);
  }

  /** strtol and strtoul on every string of that form, in every base. */
  lemma ReadersMean(s: string, base: int, sp: string, sign: string, pre: string, ds: string, rest: string, b: int)
    requires Parts(s, base, sp, sign, pre, ds, rest, b)
    ensures Strtol(s, base) == LongAnswer(sign, |sp| + |sign| + |pre|, ds, b)
    ensures Strtoul(s, base) == UnsignedAnswer(sign, |sp| + |sign| + |pre|, ds, b)
  {
    HeadOf(s, base, sp, sign, pre, ds, rest, b);
    DigitsAfter(s, base, sp, sign, pre, ds, rest, b);
    MagnitudeIsSum(ds, b);
    SumNotNegative(ds, b);
    AnswersFit(sign, |sp| + |sign| + |pre|, ds, b, PlaceSum(ds, b));
  }

  lemma AnswersFit(sign: string, before: nat, ds: string, b: int, m: int)
    requires m == PlaceSum(ds, b) >= 0
    ensures SignedConv(sign == "-", m, if ds == [] then 0 else before + |ds|) == LongAnswer(sign, before, ds, b)
    ensures UnsignedConv(sign == "-", m, if ds == [] then 0 else before + |ds|) == UnsignedAnswer(sign, before, ds, b)
  {
    if 0 < m <= ULONG_MAX { NegatedWord(m); }
  }

  lemma NegatedWord(m: int)
    requires 0 < m <= ULONG_MAX
    ensures (ULONG_MAX + 1 - m) % (ULONG_MAX + 1) == ULONG_MAX + 1 - m
  {
  }

  lemma {:induction false} SumNotNegative(ds: string, b: int)
    requires AllDigits(ds, b) && b >= 2
    ensures PlaceSum(ds, b) >= 0
  {
    if ds != [] {
      assert IsDigit(ds[0], b);
      SumNotNegative(ds[1..], b);
      PowPositive(b, |ds| - 1);
      ProductNotNegative(DigitVal(ds[0]), Pow(b, |ds| - 1));
    }
  }

  lemma ProductNotNegative(a: int, b: int)
    requires a >= 0 && b >= 0
    ensures a * b >= 0
  {
  }

  lemma {:induction false} PowPositive(b: int, n: nat)
    requires b >= 2
    ensures Pow(b, n) > 0
  {
    if n > 0 { PowPositive(b, n - 1); }
  }

  lemma {:induction false} BlanksIn(s: string)
    ensures AllBlank(s[..SpaceLen(s)])
    ensures SpaceLen(s) < |s| ==> s[SpaceLen(s)] !in BLANKS
  {
    if s != [] && IsSpace(s[0]) {
      BlanksIn(s[1..]);
      assert s[..SpaceLen(s)] == [s[0]] + s[1..][..SpaceLen(s[1..])];
    }
  }

  lemma {:induction false} DigitsIn(t: string, b: int)
    ensures DigLen(t, b) < |t| ==> !IsDigit(t[DigLen(t, b)], b)
  {
    if t != [] && IsDigit(t[0], b) { DigitsIn(t[1..], b); }
  }

  /** Every string has that form in every base that is not refused, so nothing is left open. */
  lemma EveryString(s: string, base: int)
    returns (sp: string, sign: string, pre: string, ds: string, rest: string, b: int)
    requires GoodBase(base)
    ensures Parts(s, base, sp, sign, pre, ds, rest, b)
  {
    var w;
    sp, sign, w := FrontOf(s);
    pre, ds, rest, b := DigitsFrom(w, base);
  }

  lemma FrontOf(s: string) returns (sp: string, sign: string, w: string)
    ensures s == sp + (sign + w) && AllBlank(sp) && (sign == "" || sign == "-" || sign == "+")
    ensures sign == "" ==> Plain(w)
  {
    BlanksIn(s);
    var u := s[SpaceLen(s)..];
    sp := s[..SpaceLen(s)];
    sign := if u != [] && (u[0] == '-' || u[0] == '+') then [u[0]] else "";
    w := u[|sign|..];
    assert u == sign + w;
  }

  lemma DigitsFrom(w: string, base: int) returns (pre: string, ds: string, rest: string, b: int)
    requires GoodBase(base)
    ensures w == pre + (ds + rest) && AllDigits(ds, b) && (rest == [] || !IsDigit(rest[0], b))
    ensures BaseFor(base, pre, ds + rest, b)
  {
    pre := if (base == 0 || base == 16) && HexStart(w) then [w[0], w[1]] else "";
    var t := w[|pre|..];
    b := if pre != "" then 16 else if base != 0 then base else if t != [] && t[0] == '0' then 8 else 10;
    DigitsIn(t, b);
    ds, rest := t[..DigLen(t, b)], t[DigLen(t, b)..];
    assert ds + rest == t;
  }

  /** A prefix without digits behind it is no number at all, not even the zero that it starts with. */
  lemma BarePrefix(s: string, sp: string, sign: string, pre: string, rest: string, base: int)
    requires s == sp + (sign + (pre + rest))
    requires AllBlank(sp) && (sign == "" || sign == "-" || sign == "+") && (pre == "0x" || pre == "0X")
    requires (base == 0 || base == 16) && (rest == [] || !IsDigit(rest[0], 16))
    ensures Strtol(s, base) == Strtoul(s, base) == Conv(0, 0, false, false)
  {
    assert [] + rest == rest;
    ReadersMean(s, base, sp, sign, pre, [], rest, 16);
  }

  /** `r` is the answer for `s`, however `s` is taken apart; a refused base answers 0 at once. */
  ghost predicate MeansLong(s: string, base: int, r: Conv) {
    && (r.bad <==> !GoodBase(base)) && (r.bad ==> r == Conv(0, 0, false, true))
    && forall sp, sign, pre, ds, rest, b :: Parts(s, base, sp, sign, pre, ds, rest, b) ==>
         r == LongAnswer(sign, |sp| + |sign| + |pre|, ds, b)
  }

  ghost predicate MeansUnsigned(s: string, base: int, r: Conv) {
    && (r.bad <==> !GoodBase(base)) && (r.bad ==> r == Conv(0, 0, false, true))
    && forall sp, sign, pre, ds, rest, b :: Parts(s, base, sp, sign, pre, ds, rest, b) ==>
         r == UnsignedAnswer(sign, |sp| + |sign| + |pre|, ds, b)
  }

  lemma ReadersAnswer(s: string, base: int)
    ensures MeansLong(s, base, Strtol(s, base)) && MeansUnsigned(s, base, Strtoul(s, base))
  {
    forall sp, sign, pre, ds, rest, b | Parts(s, base, sp, sign, pre, ds, rest, b)
      ensures Strtol(s, base) == LongAnswer(sign, |sp| + |sign| + |pre|, ds, b)
      ensures Strtoul(s, base) == UnsignedAnswer(sign, |sp| + |sign| + |pre|, ds, b)
    {
      ReadersMean(s, base, sp, sign, pre, ds, rest, b);
    }
  }

  // ---- writing ------------------------------------------------------------------------------

  function DigitChar(d: int, upper: bool): char
    requires 0 <= d < 16
  {
    if d < 10 then ('0' as int + d) as char
    else if upper then ('A' as int + (d - 10)) as char
    else ('a' as int + (d - 10)) as char
  }

  /** The digits of a number, most significant first. */
  function Digits(v: int, base: int, upper: bool): (ds: string)
    requires 0 <= v && 2 <= base <= 16
    ensures ds != []
    decreases v
  {
    if v < base then [DigitChar(v, upper)] else Digits(v / base, base, upper) + [DigitChar(v % base, upper)]
  }

  lemma DigitCharVal(d: int, upper: bool)
    requires 0 <= d < 16
    ensures DigitVal(DigitChar(d, upper)) == d
  {
  }

  /** Digits denote the number they were made from. */
  lemma {:induction false} MagnitudeOfDigits(v: int, base: int, upper: bool)
    requires 0 <= v && 2 <= base <= 16
    ensures Magnitude(Digits(v, base, upper), base) == v && AllDigits(Digits(v, base, upper), base)
    decreases v
  {
    if v < base {
      DigitCharVal(v, upper);
      MagnitudeSnoc([], DigitChar(v, upper), base);
      assert [] + [DigitChar(v, upper)] == [DigitChar(v, upper)];
    } else {
      DivMod(v, base);
      MagnitudeOfDigits(v / base, base, upper);
      DigitCharVal(v % base, upper);
      MagnitudeSnoc(Digits(v / base, base, upper), DigitChar(v % base, upper), base);
    }
  }

  lemma MagnitudeSnoc(ds: string, c: char, base: int)
    ensures Magnitude(ds + [c], base) == Magnitude(ds, base) * base + DigitVal(c)
  {
    assert (ds + [c])[..|ds|] == ds;
  }

  lemma DivMod(v: int, base: int)
    requires 0 <= v && base >= 2
    ensures v / base * base + v % base == v && (v > 0 ==> v / base < v)
    ensures if v < base then v / base == 0 && v % base == v else v / base > 0
  {
  }

  datatype Flags = Flags(left: bool, zero: bool, plus: bool, space: bool, hash: bool)

  datatype Kind = Signed | Unsigned | Hex(upper: bool) | Octal

  function BaseOf(k: Kind): int {
    match k
    case Signed => 10
    case Unsigned => 10
    case Hex(_) => 16
    case Octal => 8
  }

  function Upper(k: Kind): bool {
    k.Hex? && k.upper
  }

  function Sign(fl: Flags, k: Kind, negative: bool): string {
    if negative then "-"
    else if fl.plus && k.Signed? then "+"
    else if fl.space && k.Signed? then " "
    else ""
  }

  function Prefix(fl: Flags, k: Kind, u: int): string {
    if !fl.hash || u == 0 then ""
    else if k.Hex? then (if k.upper then "0X" else "0x")
    else if k.Octal? then "0"
    else ""
  }

  function Fill(c: char, n: int): string {
    seq(if n < 0 then 0 else n, i => c)
  }

  /** Flags and width: blanks behind, zeros inside, or blanks in front. */
  function Layout(fl: Flags, width: int, head: string, ds: string): string {
    var pad := width - |head| - |ds|;
    if fl.left then head + ds + Fill(' ', pad)
    else if fl.zero then head + Fill('0', pad) + ds
    else Fill(' ', pad) + head + ds
  }

  /** An integer conversion without precision. */
  function Formatted(fl: Flags, width: int, k: Kind, v: int): string {
    var u := if v < 0 then -v else v;
    Layout(fl, width, Sign(fl, k, v < 0) + Prefix(fl, k, u), Digits(u, BaseOf(k), Upper(k)))
  }

  function Pow4(n: int): int
    requires n >= 0
  {
    if n == 0 then 1 else 4 * Pow4(n - 1)
  }

  lemma {:induction false} DigitsFit(v: int, base: int, upper: bool, n: int)
    requires 4 <= base <= 16 && n >= 1 && 0 <= v < Pow4(n)
    ensures |Digits(v, base, upper)| <= n
    decreases n
  {
    if v >= base {
      assert v / base <= v / 4;
      assert n > 1 by { assert Pow4(1) == 4 * Pow4(0) == 4; }
      DigitsFit(v / base, base, upper, n - 1);
    }
  }

  lemma Pow4Is()
    ensures Pow4(32) == ULONG_MAX + 1
  {
    assert Pow4(8) == 4 * Pow4(7) == 16 * Pow4(6) == 64 * Pow4(5) == 256 * Pow4(4) == 1024 * Pow4(3)
        == 4096 * Pow4(2) == 65536;
    assert Pow4(16) == 4 * Pow4(15) == 16 * Pow4(14) == 64 * Pow4(13) == 256 * Pow4(12);
    assert Pow4(12) == 4 * Pow4(11) == 16 * Pow4(10) == 64 * Pow4(9) == 256 * Pow4(8);
    assert Pow4(24) == 4 * Pow4(23) == 16 * Pow4(22) == 64 * Pow4(21) == 256 * Pow4(20);
    assert Pow4(20) == 4 * Pow4(19) == 16 * Pow4(18) == 64 * Pow4(17) == 256 * Pow4(16);
    assert Pow4(32) == 4 * Pow4(31) == 16 * Pow4(30) == 64 * Pow4(29) == 256 * Pow4(28);
    assert Pow4(28) == 4 * Pow4(27) == 16 * Pow4(26) == 64 * Pow4(25) == 256 * Pow4(24);
  }

  /** u64_to_base: fill a small buffer from the right end of the number, then reverse it. */
  method ToBase(v: int, base: int, upper: bool, out: array<char>) returns (n: int)
    requires 0 <= v <= ULONG_MAX && 4 <= base <= 16 && out.Length == 32
    modifies out
    ensures 0 < n <= 32 && out[..n] == Digits(v, base, upper)
  {
    Pow4Is();
    DigitsFit(v, base, upper, 32);
    ghost var ds := Digits(v, base, upper);
    var tmp := new char[32];
    n := FillBack(v, base, upper, tmp);
    var i := 0;
    while i < n
      invariant 0 <= i <= n && n == |ds| && forall j :: 0 <= j < i ==> out[j] == ds[j]
      invariant Backwards(tmp[..], ds)
    {
      assert tmp[..][n - 1 - i] == tmp[n - 1 - i];
      out[i] := tmp[n - 1 - i];
      i := i + 1;
    }
  }

  /** The start of the buffer is the string back to front. */
  ghost predicate Backwards(tmp: seq<char>, s: string) {
    |s| <= |tmp| && forall i :: 0 <= i < |s| ==> s[i] == tmp[|s| - 1 - i]
  }

  /** The digit loop of u64_to_base. */
  method FillBack(v: int, base: int, upper: bool, tmp: array<char>) returns (n: int)
    requires 0 <= v && 2 <= base <= 16 && tmp.Length == 32 && |Digits(v, base, upper)| <= 32
    modifies tmp
    ensures n == |Digits(v, base, upper)| && Backwards(tmp[..], Digits(v, base, upper))
  {
    n := 0;
    if v == 0 {
      tmp[0] := '0';
      return 1;
    }
    ghost var ds, low := Digits(v, base, upper), "";
    var w := v;
    assert ds == Digits(w, base, upper) + low;
    while w > 0
      invariant 0 <= w && n == |low| && Backwards(tmp[..], low)
      invariant ds == (if w > 0 then Digits(w, base, upper) else "") + low
      decreases w
    {
      LastDigit(w, base, upper, low);
      DivMod(w, base);
      var c := DigitChar(w % base, upper);
      OneMoreBack(tmp[..], low, c);
      low := [c] + low;
      tmp[n] := c;
      n, w := n + 1, w / base;
    }
    assert ds == low;
  }

  lemma OneMoreBack(tmp: seq<char>, low: string, c: char)
    requires Backwards(tmp, low) && |low| < |tmp|
    ensures Backwards(tmp[|low| := c], [c] + low)
  {
  }

  /** Moving the last digit over to the finished part. */
  lemma LastDigit(w: int, base: int, upper: bool, low: string)
    requires w > 0 && 2 <= base <= 16
    ensures Digits(w, base, upper) + low
            == (if w / base > 0 then Digits(w / base, base, upper) else "") + ([DigitChar(w % base, upper)] + low)
  {
    DivMod(w, base);
    if w >= base {
      var a, c := Digits(w / base, base, upper), DigitChar(w % base, upper);
      assert (a + [c]) + low == a + ([c] + low);
    }
  }

  /** One integer conversion of format_core, without precision. */
  method Format(fl: Flags, width: int, k: Kind, v: int) returns (out: string)
    requires if k.Signed? then LONG_MIN <= v <= LONG_MAX else 0 <= v <= ULONG_MAX
    ensures out == Formatted(fl, width, k, v)
  {
    var negative := v < 0;
    var uval := if negative then -(v + 1) + 1 else v;
    var body := "";
    if negative {
      body := body + "-";
    } else if fl.plus && k.Signed? {
      body := body + "+";
    } else if fl.space && k.Signed? {
      body := body + " ";
    }
    if fl.hash && uval != 0 {
      if BaseOf(k) == 16 {
        body := body + ['0'] + [if Upper(k) then 'X' else 'x'];
      } else if BaseOf(k) == 8 {
        body := body + "0";
      }
    }
    assert body == Sign(fl, k, negative) + Prefix(fl, k, uval);
    var headlen := |body|;
    var digits := new char[32];
    var dlen := ToBase(uval, BaseOf(k), Upper(k), digits);
    body := body + digits[..dlen];
    out := Pad(fl, width, body, headlen);
    assert body[..headlen] == Sign(fl, k, negative) + Prefix(fl, k, uval) && body[headlen..] == digits[..dlen];
  }

  method Pad(fl: Flags, width: int, body: string, headlen: int) returns (out: string)
    requires 0 <= headlen <= |body|
    ensures out == Layout(fl, width, body[..headlen], body[headlen..])
  {
    var pad := if width > |body| then width - |body| else 0;
    assert body == body[..headlen] + body[headlen..];
    if fl.left {
      var f := Repeat(' ', pad);
      out := body + f;
    } else if fl.zero {
      var f := Repeat('0', pad);
      out := body[..headlen] + f + body[headlen..];
    } else {
      var f := Repeat(' ', pad);
      out := f + body;
      assert out == f + body[..headlen] + body[headlen..];
    }
  }

  /** out_repeat */
  method Repeat(c: char, n: int) returns (s: string)
    requires n >= 0
    ensures s == Fill(c, n)
  {
    s := "";
    var i := 0;
    while i < n
      invariant 0 <= i <= n && s == Fill(c, i)
    {
      s := s + [c];
      i := i + 1;
    }
  }

  // ---- what the writer means --------------------------------------------------------------------

  /** The output of an integer conversion, piece by piece. */
  datatype Output = Output(lead: string, sign: string, pre: string, zeros: string, ds: string, trail: string)

  function Text(o: Output): string {
    o.lead + o.sign + o.pre + o.zeros + o.ds + o.trail
  }

  ghost predicate Only(c: char, s: string) {
    forall i :: 0 <= i < |s| ==> s[i] == c
  }

  /** The digits are the shortest ones for `u`, in lower or upper case. */
  ghost predicate Shortest(ds: string, u: int, base: int, upper: bool) {
    && ds != [] && PlaceSum(ds, base) == u && (|ds| > 1 ==> ds[0] != '0')
    && forall i :: 0 <= i < |ds| ==>
         exists d :: 0 <= d < base <= 16 && ds[i] == if upper then UPPER[d] else LOWER[d]
  }

  /** What the manual promises: the shortest digits, the sign and the prefix that the flags ask for, and
      padding of one kind up to the width. */
  ghost predicate AsAsked(fl: Flags, width: int, k: Kind, v: int, o: Output) {
    && Shortest(o.ds, if v < 0 then -v else v, if k.Hex? then 16 else if k.Octal? then 8 else 10, k == Hex(true))
    && o.sign == (if v < 0 then "-" else if !k.Signed? then ""
                  else if fl.plus then "+" else if fl.space then " " else "")
    && o.pre == (if !fl.hash || v == 0 then "" else
                 match k case Hex(true) => "0X" case Hex(false) => "0x" case Octal => "0" case _ => "")
    && Padded(fl, width, o)
  }

  /** Padding of one kind, in the place the flags ask for, and just enough of it. */
  ghost predicate Padded(fl: Flags, width: int, o: Output) {
    && Only(' ', o.lead) && Only('0', o.zeros) && Only(' ', o.trail)
    && (o.lead != "" ==> !fl.left && !fl.zero) && (o.zeros != "" ==> !fl.left && fl.zero) && (o.trail != "" ==> fl.left)
    && |Text(o)| == if width > |o.sign + o.pre + o.ds| then width else |o.sign + o.pre + o.ds|
  }

  lemma DigitsAreShortest(v: int, base: int, upper: bool)
    requires 0 <= v && 2 <= base <= 16
    ensures Shortest(Digits(v, base, upper), v, base, upper)
  {
    MagnitudeOfDigits(v, base, upper);
    MagnitudeIsSum(Digits(v, base, upper), base);
    DigitChars(v, base, upper);
  }

  lemma {:induction false} DigitChars(v: int, base: int, upper: bool)
    requires 0 <= v && 2 <= base <= 16
    ensures var ds := Digits(v, base, upper);
            && (v > 0 ==> ds[0] != '0')
            && forall i :: 0 <= i < |ds| ==>
                 exists d :: 0 <= d < base <= 16 && ds[i] == if upper then UPPER[d] else LOWER[d]
    decreases v
  {
    if v < base {
      CharIs(v, upper);
    } else {
      DivMod(v, base);
      CharIs(v % base, upper);
      DigitChars(v / base, base, upper);
    }
  }

  lemma CharIs(d: int, upper: bool)
    requires 0 <= d < 16
    ensures DigitChar(d, upper) == if upper then UPPER[d] else LOWER[d]
    ensures d > 0 ==> DigitChar(d, upper) != '0'
  {
  }

  lemma LaidOut(fl: Flags, width: int, sign: string, pre: string, ds: string) returns (o: Output)
    ensures o.sign == sign && o.pre == pre && o.ds == ds
    ensures Padded(fl, width, o) && Layout(fl, width, sign + pre, ds) == Text(o)
  {
    var pad := width - |sign + pre| - |ds|;
    if fl.left {
      o := Output("", sign, pre, "", ds, Fill(' ', pad));
    } else if fl.zero {
      o := Output("", sign, pre, Fill('0', pad), ds, "");
    } else {
      o := Output(Fill(' ', pad), sign, pre, "", ds, "");
    }
    assert Layout(fl, width, sign + pre, ds) == Text(o);
  }

  /** Every integer conversion prints what was asked for. */
  lemma PrintsAsAsked(fl: Flags, width: int, k: Kind, v: int) returns (o: Output)
    requires k.Signed? || v >= 0
    ensures AsAsked(fl, width, k, v, o) && Formatted(fl, width, k, v) == Text(o)
  {
    var u := if v < 0 then -v else v;
    DigitsAreShortest(u, BaseOf(k), Upper(k));
    o := LaidOut(fl, width, Sign(fl, k, v < 0), Prefix(fl, k, u), Digits(u, BaseOf(k), Upper(k)));
  }

  // ---- printing and parsing are inverse ---------------------------------------------------------

  ghost predicate Blank(s: string) {
    forall i :: 0 <= i < |s| ==> s[i] == ' '
  }

  lemma {:induction false} LeadingZeros(n: int, ds: string, base: int)
    requires n >= 0
    ensures Magnitude(Fill('0', n) + ds, base) == Magnitude(ds, base)
    decreases |ds|, n
  {
    var z := Fill('0', n);
    if ds != [] {
      LeadingZeros(n, ds[..|ds| - 1], base);
      assert (z + ds)[..|z + ds| - 1] == z + ds[..|ds| - 1];
    } else if n > 0 {
      LeadingZeros(n - 1, ds, base);
      assert (z + ds)[..n - 1] == Fill('0', n - 1) + ds;
    }
  }

  lemma ZerosAreDigits(n: int, ds: string, base: int)
    requires AllDigits(ds, base) && base >= 2
    ensures AllDigits(Fill('0', n) + ds, base)
  {
  }

  /** Blanks, sign, prefix, digits, and then nothing or a blank. */
  lemma Printed(s: string, sp: string, sign: string, pre: string, ds: string, tail: string, base: int, b: int)
    requires s == sp + sign + pre + ds + tail
    requires Blank(sp) && Blank(tail) && (sign == "" || sign == "-" || sign == "+") && ds != [] && AllDigits(ds, b)
    requires BaseFor(base, pre, ds + tail, b)
    ensures Parts(s, base, sp, sign, pre, ds, tail, b)
  {
    assert s == sp + (sign + (pre + (ds + tail)));
    assert IsDigit(ds[0], b) && (pre + (ds + tail))[0] == if pre == "" then ds[0] else '0';
  }

  lemma LongParses(s: string, sp: string, sign: string, ds: string, tail: string, v: int)
    requires s == sp + sign + ds + tail && Blank(sp) && Blank(tail) && (sign == "" || sign == "-" || sign == "+")
    requires ds != [] && AllDigits(ds, 10) && LONG_MIN <= v <= LONG_MAX
    requires Magnitude(ds, 10) == (if v < 0 then -v else v) && (sign == "-" <==> v < 0)
    ensures Strtol(s, 10) == Conv(v, |sp| + |sign| + |ds|, false, false)
  {
    assert sp + sign + "" == sp + sign;
    Printed(s, sp, sign, "", ds, tail, 10, 10);
    ReadersMean(s, 10, sp, sign, "", ds, tail, 10);
    MagnitudeIsSum(ds, 10);
  }

  /** The three layouts as blanks, sign, digits, blanks; a blank that stands for the sign counts as one. */
  lemma LayoutParts(fl: Flags, width: int, gap: string, sign: string, ds: string, base: int)
    returns (sp: string, zs: string, tail: string)
    requires Blank(gap) && ds != [] && base >= 2 && AllDigits(ds, base)
    ensures Layout(fl, width, gap + sign, ds) == sp + sign + zs + tail
    ensures Blank(sp) && Blank(tail) && zs != [] && AllDigits(zs, base) && Magnitude(zs, base) == Magnitude(ds, base)
    ensures ds[0] == '0' ==> zs[0] == '0'
  {
    var pad := width - |gap + sign| - |ds|;
    if fl.left {
      return gap, ds, Fill(' ', pad);
    }
    if fl.zero {
      sp, zs, tail := gap, Fill('0', pad) + ds, "";
      ZerosAreDigits(pad, ds, base);
      LeadingZeros(if pad < 0 then 0 else pad, ds, base);
      assert Layout(fl, width, gap + sign, ds) == gap + sign + zs + "";
      return;
    }
    sp, zs, tail := Fill(' ', pad) + gap, ds, "";
    assert Layout(fl, width, gap + sign, ds) == sp + sign + zs + "";
  }

  /** printf then strtol: every long comes back, LONG_MIN included, for every flag and width. */
  lemma LongRoundTrip(fl: Flags, width: int, v: int)
    requires LONG_MIN <= v <= LONG_MAX
    ensures var r := Strtol(Formatted(fl, width, Signed, v), 10); r.value == v && !r.range && !r.bad && r.end > 0
  {
    var u, sg := if v < 0 then -v else v, Sign(fl, Signed, v < 0);
    var ds := Digits(u, 10, false);
    MagnitudeOfDigits(u, 10, false);
    var gap, sign := if sg == " " then " " else "", if sg == " " then "" else sg;
    assert gap + sign == sg + Prefix(fl, Signed, u);
    var sp, zs, tail := LayoutParts(fl, width, gap, sign, ds, 10);
    LongParses(Formatted(fl, width, Signed, v), sp, sign, zs, tail, v);
  }

  /** %lu comes back through strtoul in base 10. */
  lemma UnsignedRoundTrip(fl: Flags, width: int, v: int)
    requires 0 <= v <= ULONG_MAX
    ensures var r := Strtoul(Formatted(fl, width, Unsigned, v), 10); r.value == v && !r.range && !r.bad && r.end > 0
  {
    var ds := Digits(v, 10, false);
    MagnitudeOfDigits(v, 10, false);
    assert Sign(fl, Unsigned, false) + Prefix(fl, Unsigned, v) == "" + "";
    var sp, zs, tail := LayoutParts(fl, width, "", "", ds, 10);
    UnsignedParses(Formatted(fl, width, Unsigned, v), 10, sp, "", zs, tail, 10, v);
  }

  lemma UnsignedParses(s: string, base: int, sp: string, pre: string, ds: string, tail: string, b: int, v: int)
    requires s == sp + pre + ds + tail && Blank(sp) && Blank(tail) && ds != [] && AllDigits(ds, b)
    requires BaseFor(base, pre, ds + tail, b) && Magnitude(ds, b) == v && 0 <= v <= ULONG_MAX
    ensures Strtoul(s, base) == Conv(v, |sp| + |pre| + |ds|, false, false)
  {
    assert sp + "" == sp;
    Printed(s, sp, "", pre, ds, tail, base, b);
    ReadersMean(s, base, sp, "", pre, ds, tail, b);
    MagnitudeIsSum(ds, b);
  }

  /** Octal digits, or nothing but a zero, do not look like a hexadecimal prefix. */
  lemma NotHex(ds: string, tail: string)
    requires ds != [] && AllDigits(ds, 8) && Blank(tail)
    ensures !HexStart(ds + tail)
  {
    if |ds| > 1 { assert IsDigit(ds[1], 8); }
  }

  /** Zero has no prefix; its zeros read as octal. */
  lemma ZeroParses(fl: Flags, width: int, k: Kind)
    requires !k.Signed?
    ensures Strtoul(Formatted(fl, width, k, 0), 0).value == 0 && !Strtoul(Formatted(fl, width, k, 0), 0).range
  {
    var ds := Digits(0, BaseOf(k), Upper(k));
    assert ds == "0";
    assert Magnitude("0", 8) == 0 by { assert "0"[..0] == ""; }
    assert Sign(fl, k, false) + Prefix(fl, k, 0) == "" + "";
    var sp, zs, tail := LayoutParts(fl, width, "", "", ds, 8);
    NotHex(zs, tail);
    UnsignedParses(Formatted(fl, width, k, 0), 0, sp, "", zs, tail, 8, 0);
  }

  /** %#lx and %#lX come back through strtoul with base 0, padded or not. */
  lemma HexRoundTrip(fl: Flags, width: int, upper: bool, v: int)
    requires 0 <= v <= ULONG_MAX && fl.hash
    ensures var r := Strtoul(Formatted(fl, width, Hex(upper), v), 0); r.value == v && !r.range
  {
    if v == 0 {
      ZeroParses(fl, width, Hex(upper));
    } else {
      var ds, x := Digits(v, 16, upper), if upper then "0X" else "0x";
      MagnitudeOfDigits(v, 16, upper);
      assert Sign(fl, Hex(upper), false) + Prefix(fl, Hex(upper), v) == "" + x;
      var sp, zs, tail := LayoutParts(fl, width, "", x, ds, 16);
      UnsignedParses(Formatted(fl, width, Hex(upper), v), 0, sp, x, zs, tail, 16, v);
    }
  }

  /** So does %#lo. */
  lemma OctalRoundTrip(fl: Flags, width: int, v: int)
    requires 0 <= v <= ULONG_MAX && fl.hash
    ensures var r := Strtoul(Formatted(fl, width, Octal, v), 0); r.value == v && !r.range
  {
    if v == 0 {
      ZeroParses(fl, width, Octal);
    } else {
      var ds := Digits(v, 8, false);
      MagnitudeOfDigits(v, 8, false);
      assert Sign(fl, Octal, false) + Prefix(fl, Octal, v) == "" + "0";
      var sp, zs, tail := LayoutParts(fl, width, "", "0", ds, 8);
      OctalHead(zs);
      assert sp + "0" + zs + tail == sp + "" + ("0" + zs) + tail;
      NotHex("0" + zs, tail);
      UnsignedParses(Formatted(fl, width, Octal, v), 0, sp, "", "0" + zs, tail, 8, v);
    }
  }

  lemma OctalHead(zs: string)
    requires AllDigits(zs, 8)
    ensures AllDigits("0" + zs, 8) && Magnitude("0" + zs, 8) == Magnitude(zs, 8)
  {
    LeadingZeros(1, zs, 8);
    assert Fill('0', 1) == "0";
  }
}
