/** The shell's lexical path normaliser (src/userspace/shell/main.c) against the server's walk. */
module Paths {
  import opened Basics
  import opened VfsTree
  import opened PathWalk

  const BUF: int := 512
  const DEPTH: int := 32

  predicate Ordinary(seg: string) {
    seg != [] && seg != "." && seg != ".." && '/' !in seg
  }

  ghost predicate AllOrdinary(st: seq<string>) {
    forall i :: 0 <= i < |st| ==> Ordinary(st[i])
  }

  /** One component on the stack of normalize_path. */
  function Push(st: seq<string>, seg: string): Option<seq<string>> {
    if seg == "." then Some(st)
    else if seg == ".." then Some(if st == [] then st else st[..|st| - 1])
    else if |st| >= DEPTH then None
    else Some(st + [seg])
  }

  function Fold(st: seq<string>, segs: seq<string>): Option<seq<string>>
    decreases |segs|
  {
    if segs == [] then Some(st)
    else
      var r := Push(st, segs[0]);
      if r.None? then None else Fold(r.value, segs[1..])
  }

  /** Every component behind the leading slash, each followed by one. */
  function Spelled(st: seq<string>): string {
    if st == [] then "/" else Spelled(st[..|st| - 1]) + st[|st| - 1] + "/"
  }

  function Render(st: seq<string>): string {
    if st == [] then "/" else Spelled(st[..|st| - 1]) + st[|st| - 1]
  }

  /** What normalize_path produces, if its buffers suffice. */
  function Normal(path: string, cap: int): Option<string> {
    var st := Fold([], Segments(path));
    if |path| >= BUF || st.None? || cap < 2 || (st.value != [] && |Spelled(st.value)| >= cap) then None
    else Some(Render(st.value))
  }

  // ---- segments ---------------------------------------------------------------------------

  lemma {:induction false} SegmentsAre(s: string)
    ensures forall i :: 0 <= i < |Segments(s)| ==> Segments(s)[i] != [] && '/' !in Segments(s)[i]
    decreases |s|
  {
    if s != [] {
      if s[0] == '/' {
        SegmentsAre(s[1..]);
      } else {
        SegmentsAre(s[SegLen(s)..]);
      }
    }
  }

  lemma {:induction false} SegLenCut(a: string, b: string)
    requires '/' !in a && (b == [] || b[0] == '/')
    ensures SegLen(a + b) == |a|
  {
    if a != [] {
      assert (a + b)[1..] == a[1..] + b;
      assert a[0] != '/';
      SegLenCut(a[1..], b);
    } else {
      assert a + b == b;
    }
  }

  /** A slash separates: the components of both sides, one after the other. */
  lemma {:induction false} SegmentsJoin(a: string, b: string)
    ensures Segments(a + "/" + b) == Segments(a) + Segments(b)
    decreases |a|
  {
    var s := a + "/" + b;
    if a == [] {
      assert s[1..] == b;
    } else if a[0] == '/' {
      assert s[1..] == a[1..] + "/" + b;
      SegmentsJoin(a[1..], b);
    } else {
      var n := SegLen(a);
      SegLenPrefix(a, "/" + b);
      assert s == a + ("/" + b);
      assert s[..n] == a[..n];
      assert s[n..] == a[n..] + "/" + b;
      SegmentsJoin(a[n..], b);
    }
  }

  lemma {:induction false} SegLenPrefix(a: string, c: string)
    requires c != [] && c[0] == '/'
    ensures SegLen(a + c) == SegLen(a)
  {
    if a != [] && a[0] != '/' {
      assert (a + c)[1..] == a[1..] + c;
      SegLenPrefix(a[1..], c);
    } else if a == [] {
      assert a + c == c;
    }
  }

  lemma OneSegment(seg: string)
    requires seg != [] && '/' !in seg
    ensures Segments(seg) == [seg]
  {
    assert seg[0] != '/';
    SegLenCut(seg, []);
    assert seg + [] == seg;
    assert seg[..|seg|] == seg && Segments(seg[|seg|..]) == [];
  }

  /** Rendering and splitting are inverse. */
  lemma {:induction false} SegmentsSpelled(st: seq<string>)
    requires AllOrdinary(st)
    ensures Segments(Spelled(st)) == st && Segments(Render(st)) == st
    ensures Spelled(st) != [] && Spelled(st)[|Spelled(st)| - 1] == '/'
    decreases |st|
  {
    if st == [] {
      assert "/"[1..] == "";
    } else {
      var front, seg := st[..|st| - 1], st[|st| - 1];
      SegmentsSpelled(front);
      OneSegment(seg);
      SpelledThen(front, seg);
      TrailingSlash(Spelled(front) + seg);
      assert st == front + [seg];
    }
  }

  lemma TrailingSlash(s: string)
    ensures Segments(s + "/") == Segments(s)
  {
    SegmentsJoin(s, "");
    assert s + "/" + "" == s + "/";
    assert Segments("") == [];
  }

  lemma SpelledThen(front: seq<string>, seg: string)
    requires Segments(Spelled(front)) == front && Segments(seg) == [seg]
    requires Spelled(front) != [] && Spelled(front)[|Spelled(front)| - 1] == '/'
    ensures Segments(Spelled(front) + seg) == front + [seg]
  {
    var s := Spelled(front);
    var t := s[..|s| - 1];
    SegmentsJoin(t, seg);
    SegmentsJoin(t, "");
    assert t + "/" + "" == s && t + "/" + seg == s + seg;
    assert Segments("") == [];
  }

  /** The stack never holds an empty, "." or ".." component. */
  lemma {:induction false} FoldOrdinary(st: seq<string>, segs: seq<string>)
    requires AllOrdinary(st) && Fold(st, segs).Some?
    requires forall i :: 0 <= i < |segs| ==> segs[i] != [] && '/' !in segs[i]
    ensures AllOrdinary(Fold(st, segs).value)
    decreases |segs|
  {
    if segs != [] {
      var st' := Push(st, segs[0]).value;
      assert AllOrdinary(st');
      FoldOrdinary(st', segs[1..]);
    }
  }

  lemma {:induction false} FoldKeepsOrdinary(st: seq<string>, segs: seq<string>)
    requires AllOrdinary(segs) && |st| + |segs| <= DEPTH
    ensures Fold(st, segs) == Some(st + segs)
    decreases |segs|
  {
    if segs == [] {
      assert st + segs == st;
    } else {
      assert Ordinary(segs[0]);
      FoldKeepsOrdinary(st + [segs[0]], segs[1..]);
      assert st + [segs[0]] + segs[1..] == st + segs;
    }
  }

  lemma {:induction false} FoldDepth(st: seq<string>, segs: seq<string>)
    requires |st| <= DEPTH && Fold(st, segs).Some?
    ensures |Fold(st, segs).value| <= DEPTH
    decreases |segs|
  {
    if segs != [] { FoldDepth(Push(st, segs[0]).value, segs[1..]); }
  }

  // ---- what normalising promises ------------------------------------------------------------

  /** The result is absolute and has no empty, "." or ".." component. */
  lemma NormalForm(path: string, cap: int)
    requires Normal(path, cap).Some?
    ensures var q := Normal(path, cap).value;
            q != [] && q[0] == '/' && |q| < cap && AllOrdinary(Segments(q)) && q == Render(Segments(q))
            && Fold([], Segments(path)) == Some(Segments(q))
  {
    var st := Fold([], Segments(path)).value;
    SegmentsAre(path);
    FoldOrdinary([], Segments(path));
    SegmentsSpelled(st);
    RenderStart(st);
  }

  lemma {:induction false} SpelledStart(st: seq<string>)
    ensures Spelled(st) != [] && Spelled(st)[0] == '/'
  {
    if st != [] { SpelledStart(st[..|st| - 1]); }
  }

  lemma RenderStart(st: seq<string>)
    ensures Render(st) != [] && Render(st)[0] == '/' && (st != [] ==> |Render(st)| + 1 == |Spelled(st)|)
  {
    if st != [] { SpelledStart(st[..|st| - 1]); }
  }

  /** Normalising twice is normalising once, exactly when the result fits the work buffer. */
  lemma Idempotent(path: string, cap: int)
    requires Normal(path, cap).Some?
    ensures var q := Normal(path, cap).value; Normal(q, cap) == Some(q) <==> |q| < BUF
  {
    var q := Normal(path, cap).value;
    NormalForm(path, cap);
    FoldDepth([], Segments(path));
    FoldKeepsOrdinary([], Segments(q));
    assert [] + Segments(q) == Segments(q);
  }

  /** Going down and up again leads back. */
  lemma DownUp(nodes: Nodes, root: int, nextIno: int, files: Files, temps: multiset<int>, cur: int, seg: string)
    requires Inv(nodes, root, nextIno, files, temps) && cur in nodes && Linked(nodes, root, cur) && Ordinary(seg)
    requires Step(nodes, cur, seg).Ok?
    ensures var c := Step(nodes, cur, seg).id; c in nodes && Step(nodes, c, "..") == Ok(cur)
  {
    var c := Step(nodes, cur, seg).id;
    assert DirOk(nodes, root, cur);
    assert ChildOk(nodes, root, cur, c);
  }

  /** Reducing one component does not change where a successful walk ends. */
  lemma PushKeepsWalk(nodes: Nodes, root: int, nextIno: int, files: Files, temps: multiset<int>,
                      st: seq<string>, seg: string, rest: seq<string>)
    requires Inv(nodes, root, nextIno, files, temps) && AllOrdinary(st) && Push(st, seg).Some?
    requires Walk(nodes, root, st + [seg] + rest).Ok?
    ensures Walk(nodes, root, Push(st, seg).value + rest) == Walk(nodes, root, st + [seg] + rest)
  {
    var st' := Push(st, seg).value;
    WalkConcat(nodes, root, st + [seg], rest);
    WalkConcat(nodes, root, st, [seg]);
    WalkConcat(nodes, root, st', rest);
    WalkLinked(nodes, root, nextIno, files, temps, root, st);
    var u := Walk(nodes, root, st).id;
    StepLinked(nodes, root, nextIno, files, temps, u, seg);
    assert Walk(nodes, u, [seg]) == Step(nodes, u, seg) by { assert [seg][1..] == []; }
    if seg == ".." && st != [] {
      var front, last := st[..|st| - 1], st[|st| - 1];
      assert st == front + [last];
      WalkConcat(nodes, root, front, [last]);
      WalkLinked(nodes, root, nextIno, files, temps, root, front);
      var v := Walk(nodes, root, front).id;
      StepLinked(nodes, root, nextIno, files, temps, v, last);
      assert Walk(nodes, v, [last]) == Step(nodes, v, last) by { assert [last][1..] == []; }
      DownUp(nodes, root, nextIno, files, temps, v, last);
    }
  }

  lemma {:induction false} FoldKeepsWalk(nodes: Nodes, root: int, nextIno: int, files: Files, temps: multiset<int>,
                                         st: seq<string>, segs: seq<string>)
    requires Inv(nodes, root, nextIno, files, temps) && AllOrdinary(st) && Fold(st, segs).Some?
    requires forall i :: 0 <= i < |segs| ==> segs[i] != [] && '/' !in segs[i]
    requires Walk(nodes, root, st + segs).Ok?
    ensures Walk(nodes, root, Fold(st, segs).value) == Walk(nodes, root, st + segs)
    decreases |segs|
  {
    if segs == [] {
      assert st + segs == st;
    } else {
      var st' := Push(st, segs[0]).value;
      assert st + segs == st + [segs[0]] + segs[1..];
      PushKeepsWalk(nodes, root, nextIno, files, temps, st, segs[0], segs[1..]);
      FoldKeepsWalk(nodes, root, nextIno, files, temps, st', segs[1..]);
    }
  }

  /** Normalising preserves meaning: whatever node the server finds under the path as typed, it
      finds under the normalised one. */
  lemma MeaningPreserved(nodes: Nodes, root: int, nextIno: int, files: Files, temps: multiset<int>, path: string,
                         cap: int)
    requires Inv(nodes, root, nextIno, files, temps)
    requires Walk(nodes, root, Segments(path)).Ok? && Normal(path, cap).Some?
    ensures Resolve(nodes, root, Normal(path, cap).value) == Walk(nodes, root, Segments(path))
  {
    NormalForm(path, cap);
    SegmentsAre(path);
    assert [] + Segments(path) == Segments(path);
    FoldKeepsWalk(nodes, root, nextIno, files, temps, [], Segments(path));
  }

  /** Every directory the normaliser's stack passes through, from `st` on, resolves. */
  ghost predicate AllResolve(nodes: Nodes, root: int, st: seq<string>, segs: seq<string>)
    decreases |segs|
  {
    && Walk(nodes, root, st).Ok?
    && (segs == []
        || (Push(st, segs[0]).Some? && AllResolve(nodes, root, Push(st, segs[0]).value, segs[1..])))
  }

  /** Where the stack resolves before and after a component, the component leads from one to the other. */
  lemma PushIsStep(nodes: Nodes, root: int, nextIno: int, files: Files, temps: multiset<int>, st: seq<string>,
                   seg: string)
    requires Inv(nodes, root, nextIno, files, temps) && AllOrdinary(st) && Push(st, seg).Some?
    requires Walk(nodes, root, st).Ok? && Walk(nodes, root, Push(st, seg).value).Ok?
    ensures Walk(nodes, root, st + [seg]) == Walk(nodes, root, Push(st, seg).value)
  {
    WalkConcat(nodes, root, st, [seg]);
    WalkLinked(nodes, root, nextIno, files, temps, root, st);
    var u := Walk(nodes, root, st).id;
    StepLinked(nodes, root, nextIno, files, temps, u, seg);
    assert Walk(nodes, u, [seg]) == Step(nodes, u, seg) by { assert [seg][1..] == []; }
    if seg == ".." && st != [] {
      var front, last := st[..|st| - 1], st[|st| - 1];
      assert st == front + [last];
      WalkConcat(nodes, root, front, [last]);
      WalkLinked(nodes, root, nextIno, files, temps, root, front);
      var v := Walk(nodes, root, front).id;
      StepLinked(nodes, root, nextIno, files, temps, v, last);
      assert Walk(nodes, v, [last]) == Step(nodes, v, last) by { assert [last][1..] == []; }
      DownUp(nodes, root, nextIno, files, temps, v, last);
    }
  }

  lemma {:induction false} AllResolveIff(nodes: Nodes, root: int, nextIno: int, files: Files, temps: multiset<int>,
                                         st: seq<string>, segs: seq<string>)
    requires Inv(nodes, root, nextIno, files, temps) && AllOrdinary(st) && Fold(st, segs).Some?
    requires forall i :: 0 <= i < |segs| ==> segs[i] != [] && '/' !in segs[i]
    ensures AllResolve(nodes, root, st, segs) <==> Walk(nodes, root, st + segs).Ok?
    decreases |segs|
  {
    WalkConcat(nodes, root, st, segs);
    if segs == [] {
      assert st + segs == st;
    } else {
      var seg, rest, st' := segs[0], segs[1..], Push(st, segs[0]).value;
      assert st + segs == st + [seg] + rest;
      AllResolveIff(nodes, root, nextIno, files, temps, st', rest);
      WalkConcat(nodes, root, st', rest);
      WalkConcat(nodes, root, st + [seg], rest);
      if Walk(nodes, root, st + segs).Ok? {
        PushKeepsWalk(nodes, root, nextIno, files, temps, st, seg, rest);
      } else if AllResolve(nodes, root, st, segs) {
        PushIsStep(nodes, root, nextIno, files, temps, st, seg);
      }
    }
  }

  /** The converse of MeaningPreserved holds exactly then: the path as typed resolves if and only if
      every directory that the normaliser's stack passes through resolves. */
  lemma TypedResolvesIff(nodes: Nodes, root: int, nextIno: int, files: Files, temps: multiset<int>, path: string,
                         cap: int)
    requires Inv(nodes, root, nextIno, files, temps) && Normal(path, cap).Some?
    ensures Walk(nodes, root, Segments(path)).Ok? <==> AllResolve(nodes, root, [], Segments(path))
    ensures Resolve(nodes, root, Normal(path, cap).value).Ok? ==>
              (Walk(nodes, root, Segments(path)) == Resolve(nodes, root, Normal(path, cap).value)
               <==> AllResolve(nodes, root, [], Segments(path)))
  {
    SegmentsAre(path);
    assert [] + Segments(path) == Segments(path);
    AllResolveIff(nodes, root, nextIno, files, temps, [], Segments(path));
    if Walk(nodes, root, Segments(path)).Ok? {
      MeaningPreserved(nodes, root, nextIno, files, temps, path, cap);
    }
  }

  /** Not the other way round: "/a/.." normalises to "/" even where there is no "a". */
  lemma MayResolveMore()
    ensures var nodes: Nodes := map[7 := Node(1, true, 7, 1, "", [], [])];
            Normal("/a/..", 256) == Some("/") && Resolve(nodes, 7, "/") == Ok(7)
                && Resolve(nodes, 7, "/a/..") == Err(ENOENT)
  {
    var nodes: Nodes := map[7 := Node(1, true, 7, 1, "", [], [])];
    SampleSegments();
    var segs := ["a", ".."];
    assert segs[1..] == [".."] && segs[1..][1..] == [];
    assert Fold([], segs) == Fold(["a"], [".."]) == Some([]);
    assert "/"[1..] == "";
  }

  lemma SampleSegments()
    ensures Segments("/a/..") == ["a", ".."]
  {
    OneSegment("a");
    OneSegment("..");
    SegmentsJoin("", "a");
    SegmentsJoin("" + "/" + "a", "..");
    assert "/a/.." == "" + "/" + "a" + "/" + "..";
    assert Segments("") == [];
  }

  /** The working directory in front of a relative path. */
  function Absolute(cwd: string, rel: string): string {
    if rel != [] && rel[0] == '/' then rel
    else if cwd == [] || cwd[|cwd| - 1] != '/' then cwd + "/" + rel
    else cwd + rel
  }

  lemma AbsoluteSegments(cwd: string, rel: string)
    requires rel == [] || rel[0] != '/'
    ensures Segments(Absolute(cwd, rel)) == Segments(cwd) + Segments(rel)
  {
    if cwd == [] || cwd[|cwd| - 1] != '/' {
      SegmentsJoin(cwd, rel);
    } else {
      SlashEnd(cwd[..|cwd| - 1], rel);
      assert cwd[..|cwd| - 1] + "/" == cwd;
    }
  }

  lemma SlashEnd(c: string, rel: string)
    ensures Segments((c + "/") + rel) == Segments(c + "/") + Segments(rel)
  {
    SegmentsJoin(c, rel);
    SegmentsJoin(c, "");
    assert c + "/" + "" == c + "/";
    assert Segments("") == [];
  }

  /** A relative path means what it means from the working directory. */
  lemma AbsoluteMeans(nodes: Nodes, root: int, cwd: string, rel: string)
    requires (rel == [] || rel[0] != '/') && Walk(nodes, root, Segments(cwd)).Ok?
    ensures Walk(nodes, root, Segments(Absolute(cwd, rel)))
            == Walk(nodes, Walk(nodes, root, Segments(cwd)).id, Segments(rel))
  {
    AbsoluteSegments(cwd, rel);
    WalkConcat(nodes, root, Segments(cwd), Segments(rel));
  }

  // ---- the code -------------------------------------------------------------------------------

  const NUL: char := '\0'

  /** The C string at `s` in the buffer. */
  ghost predicate StringAt(buf: seq<char>, s: int, seg: string) {
    && 0 <= s && s + |seg| < |buf| && buf[s + |seg|] == NUL
    && forall k :: 0 <= k < |seg| ==> seg[k] == buf[s + k] && seg[k] != NUL
  }

  /** The entries of the pointer stack are the components of `st`, all ending before `limit`. */
  ghost predicate StackIs(buf: seq<char>, stack: seq<int>, st: seq<string>, limit: int) {
    && |st| <= |stack|
    && forall i :: 0 <= i < |st| ==> StringAt(buf, stack[i], st[i]) && stack[i] + |st[i]| <= limit
  }

  /** Cutting the buffer at or after the limit leaves the stacked components alone. */
  lemma CutKeepsStack(buf: seq<char>, stack: seq<int>, st: seq<string>, limit: int, at: int)
    requires StackIs(buf, stack, st, limit) && limit <= at && 0 <= at < |buf|
    ensures StackIs(buf[at := NUL], stack, st, limit)
  {
    var buf' := buf[at := NUL];
    forall i | 0 <= i < |st|
      ensures StringAt(buf', stack[i], st[i]) && stack[i] + |st[i]| <= limit
    {
      assert StringAt(buf, stack[i], st[i]);
    }
  }

  /** strlen */
  method StrLen(buf: array<char>, s: int, ghost seg: string) returns (n: int)
    requires StringAt(buf[..], s, seg)
    ensures n == |seg|
  {
    n := 0;
    while buf[s + n] != NUL
      invariant 0 <= n <= |seg| && (n < |seg| ==> seg[n] == buf[s + n] != NUL)
      decreases |seg| - n
    {
      n := n + 1;
    }
  }

  /** The end of the component that starts at `p`. */
  method ScanTo(buf: array<char>, p: int, ghost rest: string) returns (q: int)
    requires StringAt(buf[..], p, rest)
    ensures q == p + SegLen(rest) && q < buf.Length
  {
    q := p;
    assert rest[0..] == rest;
    while buf[q] != NUL && buf[q] != '/'
      invariant p <= q <= p + |rest| && SegLen(rest) == q - p + SegLen(rest[q - p..])
      decreases p + |rest| - q
    {
      assert rest[q - p] == buf[q];
      assert rest[q - p..][1..] == rest[q + 1 - p..];
      q := q + 1;
    }
    assert q < p + |rest| ==> rest[q - p] == buf[q];
  }

  method SkipTo(buf: array<char>, p: int, ghost rest: string) returns (q: int)
    requires StringAt(buf[..], p, rest)
    ensures p <= q <= p + |rest| && StringAt(buf[..], q, rest[q - p..])
    ensures Segments(rest[q - p..]) == Segments(rest) && (rest[q - p..] == [] || rest[q - p] != '/')
  {
    q := p;
    assert rest[0..] == rest;
    while buf[q] == '/'
      invariant p <= q <= p + |rest| && Segments(rest[q - p..]) == Segments(rest)
      decreases p + |rest| - q
    {
      assert rest[q - p] == buf[q];
      assert rest[q - p..][1..] == rest[q + 1 - p..];
      q := q + 1;
    }
    assert q < p + |rest| ==> rest[q - p] == buf[q];
  }

  /** Cut the component at `start` out of the buffer: a NUL replaces the slash behind it. */
  method CutSegment(buf: array<char>, start: int, ghost rest: string) returns (p: int, name: string)
    requires StringAt(buf[..], start, rest) && rest != [] && rest[0] != '/'
    modifies buf
    ensures start < p <= start + |rest| && start + |name| <= p
    ensures Segments(rest) == [name] + Segments(rest[p - start..])
    ensures StringAt(buf[..], start, name) && StringAt(buf[..], p, rest[p - start..])
    ensures forall k :: 0 <= k < start + |name| ==> buf[k] == old(buf[k])
    ensures start + |name| < buf.Length && buf[..] == old(buf[..])[start + |name| := NUL]
  {
    var e := ScanTo(buf, start, rest);
    name := buf[start..e];
    FirstSegment(rest);
    assert name == rest[..SegLen(rest)];
    CutStrings(buf[..], start, rest, SegLen(rest));
    if buf[e] != NUL {
      buf[e] := NUL;
      p := e + 1;
    } else {
      assert buf[..] == buf[..][e := NUL];
      p := e;
    }
  }

  /** A NUL in place of the slash makes two strings of one. */
  lemma CutStrings(buf: seq<char>, start: int, rest: string, n: int)
    requires StringAt(buf, start, rest) && 0 <= n <= |rest|
    ensures StringAt(buf[start + n := NUL], start, rest[..n])
    ensures n < |rest| ==>
            StringAt(buf[start + n := NUL], start + n + 1, rest[n + 1..])
            && buf[start + n] == rest[n] != NUL
    ensures n == |rest| ==> buf[start + n] == NUL
  {
    if n < |rest| {
      var t, b := rest[n + 1..], buf[start + n := NUL];
      forall k | 0 <= k < |t|
        ensures t[k] == b[start + n + 1 + k] && t[k] != NUL
      {
        assert t[k] == rest[n + 1 + k];
      }
    }
  }

  lemma FirstSegment(rest: string)
    requires rest != [] && rest[0] != '/'
    ensures var n := SegLen(rest);
            && n > 0 && Segments(rest) == [rest[..n]] + Segments(rest[n..])
            && (n < |rest| ==> Segments(rest) == [rest[..n]] + Segments(rest[n + 1..]))
  {
    var n := SegLen(rest);
    if n < |rest| { assert rest[n..][1..] == rest[n + 1..]; }
  }

  /** One component: cut it out of the buffer and push it, pop for "..", skip ".". */
  method Take(buf: array<char>, stack: array<int>, start: int, d0: int, ghost st0: seq<string>, ghost rest: string)
    returns (ok: bool, p: int, depth: int, ghost st: seq<string>)
    requires StringAt(buf[..], start, rest) && rest != [] && rest[0] != '/' && stack.Length == DEPTH
    requires d0 == |st0| <= DEPTH && StackIs(buf[..], stack[..], st0, start)
    modifies buf, stack
    ensures start < p <= start + |rest| && StringAt(buf[..], p, rest[p - start..])
    ensures !ok ==> Fold(st0, Segments(rest)).None?
    ensures ok ==> Fold(st0, Segments(rest)) == Fold(st, Segments(rest[p - start..]))
    ensures ok ==> depth == |st| <= DEPTH && StackIs(buf[..], stack[..], st, p)
  {
    ghost var b0 := buf[..];
    var name;
    p, name := CutSegment(buf, start, rest);
    CutKeepsStack(b0, stack[..], st0, start, start + |name|);
    FoldFirst(st0, name, rest[p - start..], Segments(rest));
    ok, depth, st := true, d0, st0;
    if name == "." {
      return;
    }
    if name == ".." {
      if depth > 0 {
        depth, st := depth - 1, st0[..depth - 1];
      }
      return;
    }
    if depth >= DEPTH {
      ok := false;
      return;
    }
    stack[depth] := start;
    depth, st := depth + 1, st0 + [name];
  }

  /** The parsing loop of normalize_path: pointers to the surviving components, at most 32. */
  method Collect(inp: string, buf: array<char>, stack: array<int>) returns (ok: bool, depth: int, ghost st: seq<string>)
    requires StringAt(buf[..], 0, inp) && stack.Length == DEPTH
    modifies buf, stack
    ensures Fold([], Segments(inp)) == if ok then Some(st) else None
    ensures ok ==> depth == |st| && StackIs(buf[..], stack[..], st, |inp|)
  {
    var p := 0;
    depth, st := 0, [];
    assert inp[0..] == inp;
    while buf[p] != NUL
      invariant 0 <= p <= |inp| && StringAt(buf[..], p, inp[p..]) && buf.Length > |inp|
      invariant depth == |st| <= DEPTH && StackIs(buf[..], stack[..], st, p)
      invariant Fold([], Segments(inp)) == Fold(st, Segments(inp[p..]))
      decreases |inp| - p
    {
      var start := SkipTo(buf, p, inp[p..]);
      assert inp[p..][start - p..] == inp[start..];
      if buf[start] == NUL {
        p := start;
        break;
      }
      ghost var rest := inp[start..];
      assert rest != [] && rest[0] == buf[start];
      ok, p, depth, st := Take(buf, stack, start, depth, st, rest);
      assert rest[p - start..] == inp[p..];
      if !ok {
        return;
      }
    }
    EndOfString(buf[..], p, inp[p..]);
    ok := true;
  }

  lemma EndOfString(buf: seq<char>, p: int, rest: string)
    requires StringAt(buf, p, rest)
    ensures rest == [] <==> buf[p] == NUL
  {
    if rest != [] { assert rest[0] == buf[p + 0]; }
  }

  lemma FoldFirst(st: seq<string>, name: string, rest: string, segs: seq<string>)
    requires segs == [name] + Segments(rest)
    ensures Fold(st, segs) == if Push(st, name).None? then None else Fold(Push(st, name).value, Segments(rest))
  {
    assert segs[0] == name && segs[1..] == Segments(rest);
  }

  /** The output loop: each component behind the last slash, as long as it fits. */
  method Emit(buf: array<char>, stack: array<int>, depth: int, outv: array<char>, cap: int, ghost st: seq<string>)
    returns (ok: bool, o: int)
    requires StackIs(buf[..], stack[..], st, buf.Length) && depth == |st| && 2 <= cap <= outv.Length && outv != buf
    modifies outv
    ensures ok <==> st == [] || |Spelled(st)| < cap
    ensures ok ==> 0 < o < cap && outv[..o] == Render(st) && outv[o] == NUL
  {
    outv[0] := '/';
    o := 1;
    var i := 0;
    while i < depth
      invariant 0 <= i <= depth && 1 <= o < cap && outv[..o] == Spelled(st[..i])
      invariant StackIs(buf[..], stack[..], st, buf.Length)
    {
      assert StringAt(buf[..], stack[i], st[i]);
      var sl := StrLen(buf, stack[i], st[i]);
      SpelledNext(st, i);
      if o + sl + 1 >= cap {
        SpelledGrows(st, i + 1);
        return false, o;
      }
      Append(buf, stack[i], sl, outv, o, st[i]);
      o := o + sl + 1;
      i := i + 1;
    }
    assert st[..depth] == st;
    if o > 1 {
      o := o - 1;
      LastSlash(st);
      assert outv[..o] == outv[..o + 1][..o];
    }
    outv[o] := NUL;
    ok := true;
  }

  lemma SpelledNext(st: seq<string>, i: int)
    requires 0 <= i < |st|
    ensures Spelled(st[..i + 1]) == Spelled(st[..i]) + st[i] + "/"
  {
    assert st[..i + 1][..i] == st[..i];
  }

  lemma {:induction false} SpelledGrows(st: seq<string>, i: int)
    requires 0 <= i <= |st|
    ensures |Spelled(st)| >= |Spelled(st[..i])|
    decreases |st| - i
  {
    if i < |st| {
      SpelledNext(st, i);
      SpelledGrows(st, i + 1);
    } else {
      assert st[..i] == st;
    }
  }

  lemma LastSlash(st: seq<string>)
    ensures Spelled(st) == if st == [] then "/" else Render(st) + "/"
  {
  }

  /** memcpy of one component, and a slash. */
  method Append(buf: array<char>, s: int, n: int, outv: array<char>, o: int, ghost seg: string)
    requires StringAt(buf[..], s, seg) && n == |seg| && 0 <= o && o + n + 1 < outv.Length && outv != buf
    modifies outv
    ensures outv[..o + n + 1] == old(outv[..o]) + seg + "/"
  {
    var k := 0;
    while k < n
      invariant 0 <= k <= n && outv[..o] == old(outv[..o])
      invariant forall j :: 0 <= j < k ==> outv[o + j] == seg[j]
    {
      assert seg[k] == buf[s + k];
      outv[o + k] := buf[s + k];
      k := k + 1;
    }
    outv[o + n] := '/';
  }

  /** normalize_path */
  method Normalize(inp: string, outv: array<char>, cap: int) returns (ok: bool, o: int)
    requires NUL !in inp && 0 <= cap <= outv.Length
    modifies outv
    ensures ok <==> Normal(inp, cap).Some?
    ensures ok ==> 0 < o < cap && outv[..o] == Normal(inp, cap).value && outv[o] == NUL
  {
    if |inp| >= BUF {
      return false, 0;
    }
    var buf := new char[BUF](i requires 0 <= i < BUF => if 0 <= i < |inp| then inp[i] else NUL);
    var stack := new int[DEPTH](_ => 0);
    var depth;
    ghost var st;
    ok, depth, st := Collect(inp, buf, stack);
    if !ok || cap < 2 {
      return false, 0;
    }
    ok, o := Emit(buf, stack, depth, outv, cap, st);
  }

  /** resolve_path */
  method ResolvePath(cwd: string, rel: string, outv: array<char>, cap: int) returns (ok: bool, o: int)
    requires NUL !in cwd && NUL !in rel && 0 <= cap <= outv.Length
    modifies outv
    ensures ok <==>
            (if rel != [] && rel[0] == '/' then |rel| else |cwd| + 1 + |rel|) < BUF
            && Normal(Absolute(cwd, rel), cap).Some?
    ensures ok ==> 0 < o < cap && outv[..o] == Normal(Absolute(cwd, rel), cap).value && outv[o] == NUL
  {
    var tmp;
    if rel != [] && rel[0] == '/' {
      if |rel| >= BUF {
        return false, 0;
      }
      tmp := rel;
    } else {
      if |cwd| + 1 + |rel| >= BUF {
        return false, 0;
      }
      tmp := cwd;
      if |cwd| == 0 || tmp[|cwd| - 1] != '/' {
        tmp := tmp + "/";
      }
      tmp := tmp + rel;
    }
    ok, o := Normalize(tmp, outv, cap);
  }
}
