/** The shell's path normaliser said from the other end: which components survive, and when it fails. */
module PathLaws {
  import opened Basics
  import opened PathWalk
  import opened Paths

  /** What survives of the components, read backwards: a ".." takes out the nearest component before it
      that is not taken out already; `skip` of them are pending. */
  function Survivors(segs: seq<string>, skip: nat): seq<string>
    decreases |segs|
  {
    if segs == [] then []
    else
      var last, init := segs[|segs| - 1], segs[..|segs| - 1];
      if last == "." then Survivors(init, skip)
      else if last == ".." then Survivors(init, skip + 1)
      else if skip > 0 then Survivors(init, skip - 1)
      else Survivors(init, 0) + [last]
  }

  /** The components with a slash in front of each. */
  function Joined(st: seq<string>): string {
    if st == [] then "" else "/" + st[0] + Joined(st[1..])
  }

  lemma {:induction false} SkipDrops(segs: seq<string>, skip: nat)
    ensures var s := Survivors(segs, 0);
            Survivors(segs, skip) == s[..if |s| < skip then 0 else |s| - skip]
    decreases |segs|
  {
    if segs != [] {
      var last, init := segs[|segs| - 1], segs[..|segs| - 1];
      if last == "." {
        SkipDrops(init, skip);
      } else if last == ".." {
        SkipDrops(init, skip + 1);
        SkipDrops(init, 1);
      } else if skip > 0 {
        SkipDrops(init, skip - 1);
        var s := Survivors(init, 0);
        assert |s| >= skip ==> (s + [last])[..|s| + 1 - skip] == s[..|s| + 1 - skip];
      }
    }
  }

  lemma {:induction false} FoldLast(st: seq<string>, a: seq<string>, seg: string)
    ensures Fold(st, a + [seg]) == var r := Fold(st, a); if r.None? then None else Push(r.value, seg)
    decreases |a|
  {
    if a == [] {
      assert [] + [seg] == [seg] && [seg][1..] == [];
    } else {
      assert (a + [seg])[1..] == a[1..] + [seg];
      var r := Push(st, a[0]);
      if r.Some? { FoldLast(r.value, a[1..], seg); }
    }
  }

  /** At no point are there more than 32 components on the stack. */
  ghost predicate Shallow(segs: seq<string>) {
    forall k :: 0 <= k <= |segs| ==> |Survivors(segs[..k], 0)| <= 32
  }

  lemma PushSurvives(init: seq<string>, last: string)
    requires |Survivors(init, 0)| <= 32
    ensures var s := Survivors(init + [last], 0);
            Push(Survivors(init, 0), last) == if |s| <= 32 then Some(s) else None
  {
    assert (init + [last])[..|init|] == init;
    SkipDrops(init, 1);
  }

  lemma ShallowLast(init: seq<string>, last: string)
    ensures Shallow(init + [last]) <==> Shallow(init) && |Survivors(init + [last], 0)| <= 32
  {
    var segs := init + [last];
    assert segs[..|segs|] == segs && init[..|init|] == init;
    assert forall k :: 0 <= k <= |init| ==> segs[..k] == init[..k];
  }

  lemma {:induction false} FoldIs(segs: seq<string>)
    ensures Fold([], segs) == if Shallow(segs) then Some(Survivors(segs, 0)) else None
    decreases |segs|
  {
    if segs != [] {
      var last, init := segs[|segs| - 1], segs[..|segs| - 1];
      assert init + [last] == segs;
      FoldIs(init);
      FoldLast([], init, last);
      ShallowLast(init, last);
      if Shallow(init) {
        assert init[..|init|] == init;
        PushSurvives(init, last);
      }
    }
  }

  lemma {:induction false} RenderIs(st: seq<string>)
    ensures Spelled(st) == Joined(st) + "/"
    ensures st != [] ==> Render(st) == Joined(st)
    decreases |st|
  {
    if st != [] {
      var last, init := st[|st| - 1], st[..|st| - 1];
      RenderIs(init);
      JoinedLast(init, last);
      assert init + [last] == st;
    }
  }

  lemma {:induction false} JoinedLast(init: seq<string>, last: string)
    ensures Joined(init + [last]) == Joined(init) + "/" + last
    decreases |init|
  {
    if init == [] {
      assert [] + [last] == [last] && [last][1..] == [];
    } else {
      assert (init + [last])[1..] == init[1..] + [last];
      JoinedLast(init[1..], last);
    }
  }

  /** An absolute path is taken as it is, whatever the working directory. */
  lemma AbsoluteStays(cwd: string, rel: string)
    requires rel != [] && rel[0] == '/'
    ensures Absolute(cwd, rel) == rel
  {
  }

  /** normalize_path answers the surviving components, each behind a slash, or the root; it fails exactly
      when the path is too long, the nesting too deep or the result does not fit. */
  lemma NormalMeans(path: string, cap: int)
    ensures var st := Survivors(Segments(path), 0);
            Normal(path, cap)
            == if |path| >= 512 || !Shallow(Segments(path)) || cap < 2 || (st != [] && |Joined(st)| + 1 >= cap)
               then None else Some(if st == [] then "/" else Joined(st))
  {
    FoldIs(Segments(path));
    RenderIs(Survivors(Segments(path), 0));
  }
}
