/** The path laws of urlnorm/urlnorm.go in the order Canonicalize applies them. */
module UrlCanon {
  import opened UrlPath
  import opened UrlDots

  /** The path of a canonical URL. */
  function Canonical(path: Text): Text {
    DotsRemoved(Collapsed(Stripped(Reencoded(path, IsPathByte))))
  }

  method CanonicalPath(escaped: Text) returns (path: Text)
    ensures path == Canonical(if escaped == [] then [SLASH] else escaped)
  {
    path := if escaped == [] then [SLASH] else escaped;
    path := Reencode(path, IsPathByte);
    path := StripSessionSegments(path);
    path := CollapseSlashes(path);
    path := RemoveDotSegments(path);
  }

  // ----- collapsing keeps segments -----

  lemma {:induction false} CollapsedNoDouble(s: Text)
    ensures NoDouble(Collapsed(s))
    ensures s != [] ==> Collapsed(s) != [] && Collapsed(s)[0] == s[0]
  {
    if |s| >= 2 {
      CollapsedNoDouble(s[1..]);
    }
  }

  lemma {:induction false} NoDoubleFixed(s: Text)
    requires NoDouble(s)
    ensures Collapsed(s) == s
  {
    if |s| >= 2 {
      assert !(s[0] == SLASH && s[0 + 1] == SLASH);
      forall i | 0 <= i < |s[1..]| - 1 ensures !(s[1..][i] == SLASH && s[1..][i + 1] == SLASH) {
        assert s[1..][i] == s[i + 1] && s[1..][i + 1] == s[i + 2];
      }
      NoDoubleFixed(s[1..]);
      assert s == [s[0]] + s[1..];
    }
  }

  /** Collapsing only ever drops empty segments. */
  lemma {:induction false} CollapsedKeepsSegments(s: Text)
    ensures Split(Collapsed(s))[0] == Split(s)[0]
    ensures forall x :: x in Split(Collapsed(s))[1..] ==> x in Split(s)[1..]
  {
    if |s| >= 2 {
      var t := s[1..];
      CollapsedKeepsSegments(t);
      var q, r := Split(t), Split(Collapsed(t));
      if s[0] == SLASH && s[1] == SLASH {
        assert Split(s)[1..] == q;
        assert q == [q[0]] + q[1..];
      } else {
        var c := Collapsed(s);
        assert c == [s[0]] + Collapsed(t) && c[1..] == Collapsed(t);
        if s[0] == SLASH {
          assert Split(s)[1..] == q && Split(c)[1..] == r;
          assert q == [q[0]] + q[1..] && r == [r[0]] + r[1..];
        } else {
          assert Split(s)[1..] == q[1..] && Split(c)[1..] == r[1..];
        }
      }
    }
  }

  // ----- what holds of a path holds of its segments, and back -----

  ghost predicate AllNorm(segs: seq<Text>) {
    forall x :: x in segs ==> Norm(x, IsPathByte)
  }

  ghost predicate AllClean(segs: seq<Text>) {
    forall x :: x in segs ==> Clean(x)
  }

  lemma FirstSegment(s: Text) returns (k: nat)
    ensures k <= |s| && Segment(s[..k]) && (k < |s| ==> s[k] == SLASH)
    ensures k == |s| ==> Split(s) == [s]
    ensures k < |s| ==> s == s[..k] + [SLASH] + s[k + 1..] && Split(s) == [s[..k]] + Split(s[k + 1..])
  {
    k := 0;
    while k < |s| && s[k] != SLASH
      invariant k <= |s| && Segment(s[..k])
    {
      assert s[..k + 1] == s[..k] + [s[k]];
      k := k + 1;
    }
    if k == |s| {
      assert s[..k] == s;
      SplitAt(s, []);
    } else {
      assert s == s[..k] + [SLASH] + s[k + 1..];
      SplitAt(s[..k], s[k + 1..]);
    }
  }

  lemma {:induction false} NormSegments(s: Text)
    requires Norm(s, IsPathByte)
    ensures AllNorm(Split(s))
    decreases |s|
  {
    var k := FirstSegment(s);
    if k < |s| {
      NormCut(s, k, IsPathByte);
      assert s[k..][1..] == s[k + 1..];
      NormSegments(s[k + 1..]);
    }
  }

  lemma {:induction false} SegmentsNorm(segs: seq<Text>)
    requires AllNorm(segs)
    ensures Norm(Slashed(segs), IsPathByte)
  {
    if segs != [] {
      SegmentsNorm(segs[1..]);
      NormConcat(segs[0], Slashed(segs[1..]), IsPathByte);
      Join3([SLASH], segs[0], Slashed(segs[1..]));
      assert Slashed(segs)[1..] == segs[0] + Slashed(segs[1..]);
    }
  }

  lemma SessionShift(a: Text, b: Text, c: Text, i: nat)
    requires i + 12 <= |b|
    ensures SessionAt(a + b + c, |a| + i) == SessionAt(b, i)
  {
    var s := a + b + c;
    assert forall j :: 0 <= j < 12 ==> ((Lower(s[|a| + i + j]) == SESSION[j]) <==> (Lower(b[i + j]) == SESSION[j]));
  }

  lemma CleanPart(a: Text, b: Text, c: Text)
    requires Clean(a + b + c)
    ensures Clean(b)
  {
    forall i: nat ensures !SessionAt(b, i) {
      if i + 12 <= |b| {
        SessionShift(a, b, c, i);
      }
    }
  }

  lemma {:induction false} CleanSegments(s: Text)
    requires Clean(s)
    ensures AllClean(Split(s))
    decreases |s|
  {
    var k := FirstSegment(s);
    if k < |s| {
      var tail := s[k + 1..];
      assert s == [] + s[..k] + ([SLASH] + tail);
      CleanPart([], s[..k], [SLASH] + tail);
      assert s == (s[..k] + [SLASH]) + tail + [];
      CleanPart(s[..k] + [SLASH], tail, []);
      CleanSegments(tail);
    }
  }

  lemma NoneAcross(a: Text, b: Text, i: nat)
    requires i <= |a| < i + 12
    ensures !SessionAt(a + [SLASH] + b, i)
  {
    var k := |a| - i;
    assert SESSION[k] != SLASH;
    assert (a + [SLASH] + b)[i + k] == SLASH;
  }

  /** A session segment has no slash in it, so it cannot lie across one. */
  lemma CleanAcross(a: Text, b: Text)
    requires Clean(a) && Clean(b)
    ensures Clean(a + [SLASH] + b)
  {
    var s := a + [SLASH] + b;
    assert s == [] + a + ([SLASH] + b) && s == (a + [SLASH]) + b + [];
    forall i: nat ensures !SessionAt(s, i) {
      if i + 12 <= |a| {
        SessionShift([], a, [SLASH] + b, i);
      } else if i <= |a| {
        NoneAcross(a, b, i);
      } else if i + 12 <= |s| {
        SessionShift(a + [SLASH], b, [], i - |a| - 1);
      }
    }
  }

  lemma {:induction false} SegmentsClean(segs: seq<Text>)
    requires AllClean(segs)
    ensures Clean(Slashed(segs))
  {
    if segs == [] {
    } else {
      SegmentsClean(segs[1..]);
      var t := Slashed(segs[1..]);
      if segs[1..] == [] {
        CleanAcross([], segs[0]);
        assert Slashed(segs) == [] + [SLASH] + segs[0];
      } else {
        SlashedJoin(segs[1..]);
        SlashedJoin(segs);
        var j := Join(segs[1..]);
        assert t == [SLASH] + j + [];
        CleanPart([SLASH], j, []);
        CleanAcross(segs[0], j);
        CleanAcross([], segs[0] + [SLASH] + j);
        assert Slashed(segs) == [] + [SLASH] + (segs[0] + [SLASH] + j);
      }
    }
  }

  // ----- what removing dots leaves -----

  /** Segments of a path without dot segments and with no empty segment but the last. */
  ghost predicate Plain(segs: seq<Text>) {
    segs != [] && EmptyOnlyLast(segs) && Segments(segs) && forall x :: x in segs ==> !IsDots(x)
  }

  lemma {:induction false} LastStays(segs: seq<Text>, out: seq<Text>)
    requires segs != [] && !IsDots(segs[|segs| - 1])
    ensures Resolved(segs, out) != []
    decreases |segs|
  {
    if |segs| > 1 {
      assert segs[1..][|segs| - 2] == segs[|segs| - 1];
      LastStays(segs[1..], Next(segs[0], out));
    }
  }

  lemma SplitTail(path: Text)
    ensures Split(path) == if path != [] && path[0] == SLASH then [EMPTY] + Tail(path) else Tail(path)
  {
    if path != [] && path[0] == SLASH {
      assert Split(path)[1..] == Tail(path);
    }
  }

  lemma TailIsSplit(path: Text)
    ensures var rooted := path != [] && path[0] == SLASH;
            && Split(path) == (if rooted then [EMPTY] + Tail(path) else Tail(path))
            && (EndsDotted(path) <==> (rooted || |Tail(path)| > 1) && IsDots(Tail(path)[|Tail(path)| - 1]))
  {
    hide EndsDotted, Split, Tail;
    SplitTail(path);
    EndsInDots(path);
    TailSome(path);
  }

  lemma TailSome(path: Text)
    ensures Tail(path) != []
  {
  }

  /** The joined stack, rooted, whether or not the leading empty segment survived. */
  lemma RootedJoin(out: seq<Text>, plain: seq<Text>)
    requires out == plain || out == [EMPTY] + plain
    requires EmptyOnlyLast(plain) && Segments(plain)
    ensures var joined := Join(out);
            (if joined != [] && joined[0] == SLASH then joined else [SLASH] + joined)
            == if plain == [] then [SLASH] else Slashed(plain)
  {
    if plain != [] {
      SlashedJoin(plain);
      if out == plain {
        assert |plain| > 1 ==> plain[0] != [];
        assert Segment(plain[0]);
        assert plain[0] != [] ==> Join(plain)[0] == plain[0][0] && plain[0][0] in plain[0];
      } else {
        assert out[1..] == plain;
        assert Join(out) == EMPTY + [SLASH] + Join(plain);
      }
    }
  }

  lemma PlainStack(path: Text)
    requires NoDouble(path)
    ensures Tail(path) != []
    ensures var plain := Resolved(Tail(path), []);
            && EmptyOnlyLast(plain) && Segments(plain)
            && (forall x :: x in plain ==> !IsDots(x) && x in Tail(path))
            && (IsDots(Tail(path)[|Tail(path)| - 1]) ==> forall x :: x in plain ==> x != [])
            && (!IsDots(Tail(path)[|Tail(path)| - 1]) ==> plain != [])
            && (Resolved(Split(path), []) == plain || Resolved(Split(path), []) == [EMPTY] + plain)
  {
    var tail := Tail(path);
    TailEmptyOnlyLast(path);
    ResolvedShape(tail, []);
    if !IsDots(tail[|tail| - 1]) {
      LastStays(tail, []);
    }
    TailIsSplit(path);
    if path != [] && path[0] == SLASH {
      assert Split(path)[1..] == tail && [] + [EMPTY] == [EMPTY];
      assert [EMPTY] + [] == [EMPTY];
      ResolvedKept(tail, [EMPTY], []);
    }
    var plain := Resolved(tail, []);
    forall i | 0 <= i < |plain| ensures Segment(plain[i]) {
      assert plain[i] in plain && plain[i] in tail;
    }
  }

  lemma SlashedEnd(segs: seq<Text>)
    requires segs != [] && Segments(segs)
    ensures HasSuffix(Slashed(segs), [SLASH]) <==> segs[|segs| - 1] == []
  {
    hide Slashed, HasSuffix, Segment;
    var init, l := segs[..|segs| - 1], segs[|segs| - 1];
    assert segs == init + [l];
    SlashedSnoc(init, l);
    EndSlash(Slashed(init), l);
  }

  lemma EndSlash(t: Text, l: Text)
    requires Segment(l)
    ensures HasSuffix(t + ([SLASH] + l), [SLASH]) <==> l == []
  {
    var s := t + ([SLASH] + l);
    assert s[|s| - 1..] == [s[|s| - 1]];
    assert l != [] ==> s[|s| - 1] == l[|l| - 1] && l[|l| - 1] in l;
  }

  /** On a path without double slashes, removing dots keeps what the RFC keeps. */
  lemma DotsForm(path: Text)
    requires NoDouble(path)
    ensures DotsRemoved(path) == Slashed(Kept(Tail(path), []))
    ensures Plain(Kept(Tail(path), []))
    ensures forall x :: x in Kept(Tail(path), []) ==> x in Tail(path) || x == []
  {
    hide Split, Join, Slashed, Tail, Resolved, Kept, Segment;
    var tail := Tail(path);
    var plain := Resolved(tail, []);
    PlainStack(path);
    TailIsSplit(path);
    ResolvedKept(tail, [], []);
    RootedJoin(Resolved(Split(path), []), plain);
    if IsDots(tail[|tail| - 1]) {
      DottedEnd(plain);
      SlashedSnoc(plain, EMPTY);
      LoneDots(path);
      if plain != [] {
        SlashedEnd(plain);
        assert plain[|plain| - 1] in plain;
        assert Slashed(plain) + [SLASH] == Slashed(plain) + ([SLASH] + EMPTY);
      } else {
        NoSegments();
      }
    }
  }

  lemma NoSegments()
    ensures Slashed([]) == [] && HasSuffix([SLASH], [SLASH]) && [] + ([SLASH] + EMPTY) == [SLASH]
  {
  }

  /** A path that is one dot segment leaves nothing on the stack. */
  lemma LoneDots(path: Text)
    ensures |Tail(path)| == 1 && IsDots(Tail(path)[0]) ==> Resolved(Tail(path), []) == []
  {
    var t := Tail(path);
    if |t| == 1 && IsDots(t[0]) {
      assert t[1..] == [];
    }
  }

  lemma DottedEnd(plain: seq<Text>)
    requires EmptyOnlyLast(plain) && Segments(plain) && forall x :: x in plain ==> !IsDots(x) && x != []
    ensures Plain(plain + [EMPTY])
  {
    forall i | 0 <= i < |plain| ensures plain[i] != [] {
      assert plain[i] in plain;
    }
  }

  /** The code's dot segments are those of section 5.2.4 of RFC 3986, on absolute paths without double slashes. */
  lemma DotsAreRfc(path: Text)
    requires NoDouble(path) && path != [] && path[0] == SLASH
    ensures DotsRemoved(path) == Rfc(path, [])
  {
    hide Rfc, DotsRemoved, Split, Slashed, Kept;
    DotsForm(path);
    TailEmptyOnlyLast(path);
    RfcOnSegments(Tail(path), []);
    SlashedNothing();
  }

  // ----- the same on any absolute path -----

  /** Some ".." finds the stack empty. */
  predicate Climbs(segs: seq<Text>, stack: seq<Text>)
    decreases |segs|
  {
    segs != [] && ((segs[0] == TWO_DOTS && stack == []) || Climbs(segs[1..], Next(segs[0], stack)))
  }

  /** A ".." too many takes away the empty segment that stands for the root. */
  lemma {:induction false} ResolvedUnderRoot(segs: seq<Text>, stack: seq<Text>)
    ensures Resolved(segs, [EMPTY] + stack)
         == if Climbs(segs, stack) then Resolved(segs, stack) else [EMPTY] + Resolved(segs, stack)
    decreases |segs|
  {
    if segs != [] {
      var s := segs[0];
      if s == TWO_DOTS && stack == [] {
        assert Popped([EMPTY] + stack) == [];
      } else {
        assert stack != [] ==> Popped([EMPTY] + stack) == [EMPTY] + Popped(stack);
        assert [EMPTY] + stack + [s] == [EMPTY] + (stack + [s]);
        ResolvedUnderRoot(segs[1..], Next(s, stack));
      }
    }
  }

  /** A dot segment at the end, behind an empty segment that stays. */
  predicate DropsLastEmpty(path: Text)
    requires Tail(path) != []
  {
    var tail, plain := Tail(path), Resolved(Tail(path), []);
    IsDots(tail[|tail| - 1]) && plain != [] && plain[|plain| - 1] == []
  }

  /** A ".." too many, before an empty segment that stays in front of others. */
  predicate DropsFirstEmpty(path: Text) {
    var plain := Resolved(Tail(path), []);
    Climbs(Tail(path), []) && |plain| > 1 && plain[0] == []
  }

  lemma TailNotEmpty(path: Text)
    ensures Tail(path) != [] && Segments(Tail(path))
    ensures path != [] && path[0] == SLASH ==> path == Slashed(Tail(path)) && Split(path) == [EMPTY] + Tail(path)
  {
    if path != [] && path[0] == SLASH {
      SplitSegments(path[1..]);
      JoinSplit(path[1..]);
      SlashedJoin(Tail(path));
      assert path == [SLASH] + path[1..] && Split(path)[1..] == Tail(path);
    } else {
      SplitSegments(path);
    }
  }

  lemma {:induction false} ResolvedSegments(segs: seq<Text>, stack: seq<Text>)
    requires Segments(segs) && Segments(stack)
    ensures Segments(Resolved(segs, stack))
    decreases |segs|
  {
    if segs != [] {
      ResolvedSegments(segs[1..], Next(segs[0], stack));
    }
  }

  /** What the code joins and roots, before it looks at the end of the path. */
  lemma RootedIs(plain: seq<Text>, climbs: bool)
    requires Segments(plain)
    ensures var joined := Join(if climbs then plain else [EMPTY] + plain);
            (if joined != [] && joined[0] == SLASH then joined else [SLASH] + joined)
            == if plain == [] then [SLASH]
               else if climbs && |plain| > 1 && plain[0] == [] then Join(plain)
               else Slashed(plain)
  {
    if plain != [] {
      SlashedJoin(plain);
      if climbs {
        assert Segment(plain[0]);
        assert |plain| > 1 ==> Join(plain) == plain[0] + [SLASH] + Join(plain[1..]);
        assert plain[0] != [] ==> Join(plain)[0] == plain[0][0] && plain[0][0] in plain[0];
      } else {
        assert ([EMPTY] + plain)[1..] == plain;
        assert Join([EMPTY] + plain) == EMPTY + [SLASH] + Join(plain);
      }
    } else {
      assert climbs || [EMPTY] + plain == [EMPTY];
    }
  }

  function Rooted(plain: seq<Text>, climbs: bool): Text {
    if plain == [] then [SLASH] else if climbs && |plain| > 1 && plain[0] == [] then Join(plain) else Slashed(plain)
  }

  /** A dot segment at the end leaves a directory behind. */
  function Ended(rooted: Text, dotted: bool): Text {
    if dotted && !HasSuffix(rooted, [SLASH]) then rooted + [SLASH] else rooted
  }

  /** The two ends compared: what the code makes of the stack, and what the RFC does. */
  lemma EndsCompared(plain: seq<Text>, climbs: bool, dotted: bool)
    requires Segments(plain) && (!dotted ==> plain != [])
    ensures Ended(Rooted(plain, climbs), dotted) == Slashed(if dotted then plain + [EMPTY] else plain)
       <==> && !(dotted && plain != [] && plain[|plain| - 1] == [])
            && !(climbs && |plain| > 1 && plain[0] == [])
  {
    hide Join, Slashed, Segment, HasSuffix;
    SlashedNothing();
    NoSegments();
    SlashedSnoc(plain, EMPTY);
    if plain != [] {
      SlashedJoin(plain);
      SlashedEnd(plain);
    }
  }

  lemma RemovedIs(path: Text, plain: seq<Text>, climbs: bool)
    requires Segments(plain) && Resolved(Split(path), []) == if climbs then plain else [EMPTY] + plain
    ensures DotsRemoved(path) == Ended(Rooted(plain, climbs), EndsDotted(path))
  {
    hide Join, Slashed, Segment, HasSuffix, Resolved, Split;
    RootedIs(plain, climbs);
  }

  /** On any absolute path, the code and the RFC part ways exactly where an empty segment is dropped at either end. */
  lemma DotsAreRfcIff(path: Text)
    requires path != [] && path[0] == SLASH
    ensures Tail(path) != []
    ensures DotsRemoved(path) == Rfc(path, []) <==> !DropsLastEmpty(path) && !DropsFirstEmpty(path)
  {
    hide Rfc, Split, Join, Slashed, Tail, Resolved, Kept, Segment, Climbs, HasSuffix, DotsRemoved, EndsDotted, Rooted, Ended;
    var tail := Tail(path);
    var plain, climbs := Resolved(tail, []), Climbs(tail, []);
    TailNotEmpty(path);
    TailIsSplit(path);
    ResolvedSegments(tail, []);
    ResolvedUnderRoot(tail, []);
    assert [EMPTY] + [] == [EMPTY];
    RootStep(tail);
    RemovedIs(path, plain, climbs);
    ResolvedKept(tail, [], []);
    RfcOnSegments(tail, []);
    SlashedNothing();
    if !IsDots(tail[|tail| - 1]) {
      LastStays(tail, []);
    }
    EndsCompared(plain, climbs, IsDots(tail[|tail| - 1]));
  }

  lemma RootStep(tail: seq<Text>)
    ensures Resolved([EMPTY] + tail, []) == Resolved(tail, [EMPTY])
  {
    assert ([EMPTY] + tail)[1..] == tail && [] + [EMPTY] == [EMPTY];
  }

  /** "/..//a" */
  const CLIMBS: Text := [SLASH, DOT, DOT, SLASH, SLASH, 97]

  /** One such path: the code forgets an empty segment that the RFC keeps. Collapsing slashes first rules it out. */
  lemma DotsAreNotRfc()
    ensures DotsRemoved(CLIMBS) == [SLASH, 97] && Rfc(CLIMBS, []) == [SLASH, SLASH, 97]
  {
    var a: Text := [97];
    assert CLIMBS == [SLASH] + TWO_DOTS + [SLASH, SLASH, 97];
    RfcStep(TWO_DOTS, [SLASH, SLASH, 97], []);
    assert [SLASH, SLASH, 97] == [SLASH] + EMPTY + [SLASH, 97];
    RfcStep(EMPTY, [SLASH, 97], []);
    assert [SLASH, 97] == [SLASH] + a + [];
    RfcStep(a, [], [] + ([SLASH] + EMPTY));
    RfcEnds([] + ([SLASH] + EMPTY) + ([SLASH] + a));
    CodeClimbs();
  }

  lemma CodeClimbs()
    ensures DotsRemoved(CLIMBS) == [SLASH, 97]
  {
    var a: Text := [97];
    var segs := [EMPTY, TWO_DOTS, EMPTY, a];
    assert CLIMBS == EMPTY + [SLASH] + (TWO_DOTS + [SLASH] + (EMPTY + [SLASH] + a));
    SplitAt(EMPTY, TWO_DOTS + [SLASH] + (EMPTY + [SLASH] + a));
    SplitAt(TWO_DOTS, EMPTY + [SLASH] + a);
    SplitAt(EMPTY, a);
    SplitAt(a, []);
    assert Split(CLIMBS) == segs;
    assert segs[1..] == [TWO_DOTS, EMPTY, a] && segs[1..][1..] == [EMPTY, a] && segs[1..][1..][1..] == [a];
    assert [a][1..] == [];
    assert Popped([EMPTY]) == [] && Popped([] + [EMPTY]) == [];
    assert Resolved([a], [EMPTY]) == Resolved([], [EMPTY, a]);
    assert Resolved([EMPTY, a], []) == Resolved([a], [EMPTY]);
    assert Resolved([TWO_DOTS, EMPTY, a], [EMPTY]) == Resolved([EMPTY, a], []);
    assert Resolved(segs, []) == [EMPTY, a];
    assert [EMPTY, a][1..] == [a];
    assert Join([EMPTY, a]) == [SLASH, 97];
  }

  lemma SlashedNothing()
    ensures Slashed([]) == []
  {
  }

  // ----- the laws as a whole -----

  lemma {:induction false} PlainFixed(segs: seq<Text>, stack: seq<Text>)
    requires forall x :: x in segs ==> !IsDots(x)
    ensures Kept(segs, stack) == stack + segs
    decreases |segs|
  {
    if segs == [] {
      assert stack + segs == stack;
    } else {
      assert !IsDots(segs[0]) && forall x :: x in segs[1..] ==> x in segs;
      PlainFixed(segs[1..], stack + [segs[0]]);
      assert stack + [segs[0]] + segs[1..] == stack + segs;
    }
  }

  lemma {:induction false} SlashedNoDouble(segs: seq<Text>)
    requires EmptyOnlyLast(segs) && Segments(segs)
    ensures NoDouble(Slashed(segs)) && (segs != [] ==> Slashed(segs)[0] == SLASH)
  {
    if segs != [] {
      forall i | 0 <= i < |segs[1..]| - 1 ensures segs[1..][i] != [] {
        assert segs[1..][i] == segs[i + 1];
      }
      SlashedNoDouble(segs[1..]);
      AcrossNoDouble(segs[0], Slashed(segs[1..]));
    }
  }

  lemma AcrossNoDouble(s: Text, t: Text)
    requires Segment(s) && NoDouble(t) && (s == [] ==> t == [])
    ensures NoDouble([SLASH] + s + t)
  {
    var u := [SLASH] + s + t;
    forall i | 0 <= i < |u| - 1 ensures !(u[i] == SLASH && u[i + 1] == SLASH) {
      assert i < |s| ==> u[i + 1] == s[i] && s[i] in s;
      assert 0 < i <= |s| ==> u[i] == s[i - 1] && s[i - 1] in s;
      assert i > |s| ==> u[i] == t[i - |s| - 1] && u[i + 1] == t[i - |s| - 1 + 1];
    }
  }

  /** A path is its own canonical form exactly when it is normal, clean and plain. */
  ghost predicate IsCanonical(path: Text) {
    Norm(path, IsPathByte) && Clean(path) && exists segs :: Plain(segs) && path == Slashed(segs)
  }

  lemma CanonicalFixed(path: Text)
    requires IsCanonical(path)
    ensures Canonical(path) == path
  {
    hide Norm, Clean, Split, Slashed, Collapsed, Stripped, Reencoded, DotsRemoved, Kept, NoDouble, EmptyOnlyLast, Segments;
    var segs :| Plain(segs) && path == Slashed(segs);
    NormFixed(path, IsPathByte);
    CleanFixed(path);
    SlashedNoDouble(segs);
    NoDoubleFixed(path);
    SplitSlashed(segs);
    DotsForm(path);
    PlainFixed(segs, []);
    assert [] + segs == segs;
  }

  lemma CanonicalForm(path: Text)
    ensures IsCanonical(Canonical(path))
  {
    hide Norm, Clean, Split, Slashed, Collapsed, Stripped, Reencoded, DotsRemoved, Kept, NoDouble, Tail;
    var stripped := Stripped(Reencoded(path, IsPathByte));
    PathKeepsText();
    ReencodedNorm(path, IsPathByte);
    StrippedNorm(Reencoded(path, IsPathByte), IsPathByte);
    StrippedClean(Reencoded(path, IsPathByte));
    var c := Collapsed(stripped);
    CollapsedNoDouble(stripped);
    NormSegments(stripped);
    CleanSegments(stripped);
    DotsForm(c);
    TailFrom(stripped);
    NothingNormClean();
    var segs := Kept(Tail(c), []);
    SegmentsNorm(segs);
    SegmentsClean(segs);
  }

  lemma PathKeepsText()
    ensures KeepsText(IsPathByte)
  {
  }

  lemma NothingNormClean()
    ensures Norm([], IsPathByte) && Clean([])
  {
  }

  lemma TailFrom(s: Text)
    ensures forall x :: x in Tail(Collapsed(s)) ==> x in Split(s)
  {
    CollapsedKeepsSegments(s);
    TailIsSplit(Collapsed(s));
    var c := Split(Collapsed(s));
    assert c == [c[0]] + c[1..];
    assert forall x :: x in c ==> x == c[0] || x in c[1..];
  }

  /** The path laws are idempotent: what they produce they leave alone, whatever they were given. */
  lemma PathIdempotent(path: Text)
    ensures Canonical(Canonical(path)) == Canonical(path)
  {
    hide Canonical, IsCanonical;
    CanonicalForm(path);
    CanonicalFixed(Canonical(path));
  }

  lemma {:induction false} StaysAbsolute(s: Text)
    requires s != [] && s[0] == SLASH
    ensures Stripped(s) != [] && Stripped(s)[0] == SLASH
    decreases |s|
  {
    var i := FirstSession(s, 0);
    if i < |s| {
      SessionStart(s, i);
      StaysAbsolute(s[..i] + s[SegmentEnd(s, i + 12)..]);
    }
  }

  /** On every absolute path, the dot segments of the canonical form are removed as the RFC removes them. */
  lemma CanonicalByRfc(path: Text)
    requires path != [] && path[0] == SLASH
    ensures Canonical(path) == Rfc(Collapsed(Stripped(Reencoded(path, IsPathByte))), [])
  {
    hide Rfc, DotsRemoved, Collapsed, Stripped, NoDouble;
    assert Reencoded(path, IsPathByte)[0] == SLASH;
    StaysAbsolute(Reencoded(path, IsPathByte));
    CollapsedNoDouble(Stripped(Reencoded(path, IsPathByte)));
    DotsAreRfc(Collapsed(Stripped(Reencoded(path, IsPathByte))));
  }

  /** And what they leave alone is exactly that form. */
  lemma CanonicalIff(path: Text)
    ensures Canonical(path) == path <==> IsCanonical(path)
  {
    hide Canonical, IsCanonical;
    CanonicalForm(path);
    if IsCanonical(path) {
      CanonicalFixed(path);
    }
  }
}
