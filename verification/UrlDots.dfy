/**
 * Dot segments of urlnorm/urlnorm.go against the algorithm of section 5.2.4 of RFC 3986, and the path laws as a whole.
 */
module UrlDots {
  import opened UrlPath

  const EMPTY: Text := []
  const ONE_DOT: Text := [DOT]
  const TWO_DOTS: Text := [DOT, DOT]

  // ----- segments -----

  function Split(s: Text): (segs: seq<Text>)
    ensures segs != []
  {
    if s == [] then [EMPTY]
    else
      var r := Split(s[1..]);
      if s[0] == SLASH then [EMPTY] + r else [[s[0]] + r[0]] + r[1..]
  }

  function Join(segs: seq<Text>): Text {
    if segs == [] then [] else if |segs| == 1 then segs[0] else segs[0] + [SLASH] + Join(segs[1..])
  }

  /** Every segment behind a slash. */
  function Slashed(segs: seq<Text>): Text {
    if segs == [] then [] else [SLASH] + segs[0] + Slashed(segs[1..])
  }

  predicate Segment(s: Text) {
    SLASH !in s
  }

  ghost predicate Segments(segs: seq<Text>) {
    forall i :: 0 <= i < |segs| ==> Segment(segs[i])
  }

  lemma {:induction false} SplitSegments(s: Text)
    ensures Segments(Split(s))
  {
    if s != [] {
      SplitSegments(s[1..]);
    }
  }

  lemma JoinEmpty(r: seq<Text>)
    requires r != []
    ensures Join([EMPTY] + r) == [SLASH] + Join(r)
  {
    assert ([EMPTY] + r)[1..] == r;
  }

  lemma FrontLonger(a: Text, b: Text, c: Text, d: Text)
    ensures (a + b) + c + d == a + (b + c + d)
  {
  }

  lemma JoinLonger(first: Text, r: seq<Text>)
    requires r != []
    ensures Join([first + r[0]] + r[1..]) == first + Join(r)
  {
    assert ([first + r[0]] + r[1..])[1..] == r[1..];
    FrontLonger(first, r[0], [SLASH], Join(r[1..]));
  }

  lemma {:induction false} JoinSplit(s: Text)
    ensures Join(Split(s)) == s
  {
    if s != [] {
      hide Join;
      JoinSplit(s[1..]);
      var r := Split(s[1..]);
      JoinEmpty(r);
      JoinLonger([s[0]], r);
      assert s == [s[0]] + s[1..];
    }
  }

  lemma {:induction false} SplitAt(a: Text, b: Text)
    requires Segment(a)
    ensures Split(a) == [a] && Split(a + [SLASH] + b) == [a] + Split(b)
  {
    if a == [] {
      assert a + [SLASH] + b == [SLASH] + b;
      assert ([SLASH] + b)[1..] == b;
    } else {
      SplitAt(a[1..], b);
      assert (a + [SLASH] + b)[1..] == a[1..] + [SLASH] + b;
      assert a == [a[0]] + a[1..];
    }
  }

  lemma BehindSlash(a: Text, b: Text)
    ensures ([SLASH] + a + b)[1..] == a + b
  {
  }

  lemma SlashedParts(segs: seq<Text>)
    requires segs != []
    ensures Slashed(segs) != [] && Slashed(segs)[0] == SLASH && Slashed(segs)[1..] == segs[0] + Slashed(segs[1..])
  {
    BehindSlash(segs[0], Slashed(segs[1..]));
  }

  lemma NoSlashed()
    ensures Slashed([]) == []
  {
  }

  lemma {:induction false} SplitSlashed(segs: seq<Text>)
    requires segs != [] && Segments(segs)
    ensures Slashed(segs) != [] && Slashed(segs)[0] == SLASH && Split(Slashed(segs)[1..]) == segs
  {
    hide Split, Slashed;
    SlashedParts(segs);
    if |segs| == 1 {
      SplitAt(segs[0], []);
      NoSlashed();
      assert segs == [segs[0]] && segs[1..] == [] && segs[0] + [] == segs[0];
    } else {
      var t := Slashed(segs[1..]);
      SplitSlashed(segs[1..]);
      assert t == [SLASH] + t[1..];
      assert segs[0] + t == segs[0] + [SLASH] + t[1..];
      SplitAt(segs[0], t[1..]);
      assert segs == [segs[0]] + segs[1..];
    }
  }

  lemma {:induction false} SlashedJoin(segs: seq<Text>)
    requires segs != []
    ensures Slashed(segs) == [SLASH] + Join(segs)
  {
    if |segs| > 1 {
      SlashedJoin(segs[1..]);
    }
  }

  // ----- the code's dot segments -----

  /** The segments that stay: the stack after the loop over segs. */
  function Resolved(segs: seq<Text>, out: seq<Text>): seq<Text>
    decreases |segs|
  {
    if segs == [] then out
    else Resolved(segs[1..], Next(segs[0], out))
  }

  /** The stack after one segment. */
  function Next(s: Text, out: seq<Text>): seq<Text> {
    if s == ONE_DOT then out else if s == TWO_DOTS then Popped(out) else out + [s]
  }

  function Popped(out: seq<Text>): seq<Text> {
    if |out| > 0 then out[..|out| - 1] else out
  }

  predicate HasSuffix(s: Text, t: Text) {
    |t| <= |s| && s[|s| - |t|..] == t
  }

  /** Whether the path ends in a dot segment behind a slash. */
  predicate EndsDotted(path: Text) {
    HasSuffix(path, [SLASH, DOT]) || HasSuffix(path, [SLASH, DOT, DOT])
  }

  function DotsRemoved(path: Text): Text {
    var joined := Join(Resolved(Split(path), []));
    var rooted := if joined != [] && joined[0] == SLASH then joined else [SLASH] + joined;
    if EndsDotted(path) && !HasSuffix(rooted, [SLASH])
    then rooted + [SLASH]
    else rooted
  }

  method RemoveDotSegments(path: Text) returns (joined: Text)
    ensures joined == DotsRemoved(path)
  {
    var segs := Split(path);
    var out: seq<Text> := [];
    for i := 0 to |segs|
      invariant Resolved(segs, []) == Resolved(segs[i..], out)
    {
      assert segs[i..][1..] == segs[i + 1..];
      if segs[i] == ONE_DOT {
      } else if segs[i] == TWO_DOTS {
        if |out| > 0 {
          out := out[..|out| - 1];
        }
      } else {
        out := out + [segs[i]];
      }
    }
    assert segs[|segs|..] == [];
    joined := Join(out);
    if joined == [] || joined[0] != SLASH {
      joined := [SLASH] + joined;
    }
    if EndsDotted(path) {
      if !HasSuffix(joined, [SLASH]) {
        joined := joined + [SLASH];
      }
    }
  }

  // ----- RFC 3986, section 5.2.4 -----

  predicate HasPrefix(s: Text, t: Text) {
    t <= s
  }

  /** The output without its last segment and that segment's slash. */
  function LastDropped(output: Text): Text {
    if output == [] then []
    else if output[|output| - 1] == SLASH then output[..|output| - 1]
    else LastDropped(output[..|output| - 1])
  }

  function NextSlash(s: Text, i: nat): (k: nat)
    requires i <= |s|
    ensures i <= k <= |s|
    decreases |s| - i
  {
    if i == |s| || s[i] == SLASH then i else NextSlash(s, i + 1)
  }

  /** remove_dot_segments: steps 2A to 2E on the input and output buffers. */
  function Rfc(input: Text, output: Text): Text
    decreases |input|
  {
    if input == [] then output
    else if HasPrefix(input, [DOT, DOT, SLASH]) then Rfc(input[3..], output)
    else if HasPrefix(input, [DOT, SLASH]) then Rfc(input[2..], output)
    else if HasPrefix(input, [SLASH, DOT, SLASH]) then Rfc(input[2..], output)
    else if input == [SLASH, DOT] then Rfc([SLASH], output)
    else if HasPrefix(input, [SLASH, DOT, DOT, SLASH]) then Rfc(input[3..], LastDropped(output))
    else if input == [SLASH, DOT, DOT] then Rfc([SLASH], LastDropped(output))
    else if input == ONE_DOT || input == TWO_DOTS then Rfc([], output)
    else
      var k := NextSlash(input, 1);
      Rfc(input[k..], output + input[..k])
  }

  predicate IsDots(s: Text) {
    s == ONE_DOT || s == TWO_DOTS
  }

  /** The same on segments: a dot segment at the very end leaves an empty one behind. */
  function Kept(segs: seq<Text>, stack: seq<Text>): seq<Text>
    decreases |segs|
  {
    if segs == [] then stack
    else
      var rest, stack' := segs[1..], Next(segs[0], stack);
      if rest == [] && IsDots(segs[0]) then stack' + [EMPTY] else Kept(rest, stack')
  }

  lemma {:induction false} SlashedConcat(a: seq<Text>, b: seq<Text>)
    ensures Slashed(a + b) == Slashed(a) + Slashed(b)
  {
    if a == [] {
      assert a + b == b;
    } else {
      assert (a + b)[1..] == a[1..] + b;
      SlashedConcat(a[1..], b);
    }
  }

  lemma SlashedSnoc(a: seq<Text>, s: Text)
    ensures Slashed(a + [s]) == Slashed(a) + ([SLASH] + s)
  {
    SlashedConcat(a, [s]);
    assert Slashed([s]) == [SLASH] + s + Slashed([]);
  }

  lemma {:induction false} DropSegment(t: Text, s: Text)
    requires Segment(s)
    ensures LastDropped(t + ([SLASH] + s)) == t
    decreases |s|
  {
    var o := t + ([SLASH] + s);
    if s == [] {
      assert o[..|o| - 1] == t;
    } else {
      assert o[|o| - 1] == s[|s| - 1];
      assert o[..|o| - 1] == t + ([SLASH] + s[..|s| - 1]);
      DropSegment(t, s[..|s| - 1]);
    }
  }

  lemma DropSlashed(stack: seq<Text>)
    requires Segments(stack)
    ensures LastDropped(Slashed(stack)) == Slashed(Popped(stack))
  {
    if stack != [] {
      var init := stack[..|stack| - 1];
      assert stack == init + [stack[|stack| - 1]];
      SlashedSnoc(init, stack[|stack| - 1]);
      DropSegment(Slashed(init), stack[|stack| - 1]);
    }
  }

  lemma {:induction false} NextSlashAfter(s: Text, t: Text, i: nat)
    requires Segment(s) && 1 <= i <= 1 + |s| && (t != [] ==> t[0] == SLASH)
    ensures NextSlash([SLASH] + s + t, i) == 1 + |s|
    decreases |s| - i
  {
    var input := [SLASH] + s + t;
    if i < 1 + |s| {
      assert input[i] == s[i - 1];
      NextSlashAfter(s, t, i + 1);
    }
  }

  /** Step 2B: "/./" and a final "/." each become "/". */
  lemma RfcOneDot(t: Text, output: Text)
    requires t != [] ==> t[0] == SLASH
    ensures Rfc([SLASH, DOT] + t, output) == Rfc(if t == [] then [SLASH] else t, output)
  {
    var input := [SLASH, DOT] + t;
    assert input[0] == SLASH && input[1] == DOT && input[2..] == t;
    if t != [] {
      assert HasPrefix(input, [SLASH, DOT, SLASH]);
    } else {
      assert input == [SLASH, DOT];
    }
  }

  /** Step 2C: "/../" and a final "/.." do too, and the last output segment goes. */
  lemma RfcTwoDots(t: Text, output: Text)
    requires t != [] ==> t[0] == SLASH
    ensures Rfc([SLASH, DOT, DOT] + t, output) == Rfc(if t == [] then [SLASH] else t, LastDropped(output))
  {
    hide LastDropped;
    var input := [SLASH, DOT, DOT] + t;
    assert input[0] == SLASH && input[1] == DOT && input[2] == DOT && input[3..] == t;
    if t != [] {
      assert HasPrefix(input, [SLASH, DOT, DOT, SLASH]);
    } else {
      assert input == [SLASH, DOT, DOT];
    }
  }

  /** Step 2E: any other segment moves to the output. */
  lemma RfcMoves(input: Text, output: Text)
    requires input != [] && input[0] == SLASH
    requires !HasPrefix(input, [SLASH, DOT, SLASH]) && input != [SLASH, DOT]
    requires !HasPrefix(input, [SLASH, DOT, DOT, SLASH]) && input != [SLASH, DOT, DOT]
    ensures var k := NextSlash(input, 1); Rfc(input, output) == Rfc(input[k..], output + input[..k])
  {
    hide LastDropped, NextSlash;
  }

  /** One segment of the RFC's loop. */
  lemma RfcStep(s: Text, t: Text, output: Text)
    requires Segment(s) && (t != [] ==> t[0] == SLASH)
    ensures var input := [SLASH] + s + t;
            Rfc(input, output) == if s == ONE_DOT then Rfc(if t == [] then [SLASH] else t, output)
                                  else if s == TWO_DOTS then Rfc(if t == [] then [SLASH] else t, LastDropped(output))
                                  else Rfc(t, output + ([SLASH] + s))
  {
    hide Rfc, LastDropped, NextSlash, HasPrefix;
    var input := [SLASH] + s + t;
    if s == ONE_DOT {
      assert input == [SLASH, DOT] + t;
      RfcOneDot(t, output);
    } else if s == TWO_DOTS {
      assert input == [SLASH, DOT, DOT] + t;
      RfcTwoDots(t, output);
    } else {
      NotDots(s, t);
      NextSlashAfter(s, t, 1);
      RfcMoves(input, output);
      assert input[..1 + |s|] == [SLASH] + s && input[1 + |s|..] == t;
    }
  }

  lemma NotDots(s: Text, t: Text)
    requires Segment(s) && (t != [] ==> t[0] == SLASH) && !IsDots(s)
    ensures var input := [SLASH] + s + t;
            && !HasPrefix(input, [SLASH, DOT, SLASH]) && input != [SLASH, DOT]
            && !HasPrefix(input, [SLASH, DOT, DOT, SLASH]) && input != [SLASH, DOT, DOT]
  {
    var input := [SLASH] + s + t;
    assert forall i :: 0 <= i < |s| ==> input[1 + i] == s[i];
    assert t != [] ==> input[1 + |s|] == SLASH;
    assert |s| == 1 ==> s == [s[0]];
    assert |s| == 2 ==> s == [s[0], s[1]];
    assert forall i :: 0 <= i < |s| ==> s[i] != SLASH;
    PrefixAt(input, [SLASH, DOT, SLASH], 1);
    PrefixAt(input, [SLASH, DOT, SLASH], 2);
    PrefixAt(input, [SLASH, DOT, DOT, SLASH], 1);
    PrefixAt(input, [SLASH, DOT, DOT, SLASH], 2);
    PrefixAt(input, [SLASH, DOT, DOT, SLASH], 3);
  }

  lemma PrefixAt(s: Text, t: Text, i: nat)
    ensures HasPrefix(s, t) && i < |t| ==> i < |s| && s[i] == t[i]
  {
  }

  lemma {:induction false} RfcOnSegments(segs: seq<Text>, stack: seq<Text>)
    requires Segments(segs) && Segments(stack)
    ensures Rfc(Slashed(segs), Slashed(stack)) == Slashed(Kept(segs, stack))
    decreases |segs|
  {
    hide Rfc;
    if segs == [] {
      RfcEnds(Slashed(stack));
    } else {
      var s, rest := segs[0], segs[1..];
      var t := Slashed(rest);
      assert rest != [] ==> t[0] == SLASH;
      RfcStep(s, t, Slashed(stack));
      DropSlashed(stack);
      SlashedSnoc(stack, s);
      var stack' := Next(s, stack);
      if rest == [] && IsDots(s) {
        RfcSlash(Slashed(stack'));
        SlashedSnoc(stack', EMPTY);
      } else {
        RfcOnSegments(rest, stack');
      }
    }
  }

  lemma RfcEnds(output: Text)
    ensures Rfc([], output) == output
  {
  }

  lemma RfcSlash(output: Text)
    ensures Rfc([SLASH], output) == output + ([SLASH] + EMPTY)
  {
    assert NextSlash([SLASH], 1) == 1;
    assert [SLASH][1..] == [] && [SLASH][..1] == [SLASH] == [SLASH] + EMPTY;
    RfcEnds(output + [SLASH]);
  }

  // ----- the code meets the RFC on collapsed paths -----

  /** The segments after the leading slash, if there is one. */
  function Tail(path: Text): seq<Text> {
    if path != [] && path[0] == SLASH then Split(path[1..]) else Split(path)
  }

  /** Only the last segment may be empty. */
  ghost predicate EmptyOnlyLast(segs: seq<Text>) {
    forall i :: 0 <= i < |segs| - 1 ==> segs[i] != []
  }

  lemma {:induction false} CollapsedSegments(s: Text)
    requires NoDouble(s)
    ensures forall i :: 0 < i < |Split(s)| - 1 ==> Split(s)[i] != []
    ensures Split(s)[0] == [] <==> s == [] || s[0] == SLASH
  {
    if s != [] {
      forall i | 0 <= i < |s[1..]| - 1 ensures !(s[1..][i] == SLASH && s[1..][i + 1] == SLASH) {
        assert s[1..][i] == s[i + 1] && s[1..][i + 1] == s[i + 2];
      }
      CollapsedSegments(s[1..]);
      assert |s| > 1 ==> s[1..][0] == s[1];
    }
  }

  lemma TailEmptyOnlyLast(path: Text)
    requires NoDouble(path)
    ensures EmptyOnlyLast(Tail(path)) && Segments(Tail(path))
    ensures path != [] && path[0] == SLASH ==> Split(path) == [EMPTY] + Tail(path) && path == Slashed(Tail(path))
  {
    SplitSegments(path);
    CollapsedSegments(path);
    if path != [] && path[0] == SLASH {
      SplitSegments(path[1..]);
      assert Split(path)[1..] == Tail(path);
      JoinSplit(path[1..]);
      SlashedJoin(Tail(path));
      assert path == [SLASH] + path[1..];
    }
  }

  lemma NextUnderRoot(s: Text, out: seq<Text>, stack: seq<Text>)
    requires out == stack || out == [EMPTY] + stack
    ensures Next(s, out) == Next(s, stack) || Next(s, out) == [EMPTY] + Next(s, stack)
  {
    if out == [EMPTY] + stack {
      assert stack != [] ==> Popped(out) == [EMPTY] + Popped(stack);
      assert out + [s] == [EMPTY] + (stack + [s]);
    }
  }

  /** The stack without the RFC's rule for a dot segment at the end. */
  lemma {:induction false} ResolvedKept(segs: seq<Text>, out: seq<Text>, stack: seq<Text>)
    requires out == stack || out == [EMPTY] + stack
    ensures var plain := Resolved(segs, stack);
            && (Resolved(segs, out) == plain || Resolved(segs, out) == [EMPTY] + plain)
            && Kept(segs, stack) == if segs != [] && IsDots(segs[|segs| - 1]) then plain + [EMPTY] else plain
    decreases |segs|
  {
    hide Next;
    if segs != [] {
      var s, rest := segs[0], segs[1..];
      var stack' := Next(s, stack);
      var out' := Next(s, out);
      NextUnderRoot(s, out, stack);
      if rest == [] && IsDots(s) {
        assert Resolved(rest, stack') == stack';
      } else {
        ResolvedKept(rest, out', stack');
        assert rest != [] ==> rest[|rest| - 1] == segs[|segs| - 1];
      }
    }
  }

  lemma NextElements(s: Text, stack: seq<Text>)
    ensures forall x :: x in Next(s, stack) ==> x in stack || (x == s && !IsDots(s))
    ensures forall i :: 0 <= i < |Next(s, stack)| - 1 ==> Next(s, stack)[i] in stack
    ensures IsDots(s) ==> forall x :: x in Next(s, stack) ==> x in stack
  {
  }

  /** The elements that stay are segments of the path, and still only the last may be empty. */
  lemma {:induction false} ResolvedShape(segs: seq<Text>, stack: seq<Text>)
    requires EmptyOnlyLast(segs) && forall s :: s in stack ==> s != []
    ensures EmptyOnlyLast(Resolved(segs, stack))
    ensures forall s :: s in Resolved(segs, stack) ==> s in stack || (s in segs && !IsDots(s))
    ensures segs != [] && IsDots(segs[|segs| - 1]) ==> forall s :: s in Resolved(segs, stack) ==> s != []
    decreases |segs|
  {
    hide Next;
    if segs == [] {
      assert forall i :: 0 <= i < |stack| ==> stack[i] in stack;
    } else {
      var s, rest := segs[0], segs[1..];
      var stack' := Next(s, stack);
      NextElements(s, stack);
      forall i | 0 <= i < |rest| - 1 ensures rest[i] != [] {
        assert rest[i] == segs[i + 1];
      }
      if rest == [] {
        assert Resolved(segs, stack) == stack';
      } else {
        assert s != [];
        ResolvedShape(rest, stack');
        assert rest[|rest| - 1] == segs[|segs| - 1];
      }
    }
  }

  lemma SuffixAt(s: Text, t: Text, i: int)
    requires HasSuffix(s, t)
    ensures 0 <= i < |t| ==> s[|s| - |t| + i] == t[i]
  {
    assert 0 <= i < |t| ==> s[|s| - |t|..][i] == t[i];
  }

  /** What follows the last slash of a path that ends in "/" + d is d. */
  lemma AfterLastSlash(s: Text, l: Text, d: Text)
    requires Segment(l) && HasSuffix(s, l) && Segment(d) && HasSuffix(s, [SLASH] + d)
    requires |l| < |s| ==> s[|s| - |l| - 1] == SLASH
    ensures l == d && |l| < |s|
  {
    var n := |s|;
    SuffixAt(s, [SLASH] + d, 0);
    SuffixAt(s, l, |l| - |d| - 1);
    SuffixAt(s, [SLASH] + d, |d| - |l|);
    assert s[n - |d| - 1..][1..] == s[n - |d|..] == d;
  }

  lemma EndsInDots(path: Text)
    ensures EndsDotted(path) <==> |Split(path)| > 1 && IsDots(Split(path)[|Split(path)| - 1])
  {
    hide Split, HasSuffix, Segment;
    LastSegment(path);
    var l := Split(path)[|Split(path)| - 1];
    assert [SLASH] + ONE_DOT == [SLASH, DOT] && [SLASH] + TWO_DOTS == [SLASH, DOT, DOT];
    EndsIn(path, l);
    NoSlash();
    if HasSuffix(path, [SLASH, DOT]) {
      AfterLastSlash(path, l, ONE_DOT);
    } else if HasSuffix(path, [SLASH, DOT, DOT]) {
      AfterLastSlash(path, l, TWO_DOTS);
    }
  }

  lemma NoSlash()
    ensures Segment(ONE_DOT) && Segment(TWO_DOTS)
  {
  }

  lemma EndsIn(s: Text, l: Text)
    requires |l| <= |s| && s[|s| - |l|..] == l
    ensures HasSuffix(s, l) && (|l| < |s| && s[|s| - |l| - 1] == SLASH ==> HasSuffix(s, [SLASH] + l))
  {
    assert |l| < |s| && s[|s| - |l| - 1] == SLASH ==> s[|s| - |l| - 1..] == [SLASH] + l;
  }

  lemma SplitCons(s: Text)
    requires s != []
    ensures var segs, r := Split(s), Split(s[1..]);
            if s[0] == SLASH then segs == [EMPTY] + r else segs == [[s[0]] + r[0]] + r[1..]
  {
  }

  /** l is all of s behind its last slash, and n says whether there is one. */
  ghost predicate Behind(s: Text, l: Text, n: nat) {
    && Segment(l) && |l| <= |s| && s[|s| - |l|..] == l
    && (n == 1 ==> l == s) && (n > 1 ==> |l| < |s| && s[|s| - |l| - 1] == SLASH)
  }

  lemma BehindStill(s: Text, l: Text, n: nat)
    requires s != [] && Behind(s[1..], l, n) && n >= 1 && (s[0] == SLASH || n > 1)
    ensures Behind(s, l, if s[0] == SLASH then n + 1 else n)
  {
    hide Segment;
  }

  lemma BehindLonger(s: Text, l: Text)
    requires s != [] && Behind(s[1..], l, 1) && s[0] != SLASH
    ensures Behind(s, [s[0]] + l, 1)
  {
    assert s == [s[0]] + s[1..];
  }

  /** The last segment of s is what follows its last slash. */
  lemma {:induction false} LastSegment(s: Text)
    ensures Behind(s, Split(s)[|Split(s)| - 1], |Split(s)|)
  {
    if s != [] {
      hide Split, Behind;
      LastSegment(s[1..]);
      SplitCons(s);
      var r := Split(s[1..]);
      if s[0] == SLASH || |r| > 1 {
        BehindStill(s, r[|r| - 1], |r|);
      } else {
        BehindLonger(s, r[0]);
      }
    }
  }
}
