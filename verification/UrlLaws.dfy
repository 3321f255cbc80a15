/** What the path laws of urlnorm/urlnorm.go keep and what they drop, stated on the bytes themselves. */
module UrlLaws {
  import opened Bytes
  import opened UrlPath

  // ----- session segments -----

  /** ";jsessionid=" in any mix of cases. */
  predicate IsSessionWord(s: Text) {
    && |s| == 12 && s[0] == 59 && s[1] in {106, 74} && s[2] in {115, 83} && s[3] in {101, 69} && s[4] in {115, 83}
    && s[5] in {115, 83} && s[6] in {105, 73} && s[7] in {111, 79} && s[8] in {110, 78} && s[9] in {105, 73}
    && s[10] in {100, 68} && s[11] == 61
  }

  predicate WordAt(s: Text, i: nat) {
    i + 12 <= |s| && IsSessionWord(s[i..i + 12])
  }

  /** "/", ";" or "?" ends a session segment. */
  predicate Ends(c: byte) {
    c in {47, 59, 63}
  }

  predicate Free(v: Text) {
    forall j :: 0 <= j < |v| ==> !Ends(v[j])
  }

  lemma SessionIsWord(s: Text, i: nat)
    ensures SessionAt(s, i) <==> WordAt(s, i)
  {
    if i + 12 <= |s| {
      var w := s[i..i + 12];
      assert forall j :: 0 <= j < 12 ==> w[j] == s[i + j];
      WordIs(w);
    }
  }

  lemma WordIs(w: Text)
    requires |w| == 12
    ensures IsSessionWord(w) <==> forall j :: 0 <= j < 12 ==> Lower(w[j]) == SESSION[j]
  {
  }

  /** Inside a word no byte ends a segment, so no word straddles a place where one may end. */
  lemma NoStraddle(s: Text, i: nat, j: nat)
    requires WordAt(s, i) && i < j < i + 12
    ensures !Ends(s[j])
  {
    hide IsSessionWord;
    assert s[j] == s[i..i + 12][j - i];
    InsideWord(s[i..i + 12], j - i);
  }

  lemma InsideWord(w: Text, j: nat)
    requires IsSessionWord(w) && 0 < j < 12
    ensures !Ends(w[j])
  {
    assert w[j] == 61 || w[j] >= 65;
  }

  lemma WordInFront(a: Text, b: Text, i: nat)
    requires b == [] || Ends(b[0])
    ensures i < |a| ==> (WordAt(a + b, i) <==> WordAt(a, i))
    ensures i >= |a| ==> (WordAt(a + b, i) <==> WordAt(b, i - |a|))
  {
    hide IsSessionWord, Ends;
    if i >= |a| {
      if i + 12 <= |a + b| {
        assert (a + b)[i..i + 12] == b[i - |a|..i - |a| + 12];
      }
    } else if i + 12 <= |a| {
      assert (a + b)[i..i + 12] == a[i..i + 12];
    } else if WordAt(a + b, i) && b != [] {
      NoStraddle(a + b, i, |a|);
    }
  }

  /** No session word starts in front of n. */
  ghost predicate NoneBefore(s: Text, n: nat) {
    forall i: nat :: i < n ==> !WordAt(s, i)
  }

  lemma FirstIs(s: Text, i: nat)
    requires i <= |s| && (i < |s| ==> WordAt(s, i)) && NoneBefore(s, i)
    ensures FirstSession(s, 0) == i
  {
    hide WordAt, SessionAt;
    var r := FirstSession(s, 0);
    SessionIsWord(s, i);
    SessionIsWord(s, r);
  }

  lemma EndIs(s: Text, i: nat, end: nat)
    requires i <= end <= |s| && (end < |s| ==> Ends(s[end])) && forall j :: i <= j < end ==> !Ends(s[j])
    ensures SegmentEnd(s, i) == end
  {
    assert forall c: byte :: Ends(c) <==> EndsSegment(c);
  }

  lemma CutOnce(s: Text, i: nat, end: nat)
    requires i < |s| && WordAt(s, i) && NoneBefore(s, i)
    requires i + 12 <= end <= |s| && SegmentEnd(s, i + 12) == end
    ensures Stripped(s) == Stripped(s[..i] + s[end..])
  {
    FirstIs(s, i);
    hide WordAt, NoneBefore, FirstSession, SegmentEnd;
  }

  lemma NoSegment(s: Text)
    requires NoneBefore(s, |s|)
    ensures Stripped(s) == s
  {
    FirstIs(s, |s|);
    hide WordAt, NoneBefore, FirstSession;
  }

  lemma NoneInFront(a: Text, b: Text, n: nat)
    requires (b == [] || Ends(b[0])) && NoneBefore(a, |a|) && NoneBefore(b, n)
    ensures NoneBefore(a + b, |a| + n)
  {
    hide WordAt, Ends;
    forall i: nat | i < |a| + n ensures !WordAt(a + b, i) {
      WordInFront(a, b, i);
    }
  }

  lemma WordThere(s: Text, a: Text, tail: Text, session: Text)
    requires s == a + tail && |tail| >= 12 && tail[..12] == session && IsSessionWord(session) && NoneBefore(a, |a|)
    ensures WordAt(s, |a|) && NoneBefore(s, |a|)
  {
    StartsWithEnd(session);
    NoneYet(tail);
    hide WordAt, IsSessionWord, NoneBefore, Ends;
    assert tail[0] == tail[..12][0];
    NoneInFront(a, tail, 0);
    assert s[|a|..|a| + 12] == session;
    IsWord(s, |a|);
  }

  lemma EndThere(s: Text, i: nat, v: Text, b: Text)
    requires i <= |s| && s[i..] == v + b && Free(v) && (b == [] || Ends(b[0]))
    ensures i + |v| <= |s| && SegmentEnd(s, i) == i + |v| && s[i + |v|..] == b
  {
    hide Ends, SegmentEnd;
    var end := i + |v|;
    assert |s| == end + |b|;
    forall j | i <= j < end ensures !Ends(s[j]) {
      assert s[j] == s[i..][j - i] == v[j - i];
    }
    assert b != [] ==> s[end] == s[i..][|v|] == b[0];
    EndIs(s, i, end);
    assert s[end..] == s[i..][|v|..] == b;
  }

  /** One segment: from its ";jsessionid=" up to the next byte that ends it, which stays. */
  lemma StripsSegment(s: Text, a: Text, tail: Text, v: Text, b: Text)
    requires s == a + tail && |tail| >= 12 && tail[12..] == v + b && IsSessionWord(tail[..12])
    requires Free(v) && (b == [] || Ends(b[0])) && NoneBefore(a, |a|)
    ensures Stripped(s) == Stripped(a + b)
  {
    hide WordAt, SegmentEnd, IsSessionWord, NoneBefore, Stripped, Ends, Free;
    WordThere(s, a, tail, tail[..12]);
    assert s[|a| + 12..] == tail[12..] && s[..|a|] == a;
    EndThere(s, |a| + 12, v, b);
    CutOnce(s, |a|, |a| + 12 + |v|);
  }

  lemma NoneYet(s: Text)
    ensures NoneBefore(s, 0)
  {
  }

  lemma IsWord(s: Text, i: nat)
    requires i + 12 <= |s| && IsSessionWord(s[i..i + 12])
    ensures WordAt(s, i)
  {
  }

  lemma WordLength(w: Text)
    requires IsSessionWord(w)
    ensures |w| == 12
  {
  }

  lemma StartsWithEnd(session: Text)
    requires IsSessionWord(session)
    ensures |session| == 12 && Ends(session[0])
  {
  }

  lemma FirstWord(b: Text) returns (i: nat)
    ensures i <= |b| && (i < |b| ==> WordAt(b, i)) && NoneBefore(b, i)
    ensures i < |b| ==> i + 12 <= |b|
  {
    hide IsSessionWord;
    i := FirstSession(b, 0);
    forall j: nat ensures SessionAt(b, j) <==> WordAt(b, j) {
      SessionIsWord(b, j);
    }
  }

  /** Clean text stands in front of whatever happens behind a place where a segment may end. */
  lemma {:induction false} CleanFront(a: Text, b: Text)
    requires (b == [] || Ends(b[0])) && NoneBefore(a, |a|)
    ensures Stripped(a + b) == a + Stripped(b)
    decreases |b|
  {
    hide WordAt, SegmentEnd, NoneBefore, Stripped, Ends;
    var i := FirstWord(b);
    NoneInFront(a, b, i);
    if i == |b| {
      NoSegment(a + b);
      NoSegment(b);
    } else {
      WordInFront(a, b, |a| + i);
      var end := SegmentEnd(b, i + 12);
      CutOnce(b, i, end);
      EndShifts(a, b, i + 12);
      CutOnce(a + b, |a| + i, |a| + end);
      var rest := b[..i] + b[end..];
      assert (a + b)[..|a| + i] + (a + b)[|a| + end..] == a + rest;
      EndEnds(b, i + 12);
      CleanFront(a, rest);
    }
  }

  lemma EndShifts(a: Text, b: Text, i: nat)
    requires i <= |b|
    ensures SegmentEnd(a + b, |a| + i) == |a| + SegmentEnd(b, i)
  {
    var end := SegmentEnd(b, i);
    assert forall c: byte :: Ends(c) <==> EndsSegment(c);
    assert forall j :: 0 <= j < |b| ==> (a + b)[|a| + j] == b[j];
    forall j | |a| + i <= j < |a| + end ensures !Ends((a + b)[j]) {
      assert (a + b)[j] == b[j - |a|];
    }
    EndIs(a + b, |a| + i, |a| + end);
  }

  lemma EndEnds(b: Text, i: nat)
    requires i <= |b|
    ensures SegmentEnd(b, i) < |b| ==> Ends(b[SegmentEnd(b, i)])
  {
  }

  /**
   * What stripping keeps: the text in front of the first session segment and, behind it, what stripping keeps of the text
   * from the next "/", ";" or "?" on. Text without a session segment it keeps whole.
   */
  lemma StrippedKeeps(a: Text, session: Text, v: Text, b: Text)
    requires IsSessionWord(session) && Free(v) && (b == [] || Ends(b[0])) && NoneBefore(a, |a|)
    ensures Stripped(a) == a
    ensures Stripped(a + session + v + b) == a + Stripped(b) == Stripped(a + b)
  {
    hide IsSessionWord, NoneBefore, Stripped, Ends, Free;
    NoSegment(a);
    CleanFront(a, b);
    var tail := session + (v + b);
    WordLength(session);
    assert a + session + v + b == a + tail && tail[..12] == session && tail[12..] == v + b;
    StripsSegment(a + tail, a, tail, v, b);
  }

  // ----- percent-encoding -----

  /** The hexadecimal digits of RFC 3986 section 2.1, either case read, upper case written. */
  lemma HexDigits(c: byte, n: byte)
    requires n < 16
    ensures Unhex(c) == Some(n) <==> c as char == "0123456789ABCDEF"[n] || c as char == "0123456789abcdef"[n]
    ensures UpperHex(n) as char == "0123456789ABCDEF"[n]
  {
  }

  /** The classes of RFC 3986, sections 2.3 and 3.3, in characters. */
  lemma PathBytes(c: byte)
    ensures IsUnreserved(c) <==>
              'A' <= c as char <= 'Z' || 'a' <= c as char <= 'z' || '0' <= c as char <= '9' || c as char in "-._~"
    ensures IsPathByte(c) <==> IsUnreserved(c) || c as char in "!$&'()*+,;=:@/"
  {
  }

  /** What a byte of text, or an escape, stands for: an octet, and whether it may be read as a delimiter. */
  datatype Unit = Unit(octet: byte, plain: bool)

  /** An escape of an unreserved octet means the octet; a byte outside the class means its escape. */
  function Units(s: Text, allowed: Allowed): (us: seq<Unit>)
    decreases |s|
  {
    if s == [] then []
    else if EscapedOctet(s).Some? then [Unit(EscapedOctet(s).value, IsUnreserved(EscapedOctet(s).value))] + Units(s[3..], allowed)
    else [Unit(s[0], allowed(s[0]))] + Units(s[1..], allowed)
  }

  /** The text that says a unit. */
  function Written(u: Unit): (t: Text) {
    if u.plain then [u.octet] else [37, UpperHex(u.octet / 16), UpperHex(u.octet % 16)]
  }

  lemma UnitFirst(u: Unit, rest: Text, allowed: Allowed)
    requires KeepsText(allowed) && (u.plain ==> allowed(u.octet)) && (!u.plain ==> !IsUnreserved(u.octet))
    ensures Units(Written(u) + rest, allowed) == [u] + Units(rest, allowed)
  {
    if u.plain {
      assert ([u.octet] + rest)[1..] == rest;
    } else {
      EscapeIs(u.octet, rest);
      assert (Escape(u.octet) + rest)[3..] == rest;
    }
  }

  /** Re-encoding keeps every octet, and whether it may be read as a delimiter. */
  lemma {:induction false} ReencodedMeans(s: Text, allowed: Allowed)
    requires KeepsText(allowed)
    ensures Units(Reencoded(s, allowed), allowed) == Units(s, allowed)
    decreases |s|
  {
    hide KeepsText, Unhex, UpperHex, IsUnreserved;
    if s != [] {
      ReencodedFirst(s, allowed);
      var u, rest := Units(s, allowed)[0], if EscapedOctet(s).Some? then s[3..] else s[1..];
      ReencodedMeans(rest, allowed);
      UnitFirst(u, Reencoded(rest, allowed), allowed);
    }
  }

  lemma ReencodedFirst(s: Text, allowed: Allowed)
    requires KeepsText(allowed) && s != []
    ensures var u, rest := Units(s, allowed)[0], if EscapedOctet(s).Some? then s[3..] else s[1..];
            && Units(s, allowed) == [u] + Units(rest, allowed)
            && Reencoded(s, allowed) == Written(u) + Reencoded(rest, allowed)
            && (u.plain ==> allowed(u.octet)) && (!u.plain ==> !IsUnreserved(u.octet))
  {
  }

  /** Text that is normally encoded says its units in order, so no two such texts say the same. */
  lemma {:induction false} NormSays(s: Text, t: Text, allowed: Allowed)
    requires KeepsText(allowed) && Norm(s, allowed) && Norm(t, allowed) && Units(s, allowed) == Units(t, allowed)
    ensures s == t
    decreases |s|
  {
    hide KeepsText, Units, Norm;
    if s == [] || t == [] {
      NoUnits(s, allowed);
      NoUnits(t, allowed);
    } else {
      var u, s' := NormFirst(s, allowed);
      var v, t' := NormFirst(t, allowed);
      assert u == Units(s, allowed)[0] == Units(t, allowed)[0] == v;
      assert Units(s', allowed) == Units(s, allowed)[1..] == Units(t', allowed);
      NormSays(s', t', allowed);
    }
  }

  lemma NoUnits(s: Text, allowed: Allowed)
    ensures Units(s, allowed) == [] <==> s == []
  {
  }

  lemma NormFirst(s: Text, allowed: Allowed) returns (u: Unit, rest: Text)
    requires KeepsText(allowed) && Norm(s, allowed) && s != []
    ensures s == Written(u) + rest && |rest| < |s| && Norm(rest, allowed) && Units(s, allowed) == [u] + Units(rest, allowed)
  {
    u := Units(s, allowed)[0];
    rest := if s[0] == PERCENT then s[3..] else s[1..];
    if s[0] == PERCENT {
      assert s == s[..3] + s[3..];
    }
  }

  /**
   * Re-encoding by what it is for: the one normally encoded text, upper-case escapes and none that is not needed, with the
   * same octets and the same delimiters.
   */
  lemma ReencodedIff(s: Text, t: Text, allowed: Allowed)
    requires KeepsText(allowed)
    ensures t == Reencoded(s, allowed) <==> Norm(t, allowed) && Units(t, allowed) == Units(s, allowed)
  {
    ReencodedNorm(s, allowed);
    ReencodedMeans(s, allowed);
    if Norm(t, allowed) && Units(t, allowed) == Units(s, allowed) {
      NormSays(t, Reencoded(s, allowed), allowed);
    }
  }

  // ----- double slashes -----

  /** A slash behind a slash makes no difference. */
  lemma {:induction false} SlashAgain(a: Text, b: Text)
    ensures Collapsed(a + [47, 47] + b) == Collapsed(a + [47] + b)
  {
    if a == [] {
      assert [] + [47, 47] + b == [47, 47] + b && ([47, 47] + b)[1..] == [47] + b == [] + [47] + b;
    } else {
      SlashAgain(a[1..], b);
      assert (a + [47, 47] + b)[1..] == a[1..] + [47, 47] + b && (a + [47] + b)[1..] == a[1..] + [47] + b;
    }
  }
}
