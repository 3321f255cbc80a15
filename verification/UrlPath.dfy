/** The path laws of urlnorm/urlnorm.go, on bytes: what each does, and what they do together. */
module UrlPath {
  import opened Bytes

  const DOT: byte := 46
  const SLASH: byte := 47
  const SEMICOLON: byte := 59
  const QUESTION: byte := 63
  const PERCENT: byte := 37

  type Text = seq<byte>

  // ----- percent-encoding -----

  function Unhex(c: byte): (r: Option<byte>)
    ensures r.Some? ==> r.value < 16
  {
    if 48 <= c <= 57 then Some(c - 48)
    else if 97 <= c <= 102 then Some(c - 97 + 10)
    else if 65 <= c <= 70 then Some(c - 65 + 10)
    else None
  }

  predicate IsUnreserved(c: byte) {
    97 <= c <= 122 || 65 <= c <= 90 || 48 <= c <= 57 || c == 45 || c == 46 || c == 95 || c == 126
  }

  /** pchar of RFC 3986 and "/": what a path keeps literal. */
  predicate IsPathByte(c: byte) {
    IsUnreserved(c) || c in {33, 36, 38, 39, 40, 41, 42, 43, 44, 59, 61, 58, 64, 47}
  }

  /** Which bytes stay literal. */
  type Allowed = byte -> bool

  /** A class that re-encoding is stable under: unreserved bytes stay, the percent sign never does. */
  ghost predicate KeepsText(allowed: Allowed) {
    !allowed(PERCENT) && forall c: byte :: IsUnreserved(c) ==> allowed(c)
  }

  function UpperHex(n: byte): (c: byte)
    requires n < 16
    ensures Unhex(c) == Some(n)
  {
    if n < 10 then 48 + n else 65 + n - 10
  }

  function Escape(c: byte): (t: Text)
    ensures |t| == 3
  {
    [PERCENT, UpperHex(c / 16), UpperHex(c % 16)]
  }

  /** The octet of an escape at the front of s. */
  function EscapedOctet(s: Text): Option<byte> {
    if |s| > 2 && s[0] == PERCENT && Unhex(s[1]).Some? && Unhex(s[2]).Some? then
      Some(16 * Unhex(s[1]).value + Unhex(s[2]).value)
    else None
  }

  function Octet(oct: byte): Text {
    if IsUnreserved(oct) then [oct] else Escape(oct)
  }

  function Reencoded(s: Text, allowed: Allowed): Text {
    if s == [] then []
    else if EscapedOctet(s).Some? then Octet(EscapedOctet(s).value) + Reencoded(s[3..], allowed)
    else (if allowed(s[0]) then [s[0]] else Escape(s[0])) + Reencoded(s[1..], allowed)
  }

  method Reencode(s: Text, allowed: Allowed) returns (b: Text)
    ensures b == Reencoded(s, allowed)
  {
    b := [];
    var i := 0;
    assert s[0..] == s && [] + Reencoded(s, allowed) == Reencoded(s, allowed);
    while i < |s|
      invariant 0 <= i <= |s|
      invariant Reencoded(s, allowed) == b + Reencoded(s[i..], allowed)
    {
      var c := s[i];
      if c == PERCENT && i + 2 < |s| && Unhex(s[i + 1]).Some? && Unhex(s[i + 2]).Some? {
        var oct := 16 * Unhex(s[i + 1]).value + Unhex(s[i + 2]).value;
        assert s[i..][3..] == s[i + 3..];
        Join3(b, Octet(oct), Reencoded(s[i + 3..], allowed));
        b := b + Octet(oct);
        i := i + 3;
      } else {
        var t := if allowed(c) then [c] else Escape(c);
        assert s[i..][1..] == s[i + 1..];
        Join3(b, t, Reencoded(s[i + 1..], allowed));
        b := b + t;
        i := i + 1;
      }
    }
    assert s[i..] == [];
    assert b + [] == b;
  }

  lemma Join3(a: Text, b: Text, c: Text)
    ensures (a + b) + c == a + (b + c)
  {
  }

  /** Text made of path bytes and of upper-case escapes that are needed. */
  predicate Norm(s: Text, allowed: Allowed) {
    if s == [] then true
    else if s[0] == PERCENT then NeededEscape(s) && Norm(s[3..], allowed)
    else allowed(s[0]) && Norm(s[1..], allowed)
  }

  predicate NeededEscape(s: Text) {
    EscapedOctet(s).Some? && s[..3] == Escape(EscapedOctet(s).value) && !IsUnreserved(EscapedOctet(s).value)
  }

  lemma EscapeIs(c: byte, rest: Text)
    ensures EscapedOctet(Escape(c) + rest) == Some(c) && (Escape(c) + rest)[..3] == Escape(c)
  {
  }

  lemma {:induction false} ReencodedNorm(s: Text, allowed: Allowed)
    requires KeepsText(allowed)
    ensures Norm(Reencoded(s, allowed), allowed)
  {
    if s != [] {
      var tail := if EscapedOctet(s).Some? then Reencoded(s[3..], allowed) else Reencoded(s[1..], allowed);
      if EscapedOctet(s).Some? {
        ReencodedNorm(s[3..], allowed);
        OctetNorm(EscapedOctet(s).value, tail, allowed);
      } else {
        ReencodedNorm(s[1..], allowed);
        if allowed(s[0]) {
          assert ([s[0]] + tail)[1..] == tail;
        } else {
          OctetNorm(s[0], tail, allowed);
        }
      }
    }
  }

  lemma OctetNorm(c: byte, tail: Text, allowed: Allowed)
    requires Norm(tail, allowed) && KeepsText(allowed)
    ensures Norm(Octet(c) + tail, allowed)
  {
    if IsUnreserved(c) {
      assert ([c] + tail)[1..] == tail;
    } else {
      EscapeIs(c, tail);
      assert (Escape(c) + tail)[3..] == tail;
    }
  }

  lemma {:induction false} NormFixed(s: Text, allowed: Allowed)
    requires Norm(s, allowed)
    ensures Reencoded(s, allowed) == s
  {
    if s != [] {
      if s[0] == PERCENT {
        NormFixed(s[3..], allowed);
        assert s == s[..3] + s[3..];
      } else {
        NormFixed(s[1..], allowed);
        assert s == [s[0]] + s[1..];
      }
    }
  }

  lemma {:induction false} NormConcat(a: Text, b: Text, allowed: Allowed)
    requires Norm(a, allowed) && Norm(b, allowed)
    ensures Norm(a + b, allowed)
  {
    if a == [] {
      assert a + b == b;
    } else if a[0] == PERCENT {
      NormConcat(a[3..], b, allowed);
      assert (a + b)[3..] == a[3..] + b && (a + b)[..3] == a[..3];
    } else {
      NormConcat(a[1..], b, allowed);
      assert (a + b)[1..] == a[1..] + b;
    }
  }

  /** An escape has no delimiter in it, so text may be cut in front of one. */
  lemma {:induction false} NormCut(s: Text, i: nat, allowed: Allowed)
    requires Norm(s, allowed) && i <= |s| && (i < |s| ==> Unhex(s[i]).None?)
    ensures Norm(s[..i], allowed) && Norm(s[i..], allowed)
  {
    hide NeededEscape, Unhex;
    if i == 0 {
      assert s[0..] == s;
    } else if s[0] == PERCENT {
      EscapeUncut(s, i);
      NormCut(s[3..], i - 3, allowed);
      assert s[..i][3..] == s[3..][..i - 3] && s[i..] == s[3..][i - 3..];
    } else {
      NormCut(s[1..], i - 1, allowed);
      assert s[..i][1..] == s[1..][..i - 1] && s[i..] == s[1..][i - 1..];
    }
  }

  lemma EscapeUncut(s: Text, i: nat)
    requires NeededEscape(s) && 0 < i <= |s| && (i < |s| ==> Unhex(s[i]).None?)
    ensures 3 <= i && NeededEscape(s[..i]) && (i < |s| ==> s[3..][i - 3] == s[i])
  {
    assert s[..i][..3] == s[..3];
  }

  // ----- session segments -----

  /** ";jsessionid=" in ASCII. */
  const SESSION: Text := [59, 106, 115, 101, 115, 115, 105, 111, 110, 105, 100, 61]

  function Lower(c: byte): byte {
    if 65 <= c <= 90 then c + 32 else c
  }

  predicate SessionAt(s: Text, i: nat) {
    i + 12 <= |s| && forall j :: 0 <= j < 12 ==> Lower(s[i + j]) == SESSION[j]
  }

  /** No session segment is left. */
  ghost predicate Clean(s: Text) {
    forall i: nat :: !SessionAt(s, i)
  }

  predicate EndsSegment(c: byte) {
    c == SLASH || c == SEMICOLON || c == QUESTION
  }

  /** The first session segment from i on, or the end. */
  function FirstSession(s: Text, i: nat): (r: nat)
    requires i <= |s|
    ensures i <= r <= |s|
    ensures r < |s| ==> SessionAt(s, r)
    ensures forall j: nat :: i <= j < r ==> !SessionAt(s, j)
    decreases |s| - i
  {
    if i == |s| || SessionAt(s, i) then i else FirstSession(s, i + 1)
  }

  function SegmentEnd(s: Text, i: nat): (r: nat)
    requires i <= |s|
    ensures i <= r <= |s| && (r < |s| ==> EndsSegment(s[r]))
    ensures forall j :: i <= j < r ==> !EndsSegment(s[j])
    decreases |s| - i
  {
    if i == |s| || EndsSegment(s[i]) then i else SegmentEnd(s, i + 1)
  }

  function Stripped(s: Text): Text
    decreases |s|
  {
    var i := FirstSession(s, 0);
    if i == |s| then s
    else
      var end := SegmentEnd(s, i + 12);
      Stripped(s[..i] + s[end..])
  }

  ghost predicate IsLower(lower: Text, path: Text) {
    |lower| == |path| && forall k :: 0 <= k < |path| ==> lower[k] == Lower(path[k])
  }

  method StripSessionSegments(s: Text) returns (path: Text)
    ensures path == Stripped(s)
  {
    hide SessionAt, Lower, IsLower, EndsSegment;
    path := s;
    var lower := LowerOf(s);
    while true
      invariant Stripped(path) == Stripped(s)
      invariant IsLower(lower, path)
      decreases |path|
    {
      var i := IndexOfSession(path, lower);
      if i == |path| {
        return;
      }
      SessionFits(path, i);
      var end := EndOfSession(path, i + 12);
      CutLower(lower, path, i, end);
      path, lower := path[..i] + path[end..], lower[..i] + lower[end..];
    }
  }

  method LowerOf(s: Text) returns (lower: Text)
    ensures IsLower(lower, s)
  {
    lower := seq(|s|, i requires 0 <= i < |s| => Lower(s[i]));
  }

  lemma SessionFits(s: Text, i: nat)
    requires SessionAt(s, i)
    ensures i + 12 <= |s|
  {
  }

  lemma CutLower(lower: Text, path: Text, i: nat, end: nat)
    requires IsLower(lower, path) && i <= end <= |path|
    ensures |lower| == |path| && IsLower(lower[..i] + lower[end..], path[..i] + path[end..])
  {
  }

  method EndOfSession(path: Text, i: nat) returns (end: nat)
    requires i <= |path|
    ensures end == SegmentEnd(path, i)
  {
    end := i;
    while end < |path| && !EndsSegment(path[end])
      invariant i <= end <= |path|
      invariant SegmentEnd(path, i) == SegmentEnd(path, end)
    {
      end := end + 1;
    }
  }

  /** strings.Index(lower, ";jsessionid="), with the length for "not there". */
  method IndexOfSession(path: Text, lower: Text) returns (i: nat)
    requires IsLower(lower, path)
    ensures i == FirstSession(path, 0)
  {
    i := 0;
    while i < |path|
      invariant i <= |path| && FirstSession(path, 0) == FirstSession(path, i)
    {
      if i + 12 <= |lower| && lower[i..i + 12] == SESSION {
        IsHere(path, lower, i);
        return;
      }
      NotHere(path, lower, i);
      i := i + 1;
    }
  }

  lemma IsHere(path: Text, lower: Text, i: nat)
    requires IsLower(lower, path)
    requires i + 12 <= |lower| && lower[i..i + 12] == SESSION
    ensures SessionAt(path, i)
  {
    forall j | 0 <= j < 12 ensures Lower(path[i + j]) == SESSION[j] {
      assert lower[i..i + 12][j] == SESSION[j];
    }
  }

  lemma NotHere(path: Text, lower: Text, i: nat)
    requires IsLower(lower, path)
    requires !(i + 12 <= |lower| && lower[i..i + 12] == SESSION)
    ensures !SessionAt(path, i)
  {
    if i + 12 <= |lower| {
      var j :| 0 <= j < 12 && lower[i..i + 12][j] != SESSION[j];
      assert lower[i + j] != SESSION[j];
    }
  }

  lemma {:induction false} StrippedClean(s: Text)
    ensures Clean(Stripped(s))
    decreases |s|
  {
    var i := FirstSession(s, 0);
    if i < |s| {
      StrippedClean(s[..i] + s[SegmentEnd(s, i + 12)..]);
    }
  }

  lemma CleanFixed(s: Text)
    requires Clean(s)
    ensures Stripped(s) == s
  {
    assert FirstSession(s, 0) == |s|;
  }

  lemma {:induction false} StrippedNorm(s: Text, allowed: Allowed)
    requires Norm(s, allowed)
    ensures Norm(Stripped(s), allowed)
    decreases |s|
  {
    var i := FirstSession(s, 0);
    if i < |s| {
      var end := SegmentEnd(s, i + 12);
      SessionStart(s, i);
      NormCut(s, i, allowed);
      NormCut(s, end, allowed);
      NormConcat(s[..i], s[end..], allowed);
      StrippedNorm(s[..i] + s[end..], allowed);
    }
  }

  lemma SessionStart(s: Text, i: nat)
    requires SessionAt(s, i)
    ensures s[i] == SEMICOLON
  {
    assert Lower(s[i + 0]) == SESSION[0];
  }

  // ----- double slashes -----

  function Collapsed(s: Text): Text {
    if |s| < 2 then s
    else if s[0] == SLASH && s[1] == SLASH then Collapsed(s[1..])
    else [s[0]] + Collapsed(s[1..])
  }

  predicate NoDouble(s: Text) {
    forall i :: 0 <= i < |s| - 1 ==> !(s[i] == SLASH && s[i + 1] == SLASH)
  }

  method CollapseSlashes(path: Text) returns (b: Text)
    ensures b == Collapsed(path)
  {
    b := [];
    var prev: byte := 0;
    var i := 0;
    assert path[0..] == path && [] + Collapsed(path) == Collapsed(path);
    if path != [] {
      RestIsCollapsed(path[0], path[1..]);
      assert path == [path[0]] + path[1..];
    }
    while i < |path|
      invariant 0 <= i <= |path|
      invariant prev == if i == 0 then 0 else path[i - 1]
      invariant Collapsed(path) == b + Rest(prev, path[i..])
    {
      assert path[i..][1..] == path[i + 1..];
      if path[i] == SLASH && prev == SLASH {
        i := i + 1;
        continue;
      }
      Join3(b, [path[i]], Rest(path[i], path[i + 1..]));
      b := b + [path[i]];
      prev := path[i];
      i := i + 1;
    }
    assert path[i..] == [];
    assert b + [] == b;
  }

  /** What is still to come of the collapsed text, after a byte that has been written. */
  function Rest(prev: byte, s: Text): Text
    decreases |s|
  {
    if s == [] then []
    else if prev == SLASH && s[0] == SLASH then Rest(SLASH, s[1..])
    else [s[0]] + Rest(s[0], s[1..])
  }

  lemma {:induction false} RestIsCollapsed(prev: byte, s: Text)
    ensures [prev] + Rest(prev, s) == Collapsed([prev] + s)
    decreases |s|
  {
    var t := [prev] + s;
    if s == [] {
      assert t == [prev];
    } else {
      assert t[1..] == s && s == [s[0]] + s[1..];
      RestIsCollapsed(s[0], s[1..]);
      if prev == SLASH && s[0] == SLASH {
        assert [prev] + Rest(prev, s) == [s[0]] + Rest(s[0], s[1..]);
      }
    }
  }
}
