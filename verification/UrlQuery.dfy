/** The query laws of urlnorm/urlnorm.go: canonicalQuery, and exactly when it leaves its own result alone. */
module UrlQuery {
  import opened Bytes
  import opened UrlPath

  const AMPERSAND: byte := 38
  const PLUS: byte := 43
  const EQUALS: byte := 61
  const SPACE: byte := 32

  predicate IsQueryByte(c: byte) {
    IsPathByte(c) || c == QUESTION
  }

  /** Whether a decoded key names a tracking or session parameter once lower-cased. */
  type Strips = Text -> bool

  // ----- keys -----

  /** What stands before the first "=". */
  function KeyOf(part: Text): Text {
    if part == [] || part[0] == EQUALS then [] else [part[0]] + KeyOf(part[1..])
  }

  /** url.QueryUnescape: a percent sign without two hex digits behind it is an error. */
  function Unescaped(s: Text): Option<Text> {
    if s == [] then Some([])
    else if EscapedOctet(s).Some? then
      match Unescaped(s[3..])
      case None => None
      case Some(t) => Some([EscapedOctet(s).value] + t)
    else if s[0] == PERCENT then None
    else
      match Unescaped(s[1..])
      case None => None
      case Some(t) => Some([if s[0] == PLUS then SPACE else s[0]] + t)
  }

  /** The same, with a malformed percent sign standing for itself. */
  function Lenient(s: Text): Text {
    if s == [] then []
    else if EscapedOctet(s).Some? then [EscapedOctet(s).value] + Lenient(s[3..])
    else [if s[0] == PLUS then SPACE else s[0]] + Lenient(s[1..])
  }

  /** The key that the stripping laws look at: decoded if it can be, raw otherwise. */
  function LawKey(part: Text): Text {
    var key := KeyOf(part);
    match Unescaped(key)
    case None => key
    case Some(k) => k
  }

  // ----- the names that are stripped -----

  const STRIPPED: set<string> := {
    "gclid", "gclsrc", "dclid", "gbraid", "wbraid", "srsltid", "fbclid", "igshid", "msclkid", "twclid", "ttclid",
    "li_fat_id", "yclid", "mc_cid", "mc_eid", "vero_id", "oly_anon_id", "oly_enc_id", "_ga", "_gl", "s_cid",
    "phpsessid", "sessionid", "session_id", "sess_id", "cfid", "cftoken", "zenid", "oscsid"
  }

  /** A key in lower case, as characters. */
  function Lowered(key: Text): (s: string)
    ensures |s| == |key|
  {
    seq(|key|, i requires 0 <= i < |key| => Lower(key[i]) as char)
  }

  /** strippedParam of the lower-cased key. */
  predicate StrippedParam(key: Text) {
    Lowered(key) in STRIPPED || "utm_" <= Lowered(key) || "aspsessionid" <= Lowered(key)
  }

  lemma RawIsKept()
    ensures !StrippedParam(RAW)
  {
    var s := Lowered(RAW);
    assert s[0] == '%';
    assert forall t :: t in STRIPPED ==> t != [] && t[0] != '%';
  }

  lemma DecodedIsStripped()
    ensures StrippedParam(DECODED)
  {
    var s := Lowered(DECODED);
    assert s[..4] == "utm_";
  }

  // ----- the law -----

  function KeptParts(parts: seq<Text>, strips: Strips): seq<Text> {
    if parts == [] then []
    else
      var rest := KeptParts(parts[1..], strips);
      if parts[0] == [] || strips(LawKey(parts[0])) then rest else [Reencoded(parts[0], IsQueryByte)] + rest
  }

  function Parts(q: Text): (parts: seq<Text>)
    ensures parts != []
  {
    if q == [] then [[]]
    else
      var r := Parts(q[1..]);
      if q[0] == AMPERSAND then [[]] + r else [[q[0]] + r[0]] + r[1..]
  }

  function Joined(parts: seq<Text>): Text {
    if parts == [] then [] else if |parts| == 1 then parts[0] else parts[0] + [AMPERSAND] + Joined(parts[1..])
  }

  function CanonicalQuery(q: Text, strips: Strips): Text {
    Joined(KeptParts(Parts(q), strips))
  }

  lemma KeptNext(parts: seq<Text>, strips: Strips, i: nat)
    requires i < |parts|
    ensures KeptParts(parts[i..], strips)
         == if parts[i] == [] || strips(LawKey(parts[i])) then KeptParts(parts[i + 1..], strips)
            else [Reencoded(parts[i], IsQueryByte)] + KeptParts(parts[i + 1..], strips)
  {
    hide Reencoded, LawKey;
    assert parts[i..][0] == parts[i] && parts[i..][1..] == parts[i + 1..];
  }

  lemma Behind<T>(a: seq<T>, b: seq<T>, c: seq<T>)
    ensures a + (b + c) == (a + b) + c
  {
  }

  /** canonicalQuery. */
  method CanonicalizeQuery(rawQuery: Text, strips: Strips) returns (q: Text)
    ensures q == CanonicalQuery(rawQuery, strips)
  {
    hide Reencoded, LawKey;
    if rawQuery == [] {
      return [];
    }
    var parts := Parts(rawQuery);
    var kept: seq<Text> := [];
    for i := 0 to |parts|
      invariant KeptParts(parts, strips) == kept + KeptParts(parts[i..], strips)
    {
      hide KeptParts;
      var part := parts[i];
      KeptNext(parts, strips, i);
      if part == [] {
        continue;
      }
      if strips(LawKey(part)) {
        continue;
      }
      var text := Reencode(part, IsQueryByte);
      Behind(kept, [text], KeptParts(parts[i + 1..], strips));
      kept := kept + [text];
    }
    assert kept + [] == kept;
    return Joined(kept);
  }

  // ----- what re-encoding does to a part -----

  lemma QueryKeepsText()
    ensures KeepsText(IsQueryByte) && IsQueryByte(PLUS) && IsQueryByte(EQUALS) && IsQueryByte(AMPERSAND)
  {
  }

  lemma {:induction false} KeyEscape(s: Text)
    ensures EscapedOctet(s).Some? ==> |KeyOf(s)| >= 3 && KeyOf(s)[..3] == s[..3] && KeyOf(s)[3..] == KeyOf(s[3..])
    ensures EscapedOctet(KeyOf(s)).Some? <==> EscapedOctet(s).Some?
    ensures EscapedOctet(s).Some? ==> EscapedOctet(KeyOf(s)) == EscapedOctet(s)
  {
    if |s| > 2 {
      assert s[1..][1..] == s[2..] && s[1..][0] == s[1] && s[2..][0] == s[2] && s[2..][1..] == s[3..];
      assert KeyOf(s[2..]) == if s[2] == EQUALS then [] else [s[2]] + KeyOf(s[3..]);
      assert KeyOf(s[1..]) == if s[1] == EQUALS then [] else [s[1]] + KeyOf(s[2..]);
    }
    KeyIsPrefix(s);
  }

  lemma {:induction false} KeyIsPrefix(s: Text)
    ensures KeyOf(s) <= s
  {
    if s != [] {
      KeyIsPrefix(s[1..]);
      assert s == [s[0]] + s[1..];
    }
  }

  lemma {:induction false} KeyBehind(t: Text, rest: Text)
    requires EQUALS !in t
    ensures KeyOf(t + rest) == t + KeyOf(rest)
  {
    if t == [] {
      assert t + rest == rest;
    } else {
      assert (t + rest)[1..] == t[1..] + rest;
      KeyBehind(t[1..], rest);
    }
  }

  /** A byte that re-encoding writes for one that is neither "=" nor "&" is neither of them either. */
  lemma OctetClean(c: byte)
    ensures EQUALS !in Escape(c) && AMPERSAND !in Escape(c) && EQUALS !in Octet(c) && AMPERSAND !in Octet(c)
  {
  }

  /** The key of a re-encoded part is the re-encoded key. */
  lemma {:induction false} KeyOfReencoded(s: Text)
    ensures KeyOf(Reencoded(s, IsQueryByte)) == Reencoded(KeyOf(s), IsQueryByte)
  {
    hide Octet, Escape, Unhex;
    KeyEscape(s);
    if s != [] {
      if EscapedOctet(s).Some? {
        var oct := EscapedOctet(s).value;
        KeyOfReencoded(s[3..]);
        OctetClean(oct);
        KeyBehind(Octet(oct), Reencoded(s[3..], IsQueryByte));
      } else {
        KeyOfReencoded(s[1..]);
        var t := if IsQueryByte(s[0]) then [s[0]] else Escape(s[0]);
        QueryKeepsText();
        if s[0] != EQUALS {
          OctetClean(s[0]);
          KeyBehind(t, Reencoded(s[1..], IsQueryByte));
          assert KeyOf(s)[1..] == KeyOf(s[1..]);
        }
      }
    }
  }

  lemma UnescapeOctet(c: byte, rest: Text)
    requires c != PERCENT
    ensures c != PLUS ==> (Unescaped([c] + rest) == match Unescaped(rest) case None => None case Some(t) => Some([c] + t))
    ensures c == PLUS ==> (Unescaped([c] + rest) == match Unescaped(rest) case None => None case Some(t) => Some([SPACE] + t))
  {
    assert ([c] + rest)[1..] == rest;
  }

  lemma UnescapeEscape(c: byte, rest: Text)
    ensures Unescaped(Escape(c) + rest) == match Unescaped(rest) case None => None case Some(t) => Some([c] + t)
  {
    EscapeIs(c, rest);
    assert (Escape(c) + rest)[3..] == rest;
  }

  /** A re-encoded key always decodes: to what the raw key says when malformed escapes stand for themselves. */
  lemma {:induction false} ReencodedDecodes(k: Text)
    ensures Unescaped(Reencoded(k, IsQueryByte)) == Some(Lenient(k))
  {
    hide Escape, Unhex, Unescaped;
    UnescapeNothing();
    if k != [] {
      QueryKeepsText();
      if EscapedOctet(k).Some? {
        var oct := EscapedOctet(k).value;
        var rest := Reencoded(k[3..], IsQueryByte);
        ReencodedDecodes(k[3..]);
        UnescapeEscape(oct, rest);
        if IsUnreserved(oct) {
          UnescapeOctet(oct, rest);
        }
      } else {
        var rest := Reencoded(k[1..], IsQueryByte);
        ReencodedDecodes(k[1..]);
        UnescapeEscape(k[0], rest);
        if IsQueryByte(k[0]) {
          UnescapeOctet(k[0], rest);
        }
      }
    }
  }

  lemma UnescapeNothing()
    ensures Unescaped([]) == Some([])
  {
  }

  lemma {:induction false} WellFormedIsLenient(k: Text)
    ensures Unescaped(k).Some? ==> Unescaped(k).value == Lenient(k)
  {
    if k != [] {
      if EscapedOctet(k).Some? {
        WellFormedIsLenient(k[3..]);
      } else {
        WellFormedIsLenient(k[1..]);
      }
    }
  }

  // ----- the second pass -----

  /** A part whose key has a malformed escape, stays on the first pass, and is stripped once the key decodes. */
  predicate Resurfaces(part: Text, strips: Strips) {
    var key := KeyOf(part);
    part != [] && Unescaped(key).None? && !strips(key) && strips(Lenient(key))
  }

  lemma ReencodedNotEmpty(s: Text)
    ensures s != [] ==> Reencoded(s, IsQueryByte) != []
  {
  }

  /** What the laws do with a part they have already let through. */
  lemma SecondLook(part: Text, strips: Strips)
    requires part != [] && !strips(LawKey(part))
    ensures var text := Reencoded(part, IsQueryByte);
            && text != [] && Reencoded(text, IsQueryByte) == text
            && (strips(LawKey(text)) <==> Resurfaces(part, strips))
  {
    hide Reencoded, Lenient, Unescaped;
    var key, text := KeyOf(part), Reencoded(part, IsQueryByte);
    ReencodedNotEmpty(part);
    QueryKeepsText();
    ReencodedNorm(part, IsQueryByte);
    NormFixed(text, IsQueryByte);
    KeyOfReencoded(part);
    ReencodedDecodes(key);
    WellFormedIsLenient(key);
  }

  lemma {:induction false} KeptAgain(parts: seq<Text>, strips: Strips)
    ensures |KeptParts(KeptParts(parts, strips), strips)| <= |KeptParts(parts, strips)|
    ensures KeptParts(KeptParts(parts, strips), strips) == KeptParts(parts, strips)
       <==> forall part :: part in parts ==> !Resurfaces(part, strips)
  {
    hide Reencoded, LawKey, Resurfaces;
    if parts != [] {
      var part, rest := parts[0], KeptParts(parts[1..], strips);
      KeptAgain(parts[1..], strips);
      assert parts == [part] + parts[1..];
      if part == [] || strips(LawKey(part)) {
        NeverResurfaces(part, strips);
      } else {
        SecondLook(part, strips);
        var text := Reencoded(part, IsQueryByte);
        assert ([text] + rest)[1..] == rest;
        assert ([text] + KeptParts(rest, strips))[1..] == KeptParts(rest, strips);
      }
    }
  }

  lemma NeverResurfaces(part: Text, strips: Strips)
    requires part == [] || strips(LawKey(part))
    ensures !Resurfaces(part, strips)
  {
  }

  // ----- parts and text -----

  /** Parts that no "&" splits and that are not empty. */
  ghost predicate Solid(parts: seq<Text>) {
    forall i :: 0 <= i < |parts| ==> parts[i] != [] && AMPERSAND !in parts[i]
  }

  lemma {:induction false} PartsBehind(t: Text, rest: Text)
    requires AMPERSAND !in t
    ensures Parts(t + [AMPERSAND] + rest) == [t] + Parts(rest)
    ensures Parts(t) == [t]
  {
    if t == [] {
      assert t + [AMPERSAND] + rest == [AMPERSAND] + rest && ([AMPERSAND] + rest)[1..] == rest;
    } else {
      assert (t + [AMPERSAND] + rest)[1..] == t[1..] + [AMPERSAND] + rest;
      PartsBehind(t[1..], rest);
      assert t == [t[0]] + t[1..];
    }
  }

  lemma {:induction false} PartsOfJoined(parts: seq<Text>)
    requires Solid(parts)
    ensures parts != [] ==> Parts(Joined(parts)) == parts && Joined(parts) != []
  {
    if parts != [] {
      PartsOfJoined(parts[1..]);
      PartsBehind(parts[0], Joined(parts[1..]));
      assert parts == [parts[0]] + parts[1..];
    }
  }

  lemma {:induction false} PartsSplit(q: Text)
    ensures forall part :: part in Parts(q) ==> AMPERSAND !in part
  {
    if q != [] {
      PartsSplit(q[1..]);
      var r := Parts(q[1..]);
      assert r == [r[0]] + r[1..];
    }
  }

  lemma {:induction false} ReencodedWhole(s: Text)
    requires AMPERSAND !in s
    ensures AMPERSAND !in Reencoded(s, IsQueryByte)
  {
    hide Escape, Octet, Unhex;
    if s != [] {
      if EscapedOctet(s).Some? {
        OctetClean(EscapedOctet(s).value);
        ReencodedWhole(s[3..]);
      } else {
        OctetClean(s[0]);
        ReencodedWhole(s[1..]);
      }
    }
  }

  lemma {:induction false} KeptSolid(parts: seq<Text>, strips: Strips)
    requires forall i :: 0 <= i < |parts| ==> AMPERSAND !in parts[i]
    ensures Solid(KeptParts(parts, strips))
  {
    hide Reencoded, LawKey;
    if parts != [] {
      KeptSolid(parts[1..], strips);
      ReencodedWhole(parts[0]);
      ReencodedNotEmpty(parts[0]);
    }
  }

  lemma PartsOfNothing(strips: Strips)
    ensures KeptParts(Parts([]), strips) == [] && Joined([]) == []
  {
    var one := Parts([]);
    assert one == [[]] && one[1..] == [];
  }

  /**
   * The query laws leave their own result alone if and only if no part resurfaces: no key with a malformed escape is
   * kept raw although, with the malformed escapes standing for themselves, it names a stripped parameter.
   */
  lemma QueryIdempotentIff(q: Text, strips: Strips)
    ensures CanonicalQuery(CanonicalQuery(q, strips), strips) == CanonicalQuery(q, strips)
       <==> forall part :: part in Parts(q) ==> !Resurfaces(part, strips)
  {
    hide KeptParts, Parts, Joined, Resurfaces;
    var kept := KeptParts(Parts(q), strips);
    var again := KeptParts(kept, strips);
    PartsSplit(q);
    KeptSolid(Parts(q), strips);
    KeptAgain(Parts(q), strips);
    PartsOfJoined(kept);
    PartsOfNothing(strips);
    if kept != [] {
      forall i | 0 <= i < |kept| ensures AMPERSAND !in kept[i] {
      }
      KeptSolid(kept, strips);
      PartsOfJoined(again);
    } else {
      NothingKept(strips);
    }
  }

  lemma NothingKept(strips: Strips)
    ensures KeptParts([], strips) == []
  {
  }

  /** "%75tm_%zz" and what it decodes to, "utm_%zz" */
  const RAW: Text := [37, 55, 53, 116, 109, 95, 37, 122, 122]
  const DECODED: Text := [117, 116, 109, 95, 37, 122, 122]

  /** One such query: a tracking key behind a malformed escape survives the first pass and not the second. */
  lemma QueryNotIdempotent()
    ensures CanonicalQuery(CanonicalQuery(RAW, StrippedParam), StrippedParam) != CanonicalQuery(RAW, StrippedParam)
  {
    hide CanonicalQuery, StrippedParam;
    PartsBehind(RAW, []);
    RawKey();
    RawIsKept();
    DecodedIsStripped();
    assert Resurfaces(RAW, StrippedParam) && RAW in Parts(RAW);
    QueryIdempotentIff(RAW, StrippedParam);
  }

  lemma LiteralStep(c: byte, rest: Text)
    requires c != PERCENT && c != PLUS
    ensures Lenient([c] + rest) == [c] + Lenient(rest) && (Unescaped(rest) == None ==> Unescaped([c] + rest) == None)
  {
    assert ([c] + rest)[1..] == rest;
  }

  /** Literal bytes in front change nothing behind them. */
  lemma {:induction false} LiteralFront(t: Text, rest: Text)
    requires PERCENT !in t && PLUS !in t
    ensures Lenient(t + rest) == t + Lenient(rest) && (Unescaped(rest) == None ==> Unescaped(t + rest) == None)
  {
    hide Lenient, Unescaped;
    if t == [] {
      assert t + rest == rest;
    } else {
      LiteralFront(t[1..], rest);
      LiteralStep(t[0], t[1..] + rest);
      assert t + rest == [t[0]] + (t[1..] + rest);
      assert t + Lenient(rest) == [t[0]] + (t[1..] + Lenient(rest));
    }
  }

  lemma StrayPercent()
    ensures Unescaped([37, 122, 122]) == None && Lenient([37, 122, 122]) == [37, 122, 122]
  {
    hide Unhex;
    var tail: Text := [37, 122, 122];
    assert Unhex(122) == None by { NotHex(); }
    assert EscapedOctet(tail) == None && tail[1..] == [122, 122];
    LiteralFront([122, 122], []);
    assert [122, 122] + [] == [122, 122];
  }

  lemma NotHex()
    ensures Unhex(122) == None
  {
  }

  lemma FrontEscape(s: Text, oct: byte, rest: Text)
    requires EscapedOctet(s) == Some(oct) && s[3..] == rest
    ensures Lenient(s) == [oct] + Lenient(rest) && (Unescaped(rest) == None ==> Unescaped(s) == None)
  {
  }

  lemma RawKey()
    ensures KeyOf(RAW) == RAW && Unescaped(RAW) == None && Lenient(RAW) == DECODED
  {
    hide KeyOf, Unescaped, Lenient;
    KeyBehind(RAW, []);
    KeyOfNothing();
    assert RAW + [] == RAW;
    StrayPercent();
    var name, tail: Text := [116, 109, 95], [37, 122, 122];
    LiteralFront(name, tail);
    assert RAW[3..] == name + tail;
    RawOctet();
    FrontEscape(RAW, 117, name + tail);
    assert DECODED == [117] + (name + tail);
  }

  lemma RawOctet()
    ensures EscapedOctet(RAW) == Some(117)
  {
  }

  lemma KeyOfNothing()
    ensures KeyOf([]) == []
  {
  }
}
