/** What canonicalQuery of urlnorm/urlnorm.go keeps of a query: part by part, in order. */
module UrlQueryLaws {
  import opened Bytes
  import opened UrlPath
  import opened UrlQuery

  // ----- keys -----

  /** A key ends in front of the first "=". */
  lemma KeyStops(key: Text, value: Text)
    requires 61 !in key
    ensures KeyOf(key) == key && KeyOf(key + [61] + value) == key
  {
    KeyBehind(key, []);
    KeyBehind(key, [61] + value);
    assert key + [] == key && key + [61] + value == key + ([61] + value);
    assert KeyOf([61] + value) == [] && KeyOf([]) == [];
  }

  /** Every percent sign has two hexadecimal digits behind it. */
  predicate WellFormed(s: Text) {
    forall i :: 0 <= i < |s| && s[i] == 37 ==> i + 2 < |s| && Unhex(s[i + 1]).Some? && Unhex(s[i + 2]).Some?
  }

  lemma {:induction false} UnescapesIff(s: Text)
    ensures Unescaped(s).Some? <==> WellFormed(s)
  {
    if s != [] {
      FirstFormed(s);
      if EscapedOctet(s).Some? {
        UnescapesIff(s[3..]);
      } else {
        UnescapesIff(s[1..]);
      }
    }
  }

  lemma FirstFormed(s: Text)
    requires s != []
    ensures EscapedOctet(s).Some? ==> (WellFormed(s) <==> WellFormed(s[3..]))
    ensures s[0] != 37 ==> (WellFormed(s) <==> WellFormed(s[1..]))
    ensures EscapedOctet(s).None? && s[0] == 37 ==> !WellFormed(s)
  {
    hide Unhex;
    PercentIsNoDigit();
    if EscapedOctet(s).Some? {
      DropFormed(s, 3);
    } else if s[0] != 37 {
      DropFormed(s, 1);
    }
  }

  lemma PercentIsNoDigit()
    ensures Unhex(37) == None
  {
  }

  lemma DropFormed(s: Text, n: nat)
    requires n <= |s| && forall i :: 0 <= i < n && s[i] == 37 ==> i + 2 < |s| && Unhex(s[i + 1]).Some? && Unhex(s[i + 2]).Some?
    ensures WellFormed(s) <==> WellFormed(s[n..])
  {
    hide Unhex;
    var t := s[n..];
    assert forall i :: 0 <= i < |t| ==> t[i] == s[n + i];
    assert forall i :: n <= i < |s| ==> s[i] == t[i - n];
  }

  /** Decoding goes from left to right: what decodes in front stays decoded. */
  lemma {:induction false} UnescapedConcat(a: Text, b: Text)
    requires Unescaped(a).Some? && Unescaped(b).Some?
    ensures Unescaped(a + b) == Some(Unescaped(a).value + Unescaped(b).value)
  {
    hide Unhex;
    if a == [] {
      assert a + b == b && [] + Unescaped(b).value == Unescaped(b).value;
    } else {
      var n := if EscapedOctet(a).Some? then 3 else 1;
      var x := if n == 3 then EscapedOctet(a).value else if a[0] == 43 then 32 else a[0];
      assert (a + b)[n..] == a[n..] + b && EscapedOctet(a + b) == EscapedOctet(a);
      UnescapedConcat(a[n..], b);
      Behind([x], Unescaped(a[n..]).value, Unescaped(b).value);
    }
  }

  /** A byte stands for itself, "+" for a space, and an escape for its octet. */
  lemma UnescapedOne(c: byte, h: byte, l: byte)
    ensures c !in {37, 43} ==> Unescaped([c]) == Some([c])
    ensures Unescaped([43]) == Some([32])
    ensures Unhex(h).Some? && Unhex(l).Some? ==> Unescaped([37, h, l]) == Some([16 * Unhex(h).value + Unhex(l).value])
  {
    hide Unhex;
    var byte, plus, escape: Text := [c], [43], [37, h, l];
    assert byte[1..] == [] && plus[1..] == [] && escape[3..] == [];
    UnescapeNothing();
    assert [c] + [] == byte && [32] + [] == [32];
    if Unhex(h).Some? && Unhex(l).Some? {
      var octet := 16 * Unhex(h).value + Unhex(l).value;
      assert EscapedOctet(escape) == Some(octet) && [octet] + [] == [octet];
    }
  }

  /** The key the stripping laws see: decoded when every percent sign in it is part of an escape, and raw otherwise. */
  lemma LawKeyIs(key: Text, value: Text)
    requires 61 !in key
    ensures LawKey(key) == LawKey(key + [61] + value)
    ensures if WellFormed(key) then Unescaped(key) == Some(LawKey(key)) else LawKey(key) == key
  {
    hide Unescaped, WellFormed, KeyOf;
    KeyStops(key, value);
    UnescapesIff(key);
  }

  // ----- parts -----

  /** The last part of a query, behind an "&". */
  lemma {:induction false} PartsMore(q: Text, part: Text)
    requires 38 !in part
    ensures Parts(q + [38] + part) == Parts(q) + [part]
  {
    PartsBehind(part, []);
    if q == [] {
      assert ([] + [38] + part)[1..] == part && [] + [38] + part == [38] + part;
    } else {
      assert (q + [38] + part)[1..] == q[1..] + [38] + part;
      PartsMore(q[1..], part);
    }
  }

  lemma {:induction false} KeptMore(parts: seq<Text>, part: Text, strips: Strips)
    ensures KeptParts(parts + [part], strips)
         == KeptParts(parts, strips) + (if part == [] || strips(LawKey(part)) then [] else [Reencoded(part, IsQueryByte)])
  {
    hide Reencoded, LawKey;
    if parts == [] {
      assert [] + [part] == [part] && [part][1..] == [];
      assert KeptParts([], strips) == [];
    } else {
      assert (parts + [part])[1..] == parts[1..] + [part];
      KeptMore(parts[1..], part, strips);
    }
  }

  lemma {:induction false} JoinedMore(parts: seq<Text>, text: Text)
    ensures Joined(parts + [text]) == if parts == [] then text else Joined(parts) + [38] + text
  {
    if |parts| <= 1 {
      assert (parts + [text])[1..] == if parts == [] then [] else [text];
    } else {
      assert (parts + [text])[1..] == parts[1..] + [text];
      JoinedMore(parts[1..], text);
    }
  }

  /** A part the laws drop: nothing at all, or one whose key they strip. */
  predicate Dropped(part: Text, strips: Strips) {
    part == [] || strips(LawKey(part))
  }

  lemma NothingIffNoneKept(q: Text, strips: Strips)
    ensures CanonicalQuery(q, strips) == [] <==> KeptParts(Parts(q), strips) == []
  {
    var kept := KeptParts(Parts(q), strips);
    hide Parts, KeptParts, Reencoded, LawKey;
    PartsSplit(q);
    KeptSolid(Parts(q), strips);
    PartsOfJoined(kept);
  }

  /**
   * The query laws, part by part: a part that is empty or stripped leaves no trace, and any other one goes behind what was
   * kept before it, re-encoded.
   */
  lemma QueryPartByPart(q: Text, part: Text, strips: Strips)
    requires 38 !in part
    ensures CanonicalQuery(part, strips) == if Dropped(part, strips) then [] else Reencoded(part, IsQueryByte)
    ensures var before := CanonicalQuery(q, strips);
            CanonicalQuery(q + [38] + part, strips)
            == if Dropped(part, strips) then before
               else if before == [] then Reencoded(part, IsQueryByte)
               else before + [38] + Reencoded(part, IsQueryByte)
  {
    hide Parts, KeptParts, Joined, Reencoded, LawKey;
    PartsBehind(part, []);
    PartsMore(q, part);
    KeptMore([], part, strips);
    NothingKept(strips);
    KeptMore(Parts(q), part, strips);
    NothingIffNoneKept(q, strips);
    var kept, text := KeptParts(Parts(q), strips), Reencoded(part, IsQueryByte);
    assert [] + [part] == [part] && [] + [text] == [text] && kept + [] == kept;
    JoinedMore([], text);
    JoinedMore(kept, text);
    JoinNothing();
  }

  lemma JoinNothing()
    ensures Joined([]) == []
  {
  }
}
