/** The fixed 32-byte dictionary entries of hotfmt/dict.go. */
module DictEntries {
  import opened Bytes
  import opened Cursor

  const MAX_U48: int := 0xFFFF_FFFF_FFFF

  /** One term's entry: where its postings lie, or up to four of them inline. */
  datatype Entry = Entry(df: u32, cf: nat, postingsOff: nat, postingsLen: u32, skipOff: nat, inline: seq<InlinePosting>)

  datatype DictError =
    | ZeroDf | NotInlined | BandOffsets | InlineOrder | BadInline | Inlined | CfBelowDf | TooWide
    | TermLength | TermOrder | NoTerms
    | BandShort | BlockCount | IndexOutside | IndexTruncated | IndexTerm | IndexOrder | FirstBlock | BlockOutside | IndexTrailing
    | BlockTruncated | TermMalformed | NotCanonical | FirstDisagrees | BlockSmall | BadEntry | NotDense

  predicate GoodInline(ps: seq<InlinePosting>) {
    && (forall i, j :: 0 <= i < j < |ps| ==> ps[i].docid < ps[j].docid)
    && (forall i :: 0 <= i < |ps| ==> ps[i].tf != 0 && 1 <= ps[i].mask <= 0x0F)
  }

  predicate ValidEntry(e: Entry) {
    && e.df != 0
    && (if e.df <= 4 then
          |e.inline| == e.df && e.cf == 0 && e.postingsOff == 0 && e.postingsLen == 0 && e.skipOff == 0 && GoodInline(e.inline)
        else
          e.inline == [] && e.df <= e.cf <= MAX_U48 && e.postingsOff <= MAX_U48 && e.skipOff <= MAX_U48)
  }

  /** validate: no complaint exactly for valid entries. */
  method Validate(e: Entry) returns (bad: Option<DictError>)
    ensures bad == None <==> ValidEntry(e)
  {
    if e.df == 0 {
      return Some(ZeroDf);
    }
    if e.df <= 4 {
      if |e.inline| != e.df {
        return Some(NotInlined);
      }
      if e.cf != 0 || e.postingsOff != 0 || e.postingsLen != 0 || e.skipOff != 0 {
        return Some(BandOffsets);
      }
      for i := 0 to |e.inline|
        invariant GoodInline(e.inline[..i])
      {
        var p := e.inline[i];
        if i > 0 && p.docid <= e.inline[i - 1].docid {
          return Some(InlineOrder);
        }
        if p.tf == 0 || p.mask == 0 || p.mask > 0x0F {
          return Some(BadInline);
        }
        InlineGrows(e.inline, i);
      }
      assert e.inline[..|e.inline|] == e.inline;
      return None;
    }
    if |e.inline| != 0 {
      return Some(Inlined);
    }
    if e.cf < e.df {
      return Some(CfBelowDf);
    }
    if e.cf > MAX_U48 || e.postingsOff > MAX_U48 || e.skipOff > MAX_U48 {
      return Some(TooWide);
    }
    return None;
  }

  lemma InlineGrows(ps: seq<InlinePosting>, i: nat)
    requires i < |ps| && GoodInline(ps[..i]) && (i > 0 ==> ps[i].docid > ps[i - 1].docid)
    requires ps[i].tf != 0 && 1 <= ps[i].mask <= 0x0F
    ensures GoodInline(ps[..i + 1])
  {
    var a, b := ps[..i], ps[..i + 1];
    assert forall j :: 0 <= j < i ==> b[j] == a[j];
    if i > 0 {
      forall j | 0 <= j < i ensures b[j].docid < b[i].docid {
        assert j < i - 1 ==> a[j].docid < a[i - 1].docid;
      }
    }
  }

  // ----- bytes -----

  function SlotBytes(p: InlinePosting): (bs: seq<byte>)
    ensures |bs| == 6
  {
    LE(4, p.docid) + [p.tf, p.mask]
  }

  function Slots(ps: seq<InlinePosting>): (bs: seq<byte>)
    ensures |bs| == 6 * |ps|
  {
    if ps == [] then [] else Slots(ps[..|ps| - 1]) + SlotBytes(ps[|ps| - 1])
  }

  /** Fixed-size for every entry, valid or not. */
  function EntryBytes(e: Entry): (bs: seq<byte>)
    requires |e.inline| <= 4
    ensures |bs| == 32
  {
    if e.inline != [] then
      LE(4, e.df) + (Slots(e.inline) + Zeros(24 - 6 * |e.inline|)) + [1, 0, 0, 0]
    else
      LE(4, e.df) + LE(6, e.cf) + LE(6, e.postingsOff) + LE(4, e.postingsLen) + LE(6, e.skipOff) + [0, 0, 0, 0, 0, 0]
  }

  /** A 48-bit field at the front of data. */
  function U48(data: seq<byte>): nat
    requires |data| >= 6
  {
    FromLE(data[..6])
  }

  function SlotAt(b: seq<byte>, i: nat): InlinePosting
    requires 6 * i + 10 <= |b|
  {
    InlinePosting(U32(b[6 * i + 4..]), b[6 * i + 8], b[6 * i + 9])
  }

  /** parseDictEntryInto: flags and padding, the fields, spare bytes, and the entry's own validity. */
  function EntryOf(b: seq<byte>): Option<Entry>
    requires |b| == 32
  {
    if b[28] > 1 || b[29] != 0 || b[30] != 0 || b[31] != 0 then None
    else
      var df := U32(b);
      if b[28] == 1 then
        if df == 0 || df > 4 || exists k :: 4 + 6 * df <= k < 28 && b[k] != 0 then None
        else Checked(Entry(df, 0, 0, 0, 0, seq(df, i requires 0 <= i < df => SlotAt(b, i))))
      else if b[26] != 0 || b[27] != 0 then None
      else Checked(Entry(df, U48(b[4..]), U48(b[10..]), U32(b[16..]), U48(b[20..]), []))
  }

  function Checked(e: Entry): Option<Entry> {
    if ValidEntry(e) then Some(e) else None
  }

  lemma U48RoundTrip(v: nat, rest: seq<byte>)
    requires v <= MAX_U48
    ensures U48(LE(6, v) + rest) == v
  {
    ByteBase();
    assert Pow(0x100, 6) == 0x1_0000_0000_0000;
    NumDigits(0x100, 6, v);
    assert (LE(6, v) + rest)[..6] == LE(6, v);
  }

  lemma {:induction false} SlotsAt(ps: seq<InlinePosting>, i: nat)
    requires i < |ps|
    ensures Slots(ps)[6 * i..6 * i + 6] == SlotBytes(ps[i])
  {
    hide SlotBytes;
    var n := |ps| - 1;
    if i < n {
      SlotsAt(ps[..n], i);
      assert Slots(ps)[6 * i..6 * i + 6] == Slots(ps[..n])[6 * i..6 * i + 6];
    }
  }

  lemma SlotReads(b: seq<byte>, i: nat, p: InlinePosting)
    requires 6 * i + 10 <= |b| && b[6 * i + 4..6 * i + 10] == SlotBytes(p)
    ensures SlotAt(b, i) == p
  {
    var s := b[6 * i + 4..];
    var rest := b[6 * i + 8..];
    assert s[..4] == b[6 * i + 4..6 * i + 10][..4] == LE(4, p.docid);
    assert s == LE(4, p.docid) + rest;
    U32RoundTrip(p.docid, rest);
    assert b[6 * i + 8] == b[6 * i + 4..6 * i + 10][4] && b[6 * i + 9] == b[6 * i + 4..6 * i + 10][5];
  }

  lemma InlineReads(e: Entry)
    requires ValidEntry(e) && e.inline != []
    ensures EntryOf(EntryBytes(e)) == Some(e)
  {
    hide SlotAt, U32, SlotBytes, Slots, LE, ValidEntry;
    InlineCount(e);
    var b := EntryBytes(e);
    var n := |e.inline|;
    var slots, zeros := Slots(e.inline), Zeros(24 - 6 * n);
    FourSlices(LE(4, e.df), slots, zeros, [1, 0, 0, 0]);
    U32RoundTrip(e.df, slots + zeros + [1, 0, 0, 0]);
    assert b == LE(4, e.df) + (slots + zeros + [1, 0, 0, 0]);
    forall i | 0 <= i < n ensures SlotAt(b, i) == e.inline[i] {
      SlotsAt(e.inline, i);
      assert b[6 * i + 4..6 * i + 10] == slots[6 * i..6 * i + 6];
      SlotReads(b, i, e.inline[i]);
    }
    assert forall k :: 4 + 6 * n <= k < 28 ==> b[k] == zeros[k - 4 - 6 * n];
    assert seq(n, i requires 0 <= i < n => SlotAt(b, i)) == e.inline;
  }

  lemma InlineCount(e: Entry)
    requires ValidEntry(e) && e.inline != []
    ensures |e.inline| == e.df <= 4 && e == Entry(e.df, 0, 0, 0, 0, e.inline)
  {
  }

  lemma FourSlices(a: seq<byte>, s: seq<byte>, z: seq<byte>, t: seq<byte>)
    requires |a| == 4 && |s| + |z| == 24 && |t| == 4
    ensures var b := a + (s + z) + t;
            |b| == 32 && b[4..4 + |s|] == s && b[4 + |s|..28] == z && b[28..] == t
            && b[28] == t[0] && b[29] == t[1] && b[30] == t[2] && b[31] == t[3]
  {
  }

  lemma BandReads(e: Entry)
    requires ValidEntry(e) && e.inline == []
    ensures EntryOf(EntryBytes(e)) == Some(e)
  {
    hide U32, U48, LE, GoodInline;
    var b := EntryBytes(e);
    var z: seq<byte> := [0, 0, 0, 0, 0, 0];
    var t4 := LE(6, e.skipOff) + z;
    var t3 := LE(4, e.postingsLen) + t4;
    var t2 := LE(6, e.postingsOff) + t3;
    var t1 := LE(6, e.cf) + t2;
    SixSlices(LE(4, e.df), LE(6, e.cf), LE(6, e.postingsOff), LE(4, e.postingsLen), LE(6, e.skipOff), z);
    U32RoundTrip(e.df, t1);
    U48RoundTrip(e.cf, t2);
    U48RoundTrip(e.postingsOff, t3);
    U32RoundTrip(e.postingsLen, t4);
    U48RoundTrip(e.skipOff, z);
  }

  lemma SixSlices(a: seq<byte>, b: seq<byte>, c: seq<byte>, d: seq<byte>, f: seq<byte>, z: seq<byte>)
    requires |a| == 4 && |b| == 6 && |c| == 6 && |d| == 4 && |f| == 6 && |z| == 6
    ensures var s := a + b + c + d + f + z;
            && s == a + (b + (c + (d + (f + z)))) && s[4..] == b + (c + (d + (f + z))) && s[10..] == c + (d + (f + z))
            && s[16..] == d + (f + z) && s[20..] == f + z && s[26..] == z
            && s[26] == z[0] && s[27] == z[1] && s[28] == z[2] && s[29] == z[3] && s[30] == z[4] && s[31] == z[5]
  {
  }

  /** Every valid entry reads back from its 32 bytes. */
  lemma EntryRoundTrip(e: Entry)
    requires ValidEntry(e)
    ensures |e.inline| <= 4 && EntryOf(EntryBytes(e)) == Some(e)
  {
    if e.inline != [] {
      InlineReads(e);
    } else {
      BandReads(e);
    }
  }
}
