/** Which 32 bytes are an entry, hotfmt/dict.go: exactly those that a valid entry is written as. */
module DictEntryLaws {
  import opened Bytes
  import opened Cursor
  import opened DictEntries

  /**
   * What every reader of an entry may rely on. Up to four postings are inline, in docid order, with a term frequency and
   * at least one of four fields each; more are in the bands, and occur at least once per document.
   */
  ghost predicate Sound(e: Entry) {
    && e.df >= 1 && |e.inline| == (if e.df < 5 then e.df else 0)
    && (e.df < 5 ==> e.cf == e.postingsOff == e.postingsLen == e.skipOff == 0)
    && (e.df >= 5 ==> e.cf >= e.df && e.cf < 0x1_0000_0000_0000 && e.postingsOff < 0x1_0000_0000_0000
                      && e.skipOff < 0x1_0000_0000_0000)
    && (forall i, j :: 0 <= i < j < |e.inline| ==> e.inline[i].docid < e.inline[j].docid)
    && (forall i :: 0 <= i < |e.inline| ==> e.inline[i].tf >= 1 && 1 <= e.inline[i].mask < 16)
  }

  lemma SoundIff(e: Entry)
    ensures ValidEntry(e) <==> Sound(e)
  {
  }

  lemma FieldBack(b: seq<byte>, lo: nat, n: nat)
    requires lo + n <= |b|
    ensures LE(n, FromLE(b[lo..][..n])) == b[lo..lo + n]
  {
    assert b[lo..][..n] == b[lo..lo + n];
    TimesLaws(0, Pow(0x100, n), 0);
    DigitsNum(0x100, b[lo..lo + n], 0);
  }

  lemma BandIs(b: seq<byte>, e: Entry)
    requires |b| == 32 && EntryOf(b) == Some(e) && e.inline == []
    ensures EntryBytes(e) == b
  {
    hide LE, FromLE, ValidEntry, SlotAt;
    FieldBack(b, 0, 4);
    FieldBack(b, 4, 6);
    FieldBack(b, 10, 6);
    FieldBack(b, 16, 4);
    FieldBack(b, 20, 6);
    assert b[0..] == b && b[26..] == [0, 0, 0, 0, 0, 0];
    SixParts(b);
  }

  lemma SixParts(b: seq<byte>)
    requires |b| == 32
    ensures b == b[0..4] + b[4..10] + b[10..16] + b[16..20] + b[20..26] + b[26..]
  {
  }

  lemma SlotBack(b: seq<byte>, i: nat)
    requires 6 * i + 10 <= |b|
    ensures SlotBytes(SlotAt(b, i)) == b[6 * i + 4..6 * i + 10]
  {
    FieldBack(b, 6 * i + 4, 4);
    assert b[6 * i + 4..6 * i + 10] == b[6 * i + 4..6 * i + 8] + [b[6 * i + 8], b[6 * i + 9]];
  }

  lemma {:induction false} SlotsBack(b: seq<byte>, ps: seq<InlinePosting>)
    requires 6 * |ps| + 4 <= |b| && forall i :: 0 <= i < |ps| ==> ps[i] == SlotAt(b, i)
    ensures Slots(ps) == b[4..4 + 6 * |ps|]
  {
    hide SlotAt, SlotBytes;
    if ps != [] {
      var n := |ps| - 1;
      SlotsBack(b, ps[..n]);
      SlotBack(b, n);
      assert b[4..4 + 6 * |ps|] == b[4..4 + 6 * n] + b[4 + 6 * n..10 + 6 * n];
    }
  }

  lemma InlineIs(b: seq<byte>, e: Entry)
    requires |b| == 32 && EntryOf(b) == Some(e) && e.inline != []
    ensures |e.inline| <= 4 && EntryBytes(e) == b
  {
    hide LE, FromLE, ValidEntry, SlotAt, Slots;
    var n := |e.inline|;
    assert 1 <= n <= 4 && n == e.df == U32(b);
    FieldBack(b, 0, 4);
    SlotsBack(b, e.inline);
    assert b[0..] == b && b[28..] == [1, 0, 0, 0];
    assert b[4 + 6 * n..28] == Zeros(24 - 6 * n);
    FourParts(b, 4 + 6 * n);
  }

  lemma FourParts(b: seq<byte>, i: nat)
    requires |b| == 32 && 4 <= i <= 28
    ensures b == b[0..4] + (b[4..i] + b[i..28]) + b[28..]
  {
  }

  /** Bytes are an entry exactly when it is a sound one and they are what it is written as: no entry has two forms. */
  lemma EntryLaw(b: seq<byte>, e: Entry)
    requires |b| == 32
    ensures EntryOf(b) == Some(e) <==> Sound(e) && |e.inline| <= 4 && b == EntryBytes(e)
  {
    SoundIff(e);
    if EntryOf(b) == Some(e) {
      if e.inline == [] {
        BandIs(b, e);
      } else {
        InlineIs(b, e);
      }
    }
    if Sound(e) {
      EntryRoundTrip(e);
    }
  }
}
