/**
 * Lookup against LookupInto on any dictionary that opens, hotfmt/dict.go: when the full scan and the early-stopping walk
 * answer alike, and a dictionary on which they do not.
 */
module DictAgreeing {
  import opened Bytes
  import opened Cursor
  import opened DictEntries
  import opened DictFormat
  import opened DictReading
  import opened DictLaws

  // ----- decoded terms rise -----

  /** A difference that decodes spells a larger term. */
  lemma NextRises(area: seq<byte>, lim: nat, pos: nat, prev: Term)
    requires lim <= |area| && NextTerm(area, lim, pos, prev).Ok?
    ensures Less(prev, NextTerm(area, lim, pos, prev).value.0)
  {
    var n, sl := area[pos], area[pos + 1];
    var suffix := area[pos + 2..pos + 2 + sl];
    var t := prev[..n] + suffix;
    assert t[..n] == prev[..n] && t[n] == suffix[0];
    LcpIs(prev, t, n);
  }

  /** It also decodes under any tighter limit that it keeps. */
  lemma NextWithin(area: seq<byte>, lim: nat, at: nat, pos: nat, prev: Term)
    requires at <= lim <= |area| && NextTerm(area, lim, pos, prev).Ok? && NextTerm(area, lim, pos, prev).value.1 <= at
    ensures NextTerm(area, at, pos, prev) == NextTerm(area, lim, pos, prev)
  {
  }

  lemma {:induction false} MoreRise(area: seq<byte>, lim: nat, pos: nat, prev: Term, n: nat)
    requires lim <= |area| && MoreTerms(area, lim, pos, prev, n).Ok?
    ensures forall j :: 0 <= j < n ==> Less(prev, MoreTerms(area, lim, pos, prev, n).value.0[j])
    decreases n
  {
    hide NextTerm, Less;
    if n > 0 {
      var (t, p) := NextTerm(area, lim, pos, prev).value;
      var ts := MoreTerms(area, lim, p, t, n - 1).value.0;
      NextRises(area, lim, pos, prev);
      MoreRise(area, lim, p, t, n - 1);
      forall j | 0 <= j < n - 1 ensures Less(prev, ts[j]) {
        LessTrans(prev, t, ts[j]);
      }
    }
  }

  lemma {:induction false} EntriesAre(area: seq<byte>, at: nat, n: nat, j: nat)
    requires at + 32 * n <= |area| && EntriesOf(area, at, n).Ok? && j < n
    ensures EntryOf(area[at + 32 * j..at + 32 * j + 32]) == Some(EntriesOf(area, at, n).value[j])
    decreases n
  {
    hide EntryOf;
    if j > 0 {
      EntriesAre(area, at + 32, n - 1, j - 1);
    }
  }

  // ----- matching from the front -----

  lemma {:induction false} NoMatch(ts: seq<Term>, es: seq<Entry>, q: Term)
    requires |ts| == |es| && forall j :: 0 <= j < |ts| ==> ts[j] != q
    ensures Match(ts, es, q) == None
  {
    if ts != [] {
      NoMatch(ts[..|ts| - 1], es[..|es| - 1], q);
    }
  }

  lemma {:induction false} MatchHead(ts: seq<Term>, es: seq<Entry>, q: Term)
    requires |ts| == |es| && ts != []
    ensures ts[0] != q ==> Match(ts, es, q) == Match(ts[1..], es[1..], q)
    ensures ts[0] == q && (forall j :: 0 < j < |ts| ==> ts[j] != q) ==> Match(ts, es, q) == Some(es[0])
  {
    var n := |ts| - 1;
    if n > 0 {
      assert ts[1..][..n - 1] == ts[..n][1..] && es[1..][..n - 1] == es[..n][1..];
      MatchHead(ts[..n], es[..n], q);
    } else {
      assert ts[1..] == [] && ts[..0] == [];
    }
  }

  /** Nothing above q equals q. */
  lemma AboveDiffers(q: Term, t: Term, ts: seq<Term>)
    requires (q == t || Less(q, t)) && forall j :: 0 <= j < |ts| ==> Less(t, ts[j])
    ensures forall j :: 0 <= j < |ts| ==> ts[j] != q
    ensures Less(q, t) ==> t != q
  {
    hide Less;
    LessTotal(q, t);
    forall j | 0 <= j < |ts| ensures ts[j] != q {
      LessTotal(t, ts[j]);
      LessTotal(q, ts[j]);
    }
  }

  // ----- one block -----

  /** From a term on, behind which the terms ts decode up to the entries at `at`, the walk finds what ts and es hold. */
  lemma {:induction false} SeekIsMatch(area: seq<byte>, at: nat, i: nat, n: nat, pos: nat, prev: Term, first: Term, q: Term,
                                       ts: seq<Term>, es: seq<Entry>)
    requires at + 32 * n <= |area| && 1 <= i <= n && |ts| == |es| == n - i
    requires MoreTerms(area, |area|, pos, prev, n - i) == Ok((ts, at))
    requires forall j :: i <= j < n ==> EntryOf(area[at + 32 * j..at + 32 * j + 32]) == Some(es[j - i])
    ensures Seek(area, at, i, n, pos, prev, first, q) == Ok(Match(ts, es, q))
    decreases n - i
  {
    hide NextTerm, Less, EntryOf, Match;
    if i == n {
      NoMatch(ts, es, q);
    } else {
      var (t, p) := NextTerm(area, |area|, pos, prev).value;
      var more := MoreTerms(area, |area|, p, t, n - i - 1).value.0;
      assert ts == [t] + more && ts[1..] == more;
      NextWithin(area, |area|, at, pos, prev);
      MoreRise(area, |area|, p, t, n - i - 1);
      MatchHead(ts, es, q);
      if t == q || Less(q, t) {
        AboveDiffers(q, t, more);
        if t != q {
          NoMatch(ts, es, q);
        }
      } else {
        SeekIsMatch(area, at, i + 1, n, p, t, first, q, more, es[1..]);
      }
    }
  }

  /** A block that scans answers alike both ways, with the entries where the scan found them. */
  lemma ScanIsSeek(area: seq<byte>, n: nat, first: Term, q: Term)
    requires n >= 1 && ScanEnd(area, n, first).Ok?
    ensures var end := ScanEnd(area, n, first).value.2;
            && 32 * n < end <= |area|
            && Seek(area, end - 32 * n, 0, n, 0, [], first, q) == ScanFor(area, n, first, q)
  {
    hide NextTerm, Less, EntryOf, Match, EntriesOf, MoreTerms;
    var (t, pos) := FirstTerm(area, |area|).value;
    var (more, at) := MoreTerms(area, |area|, pos, t, n - 1).value;
    var es := EntriesOf(area, at, n).value;
    var ts := [t] + more;
    forall j | 0 <= j < n ensures EntryOf(area[at + 32 * j..at + 32 * j + 32]) == Some(es[j]) {
      EntriesAre(area, at, n, j);
    }
    assert ts[1..] == more;
    MoreRise(area, |area|, pos, t, n - 1);
    MatchHead(ts, es, q);
    if t == q || Less(q, t) {
      AboveDiffers(q, t, more);
      if t != q {
        NoMatch(ts, es, q);
      }
    } else {
      SeekIsMatch(area, at, 1, n, pos, t, first, q, more, es[1..]);
    }
  }

  // ----- the dictionary -----

  /** Block b scans, and ends where the next one starts. */
  ghost predicate DenseBlock(d: Dict, b: nat)
    requires Opened(d) && b < |d.first|
  {
    var r := ScanEnd(d.data[d.blockOff[b]..d.indexOff], CountIn(d, b), d.first[b]);
    r.Ok? && d.blockOff[b] + r.value.2 == if b + 1 < |d.first| then d.blockOff[b + 1] else d.indexOff
  }

  lemma DenseAgrees(d: Dict, b: nat, q: Term)
    requires Opened(d) && b < |d.first| && DenseBlock(d, b)
    ensures SeekIn(d, b, q) == ScanIn(d, b, q) && ScanIn(d, b, q).Ok?
  {
    hide ScanEnd, Seek, Less;
    ScanIsSeek(d.data[d.blockOff[b]..d.indexOff], CountIn(d, b), d.first[b], q);
  }

  /** A walk that succeeds has found every block dense. */
  lemma {:induction false} WalkedIsDense(d: Dict, k: nat, b: nat)
    requires Opened(d) && k <= b < |d.first| && WalkFrom(d, k).Ok?
    ensures DenseBlock(d, b)
    decreases b - k
  {
    hide ScanEnd, Less, CountIn;
    CountSome(d, k);
    if k < b {
      WalkedIsDense(d, k + 1, b);
    }
  }

  lemma CountSome(d: Dict, b: nat)
    requires Opened(d) && b < |d.first|
    ensures CountIn(d, b) >= 1
  {
    hide Less;
  }

  /** On every opened dictionary that can be walked, the two lookups answer every query, and alike. */
  method LookupsAgree(d: Dict, q: Term) returns (full: Result<Option<Entry>, DictError>, walk: Result<Option<Entry>, DictError>)
    requires Opened(d) && WalkFrom(d, 0).Ok?
    ensures full == walk && full.Ok?
  {
    hide Less, ScanFor, SeekIn, WalkFrom, CountIn, Opened;
    full := Lookup(d, q);
    walk := LookupInto(d, q);
    AnswersAgree(d, q, full, walk);
  }

  lemma AnswersAgree(d: Dict, q: Term, full: Result<Option<Entry>, DictError>, walk: Result<Option<Entry>, DictError>)
    requires Opened(d) && WalkFrom(d, 0).Ok? && Answered(d, q, full, walk)
    ensures full == walk && full.Ok?
  {
    hide Less, ScanIn, SeekIn, WalkFrom, CountIn;
    if !Less(q, d.first[0]) {
      var b := LastNotPast(d, q, 0);
      WalkedIsDense(d, 0, b);
      DenseAgrees(d, b, q);
    }
  }

  // ----- a gap before the index -----

  const A: Term := [97]
  const NEAR: Entry := Entry(1, 0, 0, 0, 0, [InlinePosting(1, 1, 1)])
  const FAR: Entry := Entry(1, 0, 0, 0, 0, [InlinePosting(2, 1, 1)])

  lemma BothValid()
    ensures ValidEntry(NEAR) && ValidEntry(FAR) && NEAR != FAR
  {
  }

  /** One term, its entry, and another entry in the gap between the block and the index. */
  function GapBytes(): seq<byte>
    ensures |NEAR.inline| <= 4 && |FAR.inline| <= 4
  {
    ([1] + A) + EntryBytes(NEAR) + EntryBytes(FAR) + IndexEntry(0, A) + Trailer(66, 1, 1)
  }

  function GapDict(): Dict {
    Dict(GapBytes(), 1, [0], [A], 66)
  }

  lemma GapSlices(a: seq<byte>, e: seq<byte>, f: seq<byte>, x: seq<byte>, t: seq<byte>)
    requires |a| == 2 && |e| == |f| == 32 && |x| == 8 && |t| == 20
    ensures var d := a + e + f + x + t;
            && |d| == 94 && d[74..] == t && d[66..74] == x && d[0..66] == a + e + f
            && (a + e + f)[2..34] == e && (a + e + f)[34..66] == f && (a + e + f)[0] == a[0] && (a + e + f)[1] == a[1]
  {
  }

  lemma GapParts()
    ensures var d := GapBytes();
            && |d| == 94 && d[74..] == Trailer(66, 1, 1) && d[66..74] == IndexEntry(0, A)
            && |d[0..66]| == 66 && d[0..66][0] == 1 && d[0..66][1] == 97
            && d[0..66][2..34] == EntryBytes(NEAR) && d[0..66][34..66] == EntryBytes(FAR)
  {
    hide EntryBytes, Trailer, LE;
    assert |IndexEntry(0, A)| == 8;
    GapSlices([1] + A, EntryBytes(NEAR), EntryBytes(FAR), IndexEntry(0, A), Trailer(66, 1, 1));
  }

  /** It opens. */
  lemma GapOpens()
    ensures OpenOf(GapBytes()) == Ok(GapDict())
  {
    hide GapBytes, IndexEntry, Trailer, U48, FromLE;
    GapParts();
    TrailerReads(66, 1, 1);
    EntryReads(0, A, []);
    var x := IndexEntry(0, A);
    assert x + [] == x && [] + [0] == [0] && [] + [A] == [A];
    IndexOfOne(x);
  }

  lemma IndexOfOne(x: seq<byte>)
    requires |x| == 8 && U48(x) == 0 && x[6] == 1 && x[7..8] == A && x[8..] == []
    ensures ReadIndex(x, 1, [], [], 66) == Ok(([0], [A]))
  {
    hide U48;
    assert x[7..7 + x[6]] == A && x[7 + x[6]..] == [];
    assert [] + [0] == [0] && [] + [A] == [A];
    assert ReadIndex([], 0, [0], [A], 66) == Ok(([0], [A]));
    var none: seq<nat>, noterm: seq<Term> := [], [];
    assert none + [0] == [0] && noterm + [A] == [A];
  }

  lemma GapScan(area: seq<byte>)
    requires |area| == 66 && area[0] == 1 && area[1] == 97
    requires area[2..34] == EntryBytes(NEAR) && area[34..66] == EntryBytes(FAR)
    ensures ScanFor(area, 1, A, A) == Ok(Some(NEAR)) && Seek(area, 34, 0, 1, 0, [], A, A) == Ok(Some(FAR))
  {
    hide EntryBytes, EntryOf, ValidEntry;
    BothValid();
    EntryRoundTrip(NEAR);
    EntryRoundTrip(FAR);
    assert area[1..2] == A;
    assert FirstTerm(area, 66) == Ok((A, 2)) && FirstTerm(area, 34) == Ok((A, 2));
    assert MoreTerms(area, 66, 2, A, 0) == Ok(([], 2));
    assert area[2..2 + 32] == area[2..34] && area[34 + 32 * 0..34 + 32 * 0 + 32] == area[34..66];
    assert EntriesOf(area, 34, 0) == Ok([]) && [NEAR] + [] == [NEAR];
    assert EntriesOf(area, 2, 1) == Ok([NEAR]);
    assert Match([A], [NEAR], A) == Some(NEAR);
  }

  /** Both lookups answer, with different entries: the full scan with the near one, the walk with the far one. */
  method GapDisagrees() returns (d: Dict, full: Result<Option<Entry>, DictError>, walk: Result<Option<Entry>, DictError>)
    ensures full == Ok(Some(NEAR)) && walk == Ok(Some(FAR)) && NEAR != FAR
    ensures OpenOf(d.data) == Ok(d)
  {
    hide OpenOf, GapBytes, ScanFor, Seek, EntryBytes, ValidEntry, Less, Opened, GapDict;
    GapOpens();
    GapParts();
    BothValid();
    GapScan(GapBytes()[0..66]);
    var r := OpenDict(GapBytes());
    d := r.value;
    GapIs();
    full := Lookup(d, A);
    walk := LookupInto(d, A);
    assert BlockFor(d, A, 0);
  }

  lemma GapIs()
    ensures var d := GapDict();
            && d.data == GapBytes() && d.blockOff == [0] && d.first == [A] && d.indexOff == 66 && d.nterms == 1
            && CountIn(d, 0) == 1 && EntriesAt(d, 0) == 34 && BlockFor(d, A, 0)
  {
    hide GapBytes, Less;
    LessTotal(A, A);
  }
}
