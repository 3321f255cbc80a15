/** A dictionary that walks, hotfmt/dict.go, whoever wrote it: it is, byte for byte, the dictionary of what it yields. */
module DictExactness {
  import opened Bytes
  import opened DictEntries
  import opened DictEntryLaws
  import opened DictFormat
  import opened DictReading
  import opened DictLaws
  import opened DictWalking
  import Format

  // ----- one block -----

  /** Terms of 1 to 64 bytes in order. */
  ghost predicate Fine(ts: seq<Term>) {
    Sorted(ts) && forall i :: 0 <= i < |ts| ==> 1 <= |ts[i]| <= 64
  }

  /** Terms as a block writes them: the first in full, the others as differences. */
  function Spelled(ts: seq<Term>): seq<byte>
    requires forall i :: 0 <= i < |ts| ==> |ts[i]| <= 64
  {
    if ts == [] then []
    else if |ts| == 1 then [|ts[0]|] + ts[0]
    else Spelled(ts[..|ts| - 1]) + Delta(ts[|ts| - 2], ts[|ts| - 1])
  }

  lemma {:induction false} SpelledIs(c: seq<Item>)
    requires Short(c) && forall i :: 0 <= i < |c| ==> |Terms(c)[i]| <= 64
    ensures TermBytes(c) == Spelled(Terms(c))
  {
    hide Delta;
    if |c| > 1 {
      PartShort(c, |c| - 1);
      assert Terms(c[..|c| - 1]) == Terms(c)[..|c| - 1];
      SpelledIs(c[..|c| - 1]);
    }
  }

  /** A difference that decodes is the one that is written: no term has two. */
  lemma NextExact(area: seq<byte>, pos: nat, prev: Term)
    requires NextTerm(area, |area|, pos, prev).Ok? && 1 <= |prev| <= 64
    ensures var (t, p) := NextTerm(area, |area|, pos, prev).value;
            && 1 <= |t| <= 64 && Less(prev, t) && pos <= p <= |area| && area[pos..p] == Delta(prev, t)
  {
    var n, sl := area[pos], area[pos + 1];
    var (t, p) := NextTerm(area, |area|, pos, prev).value;
    var suffix := area[pos + 2..pos + 2 + sl];
    assert t == prev[..n] + suffix && t[..n] == prev[..n] && t[n..] == suffix && t[n] == suffix[0];
    LcpIs(prev, t, n);
    assert area[pos..p] == [n, sl] + suffix;
  }

  lemma SpelledGrows(ts: seq<Term>)
    requires |ts| > 1 && forall i :: 0 <= i < |ts| ==> |ts[i]| <= 64
    ensures Spelled(ts) == Spelled(ts[..|ts| - 1]) + Delta(ts[|ts| - 2], ts[|ts| - 1])
  {
    hide Delta;
  }

  lemma SpelledMore(ts: seq<Term>, t: Term)
    requires ts != [] && Fine(ts) && Less(ts[|ts| - 1], t) && 1 <= |t| <= 64
    ensures Fine(ts + [t]) && Spelled(ts + [t]) == Spelled(ts) + Delta(ts[|ts| - 1], t)
  {
    hide Less, Delta, Spelled, Sorted;
    StillSorted(ts, t);
    var all := ts + [t];
    SpelledGrows(all);
    assert all[..|all| - 1] == ts && all[|all| - 2] == ts[|ts| - 1];
  }

  lemma {:induction false} MoreExact(area: seq<byte>, pos: nat, ts: seq<Term>, n: nat)
    requires ts != [] && Fine(ts) && pos <= |area| && area[..pos] == Spelled(ts)
    requires MoreTerms(area, |area|, pos, ts[|ts| - 1], n).Ok?
    ensures var (more, end) := MoreTerms(area, |area|, pos, ts[|ts| - 1], n).value;
            Fine(ts + more) && end <= |area| && area[..end] == Spelled(ts + more)
    decreases n
  {
    hide NextTerm, Spelled, Less, Delta, Sorted;
    if n == 0 {
      assert ts + [] == ts;
    } else {
      var prev := ts[|ts| - 1];
      var (t, p) := NextTerm(area, |area|, pos, prev).value;
      NextExact(area, pos, prev);
      SpelledMore(ts, t);
      assert area[..p] == area[..pos] + area[pos..p];
      MoreExact(area, p, ts + [t], n - 1);
      var more := MoreTerms(area, |area|, p, t, n - 1).value.0;
      assert ts + ([t] + more) == ts + [t] + more;
    }
  }

  lemma FirstExact(area: seq<byte>)
    requires FirstTerm(area, |area|).Ok?
    ensures var (t, p) := FirstTerm(area, |area|).value;
            Fine([t]) && p <= |area| && area[..p] == Spelled([t])
  {
    var (t, p) := FirstTerm(area, |area|).value;
    assert area[..p] == [area[0]] + area[1..p];
  }

  /** The entries behind the terms. */
  lemma EntriesExact(area: seq<byte>, pos: nat, n: nat, c: seq<Item>)
    requires pos + 32 * n <= |area| && |c| == n && EntriesOf(area, pos, n) == Ok(Entries(c))
    ensures forall i :: 0 <= i < n ==> ValidEntry(c[i].entry) && |c[i].entry.inline| <= 4
    ensures Short(c) ==> EntriesBytes(c) == area[pos..pos + 32 * n]
  {
    hide EntryOf, ValidEntry, EntryBytes, Short, EntriesOf;
    forall i | 0 <= i < n
      ensures ValidEntry(c[i].entry) && |c[i].entry.inline| <= 4 && EntryStands(area, pos + 32 * i, c[i])
    {
      EntryIs(area, pos, n, i, c);
    }
    if Short(c) {
      AllEntries(area, pos, c, n);
      assert c[..n] == c;
    }
  }

  lemma {:induction false} EntryIs(area: seq<byte>, pos: nat, n: nat, i: nat, c: seq<Item>)
    requires pos + 32 * n <= |area| && |c| == n && EntriesOf(area, pos, n) == Ok(Entries(c)) && i < n
    ensures ValidEntry(c[i].entry) && |c[i].entry.inline| <= 4 && EntryStands(area, pos + 32 * i, c[i])
    decreases n
  {
    hide EntryOf, ValidEntry, EntryBytes;
    if i == 0 {
      assert Entries(c)[0] == c[0].entry;
      EntryLaw(area[pos..pos + 32], c[0].entry);
      SoundIff(c[0].entry);
    } else {
      assert Entries(c)[1..] == Entries(c[1..]);
      assert Entries(c) == [Entries(c)[0]] + Entries(c)[1..];
      EntryIs(area, pos + 32, n - 1, i - 1, c[1..]);
    }
  }

  ghost predicate EntryStands(area: seq<byte>, at: nat, x: Item) {
    |x.entry.inline| <= 4 && at + 32 <= |area| && EntryBytes(x.entry) == area[at..at + 32]
  }

  lemma EntriesGrow(c: seq<Item>, m: nat)
    requires Short(c) && m < |c|
    ensures Short(c[..m]) && Short(c[..m + 1]) && |c[m].entry.inline| <= 4
    ensures EntriesBytes(c[..m + 1]) == EntriesBytes(c[..m]) + EntryBytes(c[m].entry)
  {
    hide EntryBytes, TermBytes, Short;
    PartShort(c, m);
    PartShort(c, m + 1);
    assert c[..m + 1] == c[..m] + [c[m]];
    TermBytesGrow(c[..m], c[m]);
  }

  lemma NoEntries(c: seq<Item>)
    ensures Short(c[..0]) && EntriesBytes(c[..0]) == []
  {
  }

  lemma {:induction false} AllEntries(area: seq<byte>, pos: nat, c: seq<Item>, m: nat)
    requires Short(c) && m <= |c| && pos <= |area| && forall i :: 0 <= i < m ==> EntryStands(area, pos + 32 * i, c[i])
    ensures Short(c[..m]) && pos + 32 * m <= |area| && EntriesBytes(c[..m]) == area[pos..pos + 32 * m]
  {
    hide EntryBytes, Short, EntriesBytes;
    if m == 0 {
      NoEntries(c);
    } else {
      AllEntries(area, pos, c, m - 1);
      EntriesGrow(c, m - 1);
      var at := pos + 32 * (m - 1);
      assert EntryStands(area, at, c[m - 1]);
      SliceOn(area, pos, at, at + 32);
    }
  }

  lemma SliceOn(s: seq<byte>, i: nat, j: nat, k: nat)
    requires i <= j <= k <= |s|
    ensures s[i..k] == s[i..j] + s[j..k]
  {
  }

  lemma ItemsOf(ts: seq<Term>, es: seq<Entry>)
    requires |ts| == |es|
    ensures Terms(Items(ts, es)) == ts && Entries(Items(ts, es)) == es
  {
  }

  lemma FineItems(c: seq<Item>)
    requires Fine(Terms(c)) && forall i :: 0 <= i < |c| ==> ValidEntry(c[i].entry) && |c[i].entry.inline| <= 4
    ensures Vocabulary(c) && Short(c)
  {
    hide Less, ValidEntry;
    forall i | 0 <= i < |c| ensures ValidItem(c[i]) {
      assert Terms(c)[i] == c[i].term;
    }
    assert forall i, j :: 0 <= i < j < |c| ==> Less(Terms(c)[i], Terms(c)[j]);
  }

  /** What is read as a block is what its items are written as, up to the byte where reading ends. */
  lemma ScanExact(area: seq<byte>, n: nat, first: Term)
    requires n >= 1 && ScanEnd(area, n, first).Ok?
    ensures var (ts, es, end) := ScanEnd(area, n, first).value;
            var c := Items(ts, es);
            |c| == n && IsBlock(area, c) && c[0].term == first && |BlockBytes(c)| == end
  {
    hide FirstTerm, MoreTerms, EntriesOf, Fine, ValidEntry, Spelled, Vocabulary, TermBytes, EntriesBytes, Short;
    var (t, pos) := FirstTerm(area, |area|).value;
    var (more, at) := MoreTerms(area, |area|, pos, t, n - 1).value;
    var (ts, es, end) := ScanEnd(area, n, first).value;
    var c := Items(ts, es);
    ItemsOf(ts, es);
    FirstExact(area);
    MoreExact(area, pos, [t], n - 1);
    EntriesExact(area, at, n, c);
    FineItems(c);
    SpelledTerms(c);
    SliceOn(area, 0, at, end);
    assert BlockBytes(c) == area[0..end] == area[..end];
  }

  lemma SpelledTerms(c: seq<Item>)
    requires Short(c) && Fine(Terms(c))
    ensures TermBytes(c) == Spelled(Terms(c))
  {
    SpelledIs(c);
  }

  // ----- the index -----

  /** The index entries from number k on. */
  function IndexFrom(offs: seq<nat>, first: seq<Term>, k: nat): seq<byte>
    requires |offs| == |first| && k <= |offs| && forall i :: 0 <= i < |first| ==> |first[i]| <= 64
    decreases |offs| - k
  {
    if k == |offs| then [] else IndexEntry(offs[k], first[k]) + IndexFrom(offs, first, k + 1)
  }

  lemma EntryExact(idx: seq<byte>, l: nat)
    requires |idx| >= 7 + l && l == idx[6] <= 64
    ensures idx == IndexEntry(U48(idx), idx[7..7 + l]) + idx[7 + l..]
  {
    hide LE, FromLE;
    FieldBack(idx, 0, 6);
    assert idx[0..] == idx && idx[0..6] == idx[..6];
    assert idx == idx[..6] + [idx[6]] + idx[7..7 + l] + idx[7 + l..];
  }

  lemma IndexHead(idx: seq<byte>, n: nat, offs: seq<nat>, first: seq<Term>, indexOff: nat)
    returns (off: nat, t: Term, rest: seq<byte>)
    requires |offs| == |first| && n > 0 && ReadIndex(idx, n, offs, first, indexOff).Ok?
    ensures 1 <= |t| <= 64 && idx == IndexEntry(off, t) + rest && (offs == [] ==> off == 0)
    ensures ReadIndex(idx, n, offs, first, indexOff) == ReadIndex(rest, n - 1, offs + [off], first + [t], indexOff)
  {
    hide Less, U48, IndexEntry;
    var l: nat := idx[6];
    off, t, rest := U48(idx), idx[7..7 + l], idx[7 + l..];
    EntryExact(idx, l);
  }

  lemma NoIndex(idx: seq<byte>, offs: seq<nat>, first: seq<Term>, indexOff: nat)
    requires |offs| == |first| && ReadIndex(idx, 0, offs, first, indexOff).Ok?
    ensures idx == [] && ReadIndex(idx, 0, offs, first, indexOff) == Ok((offs, first))
  {
  }

  /** What reads as an index is what it is written as. */
  lemma {:induction false} IndexExact(idx: seq<byte>, n: nat, offs: seq<nat>, first: seq<Term>, indexOff: nat)
    requires |offs| == |first| && (forall i :: 0 <= i < |first| ==> 1 <= |first[i]| <= 64)
    requires ReadIndex(idx, n, offs, first, indexOff).Ok?
    ensures var (os, ts) := ReadIndex(idx, n, offs, first, indexOff).value;
            && |os| == |ts| == |offs| + n && offs <= os && first <= ts && (forall i :: 0 <= i < |ts| ==> 1 <= |ts[i]| <= 64)
            && idx == IndexFrom(os, ts, |offs|) && (offs == [] && n > 0 ==> os[0] == 0)
    decreases n
  {
    hide ReadIndex, IndexEntry;
    if n == 0 {
      NoIndex(idx, offs, first, indexOff);
    } else {
      var off, t, rest := IndexHead(idx, n, offs, first, indexOff);
      IndexExact(rest, n - 1, offs + [off], first + [t], indexOff);
      var (os, ts) := ReadIndex(idx, n, offs, first, indexOff).value;
      assert (offs + [off])[|offs|] == os[|offs|] && (first + [t])[|offs|] == ts[|offs|];
    }
  }

  // ----- the walk -----

  /** Where block b ends. */
  function NextOff(d: Dict, b: nat): nat
    requires Opened(d) && b < |d.first|
  {
    if b + 1 < |d.first| then d.blockOff[b + 1] else d.indexOff
  }

  /** c stands at block b: it is written there, up to where the next block starts. */
  ghost predicate Stands(d: Dict, b: nat, c: seq<Item>)
    requires Opened(d) && b < |d.first|
  {
    && |c| == CountIn(d, b) && IsBlock(d.data[d.blockOff[b]..d.indexOff], c) && c[0].term == d.first[b]
    && d.blockOff[b] + |BlockBytes(c)| == NextOff(d, b)
  }

  lemma CountsUp(d: Dict, b: nat)
    requires Opened(d) && b < |d.first|
    ensures 64 * b < d.nterms && CountIn(d, b) == if 64 * b + 64 < d.nterms then 64 else d.nterms - 64 * b
    ensures b + 1 == |d.first| <==> 64 * b + 64 >= d.nterms
    ensures CountIn(d, b) >= 1
  {
    hide Less, Sorted;
  }

  lemma WalkStands(d: Dict, b: nat)
    requires Opened(d) && b < |d.first| && WalkFrom(d, b).Ok?
    ensures var w, n := WalkFrom(d, b).value, CountIn(d, b);
            n <= |w| && Stands(d, b, w[..n]) && WalkFrom(d, b + 1) == Ok(w[n..])
  {
    CountsUp(d, b);
    hide Opened, ScanEnd, IsBlock, BlockBytes, CountIn;
    var area, n := d.data[d.blockOff[b]..d.indexOff], CountIn(d, b);
    ScanExact(area, n, d.first[b]);
    var (ts, es, end) := ScanEnd(area, n, d.first[b]).value;
    var c, more := Items(ts, es), WalkFrom(d, b + 1).value;
    assert (c + more)[..n] == c && (c + more)[n..] == more;
  }

  /** What the walk yields from block b on is what the whole walk yields behind the blocks before it. */
  lemma {:induction false} WalkRest(d: Dict, v: seq<Item>, b: nat)
    requires Opened(d) && b <= |d.first| && WalkFrom(d, 0) == Ok(v)
    ensures if b < |d.first| then 64 * b <= |v| && WalkFrom(d, b) == Ok(v[64 * b..]) else |v| == d.nterms
  {
    hide Opened, WalkFrom, Stands, CountIn;
    if b == 0 {
      assert v[0..] == v;
      AtLeastOne(d);
    } else {
      WalkRest(d, v, b - 1);
      WalkStands(d, b - 1);
      CountsUp(d, b - 1);
      if b < |d.first| {
        assert v[64 * (b - 1)..][64..] == v[64 * b..];
      } else {
        NothingBehind(d, v[64 * (b - 1)..][CountIn(d, b - 1)..]);
      }
    }
  }

  lemma AtLeastOne(d: Dict)
    requires Opened(d)
    ensures |d.first| == |d.blockOff| == NumChunks(d.nterms) > 0 && d.indexOff <= |d.data|
  {
    hide Less, Sorted;
  }

  lemma NothingBehind(d: Dict, w: seq<Item>)
    requires Opened(d) && WalkFrom(d, |d.first|) == Ok(w)
    ensures w == []
  {
  }

  lemma ChunkStands(d: Dict, v: seq<Item>, b: nat)
    requires Opened(d) && b < |d.first| && WalkFrom(d, 0) == Ok(v)
    ensures |v| == d.nterms && b < NumChunks(|v|) && Stands(d, b, Chunk(v, b))
  {
    hide Opened, WalkFrom, Stands, CountIn;
    AtLeastOne(d);
    WalkRest(d, v, |d.first|);
    WalkRest(d, v, b);
    WalkStands(d, b);
    CountsUp(d, b);
    var n := CountIn(d, b);
    assert v[64 * b..][..n] == v[64 * b..64 * b + n];
  }

  lemma ItemShort(d: Dict, v: seq<Item>, i: nat)
    requires Opened(d) && WalkFrom(d, 0) == Ok(v) && i < |v|
    ensures |v[i].term| <= 64 && |v[i].entry.inline| <= 4
  {
    hide Opened, WalkFrom, Stands;
    var b := i / 64;
    AtLeastOne(d);
    WalkRest(d, v, |d.first|);
    ChunkStands(d, v, b);
    StandsShort(d, b, Chunk(v, b));
    assert Chunk(v, b)[i - 64 * b] == v[i];
    assert v[i] in Chunk(v, b);
  }

  lemma StandsShort(d: Dict, b: nat, c: seq<Item>)
    requires Opened(d) && b < |d.first| && Stands(d, b, c)
    ensures Short(c)
  {
    hide Vocabulary, BlockBytes, Opened;
  }

  lemma WalkedShort(d: Dict, v: seq<Item>)
    requires Opened(d) && WalkFrom(d, 0) == Ok(v)
    ensures |v| == d.nterms > 0 && Short(v)
  {
    hide Opened, WalkFrom;
    AtLeastOne(d);
    WalkRest(d, v, |d.first|);
    forall i | 0 <= i < |v| ensures |v[i].term| <= 64 && |v[i].entry.inline| <= 4 {
      ItemShort(d, v, i);
    }
  }

  lemma JoinsOn(data: seq<byte>, lo: nat, end: nat, block: seq<byte>)
    requires lo <= end <= |data| && block <= data[lo..end]
    ensures lo + |block| <= |data| && data[..lo + |block|] == data[..lo] + block
  {
    assert data[lo..end][..|block|] == data[lo..lo + |block|];
  }

  lemma StandsAt(d: Dict, b: nat, c: seq<Item>)
    requires Opened(d) && b < |d.first| && Stands(d, b, c)
    ensures Short(c) && d.blockOff[b] <= d.indexOff <= |d.data| && BlockBytes(c) <= d.data[d.blockOff[b]..d.indexOff]
    ensures d.blockOff[b] + |BlockBytes(c)| == NextOff(d, b)
  {
    hide Vocabulary, BlockBytes;
  }

  lemma OffOf(d: Dict, v: seq<Item>, k: nat)
    requires Opened(d) && k < |d.first| && WalkFrom(d, 0) == Ok(v) && Short(v) && k < NumChunks(|v|)
    requires d.blockOff[k] <= |d.data| && Band(v, k) == d.data[..d.blockOff[k]]
    ensures NextOff(d, k) <= |d.data| && Band(v, k + 1) == d.data[..NextOff(d, k)]
  {
    hide WalkFrom, Opened, Stands, Short, Band, BlockBytes, NextOff;
    ChunkStands(d, v, k);
    AtBlock(d, k);
    StandsAt(d, k, Chunk(v, k));
    BandNext(v, k);
    JoinsOn(d.data, d.blockOff[k], d.indexOff, BlockBytes(Chunk(v, k)));
  }

  lemma AtBlock(d: Dict, k: nat)
    requires Opened(d) && k < |d.first|
    ensures |d.blockOff| == |d.first| && d.blockOff[k] < NextOff(d, k) <= d.indexOff <= |d.data|
  {
    hide Less, Sorted;
  }

  /** The walked items, written block by block, are the bytes in front of block k. */
  lemma {:induction false} BandIs(d: Dict, v: seq<Item>, k: nat)
    requires Opened(d) && k <= |d.first| == |d.blockOff| == NumChunks(|v|) && d.indexOff <= |d.data|
    requires d.blockOff[0] == 0 && WalkFrom(d, 0) == Ok(v) && Short(v)
    ensures if k < |d.first| then d.blockOff[k] <= |d.data| && Band(v, k) == d.data[..d.blockOff[k]]
            else Band(v, k) == d.data[..d.indexOff]
  {
    hide Opened, WalkFrom, Short, Band, NumChunks;
    if k == 0 {
      NoBand(v);
      AtLeastOne(d);
      assert d.data[..0] == [];
    } else {
      AtBlock(d, k - 1);
      BandIs(d, v, k - 1);
      OffOf(d, v, k - 1);
      if k < |d.first| {
        AtBlock(d, k);
      }
    }
  }

  lemma {:induction false} IndexIs(d: Dict, v: seq<Item>, k: nat)
    requires Opened(d) && k <= |d.first| == |d.blockOff| == NumChunks(|v|) && d.indexOff <= |d.data|
    requires d.blockOff[0] == 0 && WalkFrom(d, 0) == Ok(v) && Short(v) && forall i :: 0 <= i < |d.first| ==> |d.first[i]| <= 64
    ensures IndexFrom(d.blockOff, d.first, k) == IndexTail(v, k, |d.first|)
    decreases |d.first| - k
  {
    hide Opened, WalkFrom, Short, Band, NumChunks, IndexEntry;
    if k < |d.first| {
      IndexIs(d, v, k + 1);
      BandIs(d, v, k);
      FirstIs(d, v, k);
      TailStep(v, k, |d.first|);
    }
  }

  lemma FirstIs(d: Dict, v: seq<Item>, k: nat)
    requires Opened(d) && k < |d.first| && WalkFrom(d, 0) == Ok(v)
    ensures 64 * k < |v| && v[64 * k].term == d.first[k]
  {
    ChunkStands(d, v, k);
    hide Opened, WalkFrom, CountIn, BlockBytes, Vocabulary;
    assert Chunk(v, k)[0] == v[64 * k];
  }

  // ----- the whole dictionary -----

  lemma TrailerExact(t: seq<byte>)
    requires |t| == 20
    ensures t == Trailer(FromLE(t[..8]), FromLE(t[8..12]), FromLE(t[12..]))
    ensures FromLE(t[8..12]) <= MAX_U32 && FromLE(t[12..]) < 0x1_0000_0000_0000_0000
  {
    hide LE, FromLE;
    Format.Widths();
    FieldBack(t, 0, 8);
    FieldBack(t, 8, 4);
    FieldBack(t, 12, 8);
    FromLEBound(t[8..12]);
    FromLEBound(t[12..]);
    assert t[0..] == t && t[..8] == t[0..8] && t[8..][..4] == t[8..12] && t[12..][..8] == t[12..] == t[12..20];
    assert t == t[0..8] + t[8..12] + t[12..20];
  }

  /** What opens: an index and a trailer, written as they are read, behind the blocks. */
  lemma OpenExact(data: seq<byte>, d: Dict)
    requires OpenOf(data) == Ok(d)
    ensures Opened(d) && d.data == data && |d.first| == |d.blockOff| == NumChunks(d.nterms) > 0 && d.indexOff + 20 <= |data|
    ensures d.blockOff[0] == 0 && |d.first| <= MAX_U32 && d.nterms < 0x1_0000_0000_0000_0000
    ensures forall i :: 0 <= i < |d.first| ==> |d.first[i]| <= 64
    ensures data[d.indexOff..|data| - 20] == IndexFrom(d.blockOff, d.first, 0)
    ensures data[|data| - 20..] == Trailer(d.indexOff, |d.first|, d.nterms)
  {
    OpenSound(data);
    AtLeastOne(d);
    hide ReadIndex, Less, FromLE, LE, Opened, IndexFrom;
    var t := data[|data| - 20..];
    TrailerExact(t);
    IndexExact(data[d.indexOff..|data| - 20], |d.first|, [], [], d.indexOff);
  }

  lemma ChunksFine(d: Dict, v: seq<Item>)
    requires Opened(d) && WalkFrom(d, 0) == Ok(v) && |d.first| == NumChunks(|v|)
    ensures Blockwise(v)
  {
    hide Less, WalkFrom, Vocabulary, NumChunks, BlockBytes, CountIn;
    forall b | 0 <= b < NumChunks(|v|) ensures Vocabulary(Chunk(v, b)) && Chunk(v, b)[0].term == d.first[b] {
      ChunkStands(d, v, b);
    }
  }

  lemma SameOffs(d: Dict, v: seq<Item>)
    requires Opened(d) && WalkFrom(d, 0) == Ok(v) && |d.first| == |d.blockOff| == NumChunks(|v|) && d.indexOff <= |d.data|
    requires d.blockOff[0] == 0 && Short(v)
    ensures Offs(v, |d.first|) == d.blockOff && Firsts(v, |d.first|) == d.first && |Band(v, |d.first|)| == d.indexOff
  {
    hide Opened, WalkFrom, Short, Band, NumChunks;
    forall k | 0 <= k < |d.first| ensures 64 * k < |v| && |Band(v, k)| == d.blockOff[k] && v[64 * k].term == d.first[k] {
      BandIs(d, v, k);
      FirstIs(d, v, k);
    }
    BandIs(d, v, |d.first|);
  }

  /** A dictionary of less than 2^48 bytes that opens and walks is, byte for byte, the one written for what it yields. */
  lemma WalkedIsWritten(data: seq<byte>, d: Dict, v: seq<Item>)
    requires OpenOf(data) == Ok(d) && Opened(d) && WalkFrom(d, 0) == Ok(v) && |data| <= MAX_U48
    ensures v != [] && Blockwise(v) && Sized(v) && data == DictBytes(v) && d == DictOf(v)
  {
    hide OpenOf, WalkFrom, Opened, Short, Band, Index, IndexTail, IndexFrom, Trailer, NumChunks, Blockwise, Offs, Firsts;
    OpenExact(data, d);
    WalkedShort(d, v);
    var n := |d.first|;
    BandIs(d, v, n);
    IndexIs(d, v, 0);
    IndexSplit(v, 0, n);
    IndexStart(v);
    ThreeSlices(data, d.indexOff);
    ChunksFine(d, v);
    SameOffs(d, v);
  }

  lemma ThreeSlices(data: seq<byte>, i: nat)
    requires i + 20 <= |data|
    ensures data == data[..i] + data[i..|data| - 20] + data[|data| - 20..]
  {
  }

  /** Opens and walks, yielding v. */
  ghost predicate Walks(data: seq<byte>, v: seq<Item>) {
    OpenOf(data).Ok? && Opened(OpenOf(data).value) && WalkFrom(OpenOf(data).value, 0) == Ok(v)
  }

  /**
   * The canonical form, whoever wrote the bytes: they open and walk, yielding v, exactly when they are what is written for
   * v, whose blocks are in order each for themselves and by their first terms.
   */
  lemma WalksIff(data: seq<byte>, v: seq<Item>)
    requires |data| <= MAX_U48
    ensures Walks(data, v) <==> v != [] && Blockwise(v) && Sized(v) && data == DictBytes(v)
  {
    hide OpenOf, WalkFrom, Opened, Blockwise, DictBytes, Sized;
    if Walks(data, v) {
      WalkedIsWritten(data, OpenOf(data).value, v);
    }
    if v != [] && Blockwise(v) && Sized(v) {
      SealedShort(v);
      if data == DictBytes(v) {
        BlocksOpen(v);
        OpenSound(data);
        WalkReads(v, 0);
        FromFirst(v);
      }
    }
  }

  lemma FromFirst(v: seq<Item>)
    ensures FromBlock(v, 0) == v
  {
  }

  /** Terms that a writer would take, walk and write the same bytes again: there is one dictionary for them. */
  lemma ReSealed(data: seq<byte>, v: seq<Item>)
    requires |data| <= MAX_U48 && Walks(data, v) && Vocabulary(v)
    ensures Sized(v) && data == DictBytes(v) && v != []
  {
    WalksIff(data, v);
  }

  // ----- the order of the walk -----

  /**
   * Walking is in order, so that every term can also be looked up, exactly when each block ends below the next one's
   * first term, which neither opening nor walking compares.
   */
  lemma InOrderIff(v: seq<Item>)
    requires Blockwise(v)
    ensures Vocabulary(v) <==> forall b :: 0 < b < NumChunks(|v|) ==> EndsBelow(v, b)
  {
    hide Less, ValidItem, Blockwise;
    if forall b :: 0 < b < NumChunks(|v|) ==> EndsBelow(v, b) {
      forall i | 0 <= i < |v| ensures ValidItem(v[i]) {
        ItemValid(v, i);
      }
      forall i, j | 0 <= i < j < |v| ensures Less(v[i].term, v[j].term) {
        Below(v, i, j);
      }
    }
    if Vocabulary(v) {
      forall b | 0 < b < NumChunks(|v|) ensures EndsBelow(v, b) {
        TermsIncrease(v, 64 * b - 1, 64 * b);
      }
    }
  }

  predicate EndsBelow(v: seq<Item>, b: nat)
    requires 0 < b < NumChunks(|v|)
  {
    Less(v[64 * b - 1].term, v[64 * b].term)
  }

  lemma ItemValid(v: seq<Item>, i: nat)
    requires Blockwise(v) && i < |v|
    ensures ValidItem(v[i])
  {
    hide Less, ValidItem;
    var b := i / 64;
    assert Vocabulary(Chunk(v, b)) && Chunk(v, b)[i - 64 * b] == v[i];
  }

  lemma NextBelow(v: seq<Item>, i: nat)
    requires Blockwise(v) && i + 1 < |v| && forall b :: 0 < b < NumChunks(|v|) ==> EndsBelow(v, b)
    ensures Less(v[i].term, v[i + 1].term)
  {
    hide Less, ValidItem;
    var b := i / 64;
    if i + 1 < 64 * (b + 1) {
      var c := Chunk(v, b);
      assert Vocabulary(c) && c[i - 64 * b] == v[i] && c[i + 1 - 64 * b] == v[i + 1];
    } else {
      assert EndsBelow(v, b + 1);
    }
  }

  lemma {:induction false} Below(v: seq<Item>, i: nat, j: nat)
    requires Blockwise(v) && i < j < |v| && forall b :: 0 < b < NumChunks(|v|) ==> EndsBelow(v, b)
    ensures Less(v[i].term, v[j].term)
  {
    hide Less, Blockwise, EndsBelow;
    NextBelow(v, j - 1);
    if i < j - 1 {
      Below(v, i, j - 1);
      LessTrans(v[i].term, v[j - 1].term, v[j].term);
    }
  }
}
