/** A sealed dictionary opens, and both lookups are the plain map it was built from. */
module DictLaws {
  import opened Bytes
  import opened DictEntries
  import opened DictFormat
  import opened DictReading

  /** The plain map: the entry added for q, if any. */
  function Find(v: seq<Item>, q: Term): Option<Entry> {
    if v == [] then None
    else if v[|v| - 1].term == q then Some(v[|v| - 1].entry)
    else Find(v[..|v| - 1], q)
  }

  /** Within the widths of the format's own fields. */
  ghost predicate Sized(v: seq<Item>) {
    Short(v) && |Band(v, NumChunks(|v|))| <= MAX_U48 && NumChunks(|v|) <= MAX_U32 && |v| < 0x1_0000_0000_0000_0000
  }

  function Offs(v: seq<Item>, n: nat): (s: seq<nat>)
    requires Short(v) && n <= NumChunks(|v|)
    ensures |s| == n && forall b :: 0 <= b < n ==> s[b] == |Band(v, b)|
  {
    seq(n, b requires 0 <= b < n => |Band(v, b)|)
  }

  function Firsts(v: seq<Item>, n: nat): (s: seq<Term>)
    requires n <= NumChunks(|v|)
    ensures |s| == n && forall b :: 0 <= b < n ==> s[b] == v[64 * b].term
  {
    seq(n, b requires 0 <= b < n => v[64 * b].term)
  }

  function DictOf(v: seq<Item>): Dict
    requires Short(v)
  {
    var n := NumChunks(|v|);
    Dict(DictBytes(v), |v|, Offs(v, n), Firsts(v, n), |Band(v, n)|)
  }

  /** Blocks that are in order each for themselves, with their first terms in order. */
  ghost predicate Blockwise(v: seq<Item>) {
    && (forall b :: 0 <= b < NumChunks(|v|) ==> Vocabulary(Chunk(v, b)))
    && (forall a, b :: 0 <= a < b < NumChunks(|v|) ==> Less(Chunk(v, a)[0].term, Chunk(v, b)[0].term))
  }

  lemma VocabularyBlockwise(v: seq<Item>)
    requires Vocabulary(v)
    ensures Blockwise(v)
  {
    hide Less, ValidItem;
    forall b | 0 <= b < NumChunks(|v|) ensures Vocabulary(Chunk(v, b)) {
      ChunkVocabulary(v, b);
    }
    forall a, b | 0 <= a < b < NumChunks(|v|) ensures Less(Chunk(v, a)[0].term, Chunk(v, b)[0].term) {
      TermsIncrease(v, 64 * a, 64 * b);
    }
  }

  lemma BlockFine(v: seq<Item>, b: nat)
    requires Blockwise(v) && b < NumChunks(|v|)
    ensures Vocabulary(Chunk(v, b))
  {
    hide Vocabulary, Less;
  }

  lemma BlockTerm(v: seq<Item>, k: nat)
    requires Blockwise(v) && k < NumChunks(|v|)
    ensures 64 * k < |v| && Chunk(v, k)[0] == v[64 * k] && 1 <= |v[64 * k].term| <= 64
  {
    hide Less;
    assert Vocabulary(Chunk(v, k));
    TermOf(Chunk(v, k), 0);
  }

  lemma BlockTermsIncrease(v: seq<Item>, a: nat, b: nat)
    requires Blockwise(v) && a < b < NumChunks(|v|)
    ensures Less(v[64 * a].term, v[64 * b].term)
  {
    hide Less, Vocabulary;
    assert Less(Chunk(v, a)[0].term, Chunk(v, b)[0].term);
  }

  // ----- the index reads back -----

  /** The index entries of blocks k to n. */
  function IndexTail(v: seq<Item>, k: nat, n: nat): seq<byte>
    requires Short(v) && k <= n <= NumChunks(|v|)
    decreases n - k
  {
    if k == n then [] else IndexEntry(|Band(v, k)|, v[64 * k].term) + IndexTail(v, k + 1, n)
  }

  lemma {:induction false} IndexSplit(v: seq<Item>, k: nat, n: nat)
    requires Short(v) && k <= n <= NumChunks(|v|)
    ensures Index(v, k) + IndexTail(v, k, n) == Index(v, n)
    decreases n - k
  {
    hide Short, Band, IndexEntry;
    if k == n {
      assert Index(v, k) + [] == Index(v, k);
    } else {
      IndexSplit(v, k + 1, n);
      TermShort(v, 64 * k);
      var e := IndexEntry(|Band(v, k)|, v[64 * k].term);
      assert Index(v, k) + (e + IndexTail(v, k + 1, n)) == (Index(v, k) + e) + IndexTail(v, k + 1, n);
    }
  }

  lemma TermShort(v: seq<Item>, i: nat)
    requires Short(v) && i < |v|
    ensures |v[i].term| <= 64
  {
    assert v[i] in v;
  }

  lemma EntryReads(off: nat, t: Term, rest: seq<byte>)
    requires off <= MAX_U48 && 1 <= |t| <= 64
    ensures var idx := IndexEntry(off, t) + rest;
            && |idx| >= 8 && U48(idx) == off && idx[6] == |t| && |idx| >= 7 + |t|
            && idx[7..7 + |t|] == t && idx[7 + |t|..] == rest
  {
    hide LE, U48;
    var idx := IndexEntry(off, t) + rest;
    assert idx == LE(6, off) + ([|t|] + t + rest);
    U48RoundTrip(off, [|t|] + t + rest);
  }

  lemma {:induction false} BandGrows(v: seq<Item>, m: nat, n: nat)
    requires Short(v) && m <= n <= NumChunks(|v|)
    ensures Band(v, m) <= Band(v, n)
    decreases n
  {
    hide Short, BlockBytes, Chunk, NumChunks;
    if m < n {
      BandGrows(v, m, n - 1);
    }
  }

  lemma BandNext(v: seq<Item>, b: nat)
    requires Short(v) && b < NumChunks(|v|)
    ensures Short(Chunk(v, b)) && Band(v, b + 1) == Band(v, b) + BlockBytes(Chunk(v, b))
  {
    ChunkShort(v, b);
  }

  lemma BlockNotEmpty(v: seq<Item>, b: nat)
    requires Short(v) && b < NumChunks(|v|)
    ensures Short(Chunk(v, b)) && |BlockBytes(Chunk(v, b))| >= 32
  {
    hide TermBytes, Short;
    ChunkShort(v, b);
  }

  lemma ChunkShort(v: seq<Item>, b: nat)
    requires Short(v) && b < NumChunks(|v|)
    ensures Short(Chunk(v, b))
  {
    assert forall y :: y in Chunk(v, b) ==> y in v;
  }

  /** One entry that passes every check is taken off the front. */
  lemma IndexStep(off: nat, t: Term, rest: seq<byte>, n: nat, offs: seq<nat>, first: seq<Term>, indexOff: nat)
    requires off <= MAX_U48 && 1 <= |t| <= 64 && |offs| == |first| && off < indexOff
    requires if offs == [] then off == 0 else offs[|offs| - 1] < off && Less(first[|offs| - 1], t)
    ensures ReadIndex(IndexEntry(off, t) + rest, n + 1, offs, first, indexOff)
         == ReadIndex(rest, n, offs + [off], first + [t], indexOff)
  {
    hide Less, U48, IndexEntry;
    EntryReads(off, t, rest);
  }

  lemma BandStep(v: seq<Item>, k: nat)
    requires Short(v) && k < NumChunks(|v|)
    ensures |Band(v, k)| < |Band(v, k + 1)|
  {
    hide Short, Band, BlockBytes, Chunk;
    BandNext(v, k);
    BlockNotEmpty(v, k);
  }

  lemma BandFits(v: seq<Item>, k: nat)
    requires Sized(v) && k < NumChunks(|v|)
    ensures |Band(v, k)| < |Band(v, NumChunks(|v|))| <= MAX_U48
  {
    hide Short, Band, NumChunks;
    BandStep(v, k);
    BandGrows(v, k + 1, NumChunks(|v|));
  }

  /** Block k's entry is in order behind the entries before it. */
  lemma EntryInOrder(v: seq<Item>, k: nat)
    requires Blockwise(v) && Sized(v) && k < NumChunks(|v|)
    ensures 64 * k < |v| && 1 <= |v[64 * k].term| <= 64 && |Band(v, k)| < |Band(v, NumChunks(|v|))| <= MAX_U48
    ensures k == 0 ==> Band(v, k) == []
    ensures k > 0 ==> |Band(v, k - 1)| < |Band(v, k)| && Less(v[64 * (k - 1)].term, v[64 * k].term)
  {
    hide Short, Band, Less, Blockwise;
    BlockTerm(v, k);
    BandFits(v, k);
    NoBand(v);
    if k > 0 {
      BandStep(v, k - 1);
      BlockTermsIncrease(v, k - 1, k);
    }
  }

  lemma TailStep(v: seq<Item>, k: nat, n: nat)
    requires Short(v) && k < n <= NumChunks(|v|)
    ensures 64 * k < |v| && |v[64 * k].term| <= 64
    ensures IndexTail(v, k, n) == IndexEntry(|Band(v, k)|, v[64 * k].term) + IndexTail(v, k + 1, n)
    ensures Offs(v, k + 1) == Offs(v, k) + [|Band(v, k)|] && Firsts(v, k + 1) == Firsts(v, k) + [v[64 * k].term]
  {
    hide Short, Band, IndexEntry;
    TermShort(v, 64 * k);
  }

  lemma TailReads(v: seq<Item>, k: nat, n: nat)
    requires Blockwise(v) && Sized(v) && k < n == NumChunks(|v|)
    ensures ReadIndex(IndexTail(v, k, n), n - k, Offs(v, k), Firsts(v, k), |Band(v, n)|)
         == ReadIndex(IndexTail(v, k + 1, n), n - k - 1, Offs(v, k + 1), Firsts(v, k + 1), |Band(v, n)|)
  {
    hide Short, Band, IndexEntry, Blockwise, Less, ReadIndex, NumChunks, IndexTail, Offs, Firsts;
    EntryInOrder(v, k);
    TailStep(v, k, n);
    IndexStep(|Band(v, k)|, v[64 * k].term, IndexTail(v, k + 1, n), n - k - 1, Offs(v, k), Firsts(v, k), |Band(v, n)|);
  }

  lemma {:induction false} IndexReads(v: seq<Item>, k: nat, n: nat)
    requires Blockwise(v) && Sized(v) && k <= n == NumChunks(|v|)
    ensures ReadIndex(IndexTail(v, k, n), n - k, Offs(v, k), Firsts(v, k), |Band(v, n)|) == Ok((Offs(v, n), Firsts(v, n)))
    decreases n - k
  {
    hide Band, IndexEntry, Blockwise, Less, Offs, Firsts, NumChunks;
    if k < n {
      hide ReadIndex, IndexTail;
      TailReads(v, k, n);
      IndexReads(v, k + 1, n);
    }
  }

  lemma NoBand(v: seq<Item>)
    requires Short(v)
    ensures Band(v, 0) == []
  {
  }

  lemma TermOf(v: seq<Item>, i: nat)
    requires Vocabulary(v) && i < |v|
    ensures 1 <= |v[i].term| <= 64 && ValidEntry(v[i].entry) && |v[i].entry.inline| <= 4
  {
    assert ValidItem(v[i]);
  }

  lemma TermsIncrease(v: seq<Item>, i: nat, j: nat)
    requires Vocabulary(v) && i < j < |v|
    ensures Less(v[i].term, v[j].term)
  {
  }

  lemma TrailerReads(a: nat, n: nat, m: nat)
    requires a < 0x1_0000_0000_0000_0000 && n <= MAX_U32 && m < 0x1_0000_0000_0000_0000
    ensures var t := Trailer(a, n, m); FromLE(t[..8]) == a && FromLE(t[8..12]) == n && FromLE(t[12..]) == m
  {
    ByteBase();
    assert Pow(0x100, 6) == 0x1_0000_0000_0000 && Pow(0x100, 8) == 0x1_0000_0000_0000_0000;
    NumDigits(0x100, 8, a);
    NumDigits(0x100, 4, n);
    NumDigits(0x100, 8, m);
    var t := Trailer(a, n, m);
    assert t[..8] == LE(8, a) && t[8..12] == LE(4, n) && t[12..] == LE(8, m);
  }

  /** Any band and index under their trailer open as what the index reads as. */
  lemma PartsOpen(band: seq<byte>, index: seq<byte>, n: nat, m: nat, offs: seq<nat>, first: seq<Term>)
    requires 32 <= |band| < 0x1_0000_0000_0000_0000 && index != [] && n <= MAX_U32 && m < 0x1_0000_0000_0000_0000
    requires m > 0 && n == NumChunks(m) && ReadIndex(index, n, [], [], |band|) == Ok((offs, first))
    ensures var data := band + index + Trailer(|band|, n, m); OpenOf(data) == Ok(Dict(data, m, offs, first, |band|))
  {
    hide ReadIndex, Trailer;
    TrailerReads(|band|, n, m);
    ThreeParts(band, index, Trailer(|band|, n, m));
  }

  /** Blocks that are in order open, with every block's offset and first term. */
  lemma BlocksOpen(v: seq<Item>)
    requires Blockwise(v) && v != [] && Sized(v)
    ensures OpenOf(DictBytes(v)) == Ok(DictOf(v))
  {
    hide Short, Band, IndexEntry, Blockwise, ReadIndex, Trailer, Index, OpenOf, BlockBytes, Offs, Firsts;
    var n := NumChunks(|v|);
    BandGrows(v, 1, n);
    BandNext(v, 0);
    BlockNotEmpty(v, 0);
    IndexNotEmpty(v);
    IndexSplit(v, 0, n);
    IndexStart(v);
    IndexReads(v, 0, n);
    PartsOpen(Band(v, n), Index(v, n), n, |v|, Offs(v, n), Firsts(v, n));
  }

  /** What Seal wrote opens, with every block's offset and first term. */
  lemma SealedOpens(v: seq<Item>)
    requires Vocabulary(v) && v != [] && Sized(v)
    ensures OpenOf(DictBytes(v)) == Ok(DictOf(v))
  {
    hide Vocabulary, Blockwise, Sized, DictBytes, DictOf, OpenOf;
    VocabularyBlockwise(v);
    SealedShort(v);
    BlocksOpen(v);
  }

  lemma IndexStart(v: seq<Item>)
    requires Short(v)
    ensures Index(v, 0) == [] && Offs(v, 0) == [] && Firsts(v, 0) == []
    ensures forall s: seq<byte> :: [] + s == s
  {
  }

  lemma IndexNotEmpty(v: seq<Item>)
    requires Short(v) && v != []
    ensures |Index(v, NumChunks(|v|))| > 0
  {
  }

  lemma ThreeParts(a: seq<byte>, b: seq<byte>, t: seq<byte>)
    requires |t| == 20
    ensures var d := a + b + t; d[|d| - 20..] == t && d[|a|..|d| - 20] == b && d[..|a|] == a && d[..|d| - 20] == a + b
  {
  }

  // ----- a block reads back -----

  lemma FrontOf(area: seq<byte>, pos: nat, d: seq<byte>)
    requires pos + |d| <= |area| && area[pos..pos + |d|] == d && |d| >= 2
    ensures area[pos] == d[0] && area[pos + 1] == d[1] && area[pos + 2..pos + |d|] == d[2..]
  {
    assert d[0] == area[pos..pos + |d|][0] && d[1] == area[pos..pos + |d|][1];
  }

  lemma DeltaParts(prev: Term, t: Term)
    requires |t| <= 64 && Less(prev, t)
    ensures var n, d := Lcp(prev, t), Delta(prev, t);
            && d[0] == n <= |prev| && d[1] == |t| - n > 0 && d[2..] == t[n..] && prev[..n] + t[n..] == t
            && (n < |prev| ==> t[n..][0] > prev[n])
  {
    var n := Lcp(prev, t);
    assert t == t[..n] + t[n..];
  }

  /** A difference, read behind the term it was taken from, is the next term. */
  lemma DeltaReads(area: seq<byte>, lim: nat, pos: nat, prev: Term, t: Term)
    requires |t| <= 64 && Less(prev, t) && lim <= |area|
    requires pos + |Delta(prev, t)| <= lim && area[pos..pos + |Delta(prev, t)|] == Delta(prev, t)
    ensures NextTerm(area, lim, pos, prev) == Ok((t, pos + |Delta(prev, t)|))
  {
    DeltaParts(prev, t);
    FrontOf(area, pos, Delta(prev, t));
    hide Less, Lcp;
  }

  lemma {:induction false} TermBytesPrefix(c: seq<Item>, i: nat)
    requires Short(c) && i <= |c|
    ensures Short(c[..i]) && |TermBytes(c[..i])| <= |TermBytes(c)| && TermBytes(c)[..|TermBytes(c[..i])|] == TermBytes(c[..i])
    decreases |c| - i
  {
    hide Short, Delta;
    PartShort(c, i);
    if i == |c| {
      assert c[..i] == c;
    } else {
      TermBytesPrefix(c, i + 1);
      TermStep(c, i);
    }
  }

  lemma PartShort(c: seq<Item>, i: nat)
    requires Short(c) && i <= |c|
    ensures Short(c[..i])
  {
    assert forall y :: y in c[..i] ==> y in c;
  }

  lemma TermStep(c: seq<Item>, i: nat)
    requires Short(c) && i < |c|
    ensures Short(c[..i]) && Short(c[..i + 1]) && |c[i].term| <= 64
    ensures TermBytes(c[..i + 1])
         == if i == 0 then [|c[0].term|] + c[0].term else TermBytes(c[..i]) + Delta(c[i - 1].term, c[i].term)
    ensures TermBytes(c[..0]) == []
  {
    hide Short, Delta, EntriesBytes;
    PartShort(c, i);
    PartShort(c, i + 1);
    assert c[..i + 1] == c[..i] + [c[i]];
    TermBytesGrow(c[..i], c[i]);
  }

  function Terms(c: seq<Item>): (ts: seq<Term>)
    ensures |ts| == |c| && forall i :: 0 <= i < |c| ==> ts[i] == c[i].term
  {
    seq(|c|, i requires 0 <= i < |c| => c[i].term)
  }

  /** Where term i of the block starts. */
  function At(c: seq<Item>, i: nat): nat
    requires Short(c) && i <= |c|
  {
    PartShort(c, i);
    |TermBytes(c[..i])|
  }

  ghost predicate IsBlock(area: seq<byte>, c: seq<Item>) {
    Vocabulary(c) && Short(c) && c != [] && BlockBytes(c) <= area
  }

  lemma FirstReads(area: seq<byte>, c: seq<Item>, lim: nat)
    requires IsBlock(area, c) && |TermBytes(c)| <= lim <= |area|
    ensures FirstTerm(area, lim) == Ok((c[0].term, At(c, 1)))
  {
    hide Vocabulary, Short, EntriesBytes;
    TermOf(c, 0);
    TermStep(c, 0);
    TermBytesPrefix(c, 1);
    var b := [|c[0].term|] + c[0].term;
    BlockFront(area, c, |b|);
    FirstAt(area, lim, c[0].term);
  }

  /** A block starts with its terms. */
  lemma BlockFront(area: seq<byte>, c: seq<Item>, n: nat)
    requires Short(c) && BlockBytes(c) <= area && n <= |TermBytes(c)|
    ensures n <= |area| && area[..n] == TermBytes(c)[..n]
  {
    hide Short, TermBytes, EntriesBytes;
  }

  lemma FirstAt(area: seq<byte>, lim: nat, t: Term)
    requires 1 <= |t| <= 64 && 1 + |t| <= lim <= |area| && area[..1 + |t|] == [|t|] + t
    ensures FirstTerm(area, lim) == Ok((t, 1 + |t|))
  {
    assert area[0] == area[..1 + |t|][0] == |t|;
    assert area[1..1 + |t|] == area[..1 + |t|][1..] == t;
  }

  lemma NextReads(area: seq<byte>, c: seq<Item>, lim: nat, i: nat)
    requires IsBlock(area, c) && |TermBytes(c)| <= lim <= |area| && 1 <= i < |c|
    ensures NextTerm(area, lim, At(c, i), c[i - 1].term) == Ok((c[i].term, At(c, i + 1)))
  {
    hide Vocabulary, Short, EntriesBytes, TermBytes, BlockBytes, Delta, NextTerm, Less;
    TermOf(c, i);
    TermStep(c, i);
    TermBytesPrefix(c, i + 1);
    TermsIncrease(c, i - 1, i);
    var p, e := At(c, i), At(c, i + 1);
    BlockFront(area, c, e);
    assert area[p..e] == area[..e][p..];
    DeltaReads(area, lim, p, c[i - 1].term, c[i].term);
  }

  lemma {:induction false} TermsRead(area: seq<byte>, c: seq<Item>, i: nat)
    requires IsBlock(area, c) && 1 <= i <= |c|
    ensures MoreTerms(area, |area|, At(c, i), c[i - 1].term, |c| - i) == Ok((Terms(c)[i..], |TermBytes(c)|))
    decreases |c| - i
  {
    hide Vocabulary, Short, TermBytes, EntriesBytes, NextTerm;
    if i == |c| {
      assert c[..i] == c && Terms(c)[i..] == [];
    } else {
      NextReads(area, c, |area|, i);
      TermsRead(area, c, i + 1);
      assert Terms(c)[i..] == [c[i].term] + Terms(c)[i + 1..];
    }
  }

  function Entries(c: seq<Item>): (es: seq<Entry>)
    ensures |es| == |c| && forall i :: 0 <= i < |c| ==> es[i] == c[i].entry
  {
    seq(|c|, i requires 0 <= i < |c| => c[i].entry)
  }

  lemma {:induction false} EntriesSlice(c: seq<Item>, i: nat)
    requires Short(c) && i < |c|
    ensures |c[i].entry.inline| <= 4 && EntriesBytes(c)[32 * i..32 * i + 32] == EntryBytes(c[i].entry)
  {
    hide Short, EntryBytes;
    var n := |c| - 1;
    PartShort(c, n);
    assert c == c[..n] + [c[n]];
    ShortPrefix(c[..n], c[n]);
    if i < n {
      EntriesSlice(c[..n], i);
      assert EntriesBytes(c)[32 * i..32 * i + 32] == EntriesBytes(c[..n])[32 * i..32 * i + 32];
    }
  }

  lemma EntryAt(area: seq<byte>, c: seq<Item>, i: nat)
    requires IsBlock(area, c) && i < |c|
    ensures var at := |TermBytes(c)| + 32 * i;
            at + 32 <= |area| && EntryOf(area[at..at + 32]) == Some(c[i].entry)
  {
    hide Vocabulary, Short, EntryBytes, EntryOf, ValidEntry, TermBytes, EntriesBytes;
    TermOf(c, i);
    EntriesSlice(c, i);
    var at := |TermBytes(c)| + 32 * i;
    assert area[at..at + 32] == BlockBytes(c)[at..at + 32] == EntriesBytes(c)[32 * i..32 * i + 32];
    EntryRoundTrip(c[i].entry);
  }

  lemma {:induction false} EntriesRead(area: seq<byte>, c: seq<Item>, i: nat)
    requires IsBlock(area, c) && i <= |c|
    ensures |TermBytes(c)| + 32 * |c| <= |area|
    ensures EntriesOf(area, |TermBytes(c)| + 32 * i, |c| - i) == Ok(Entries(c)[i..])
    decreases |c| - i
  {
    hide Vocabulary, Short, TermBytes, EntriesBytes, EntryOf;
    if i == |c| {
      assert Entries(c)[i..] == [];
    } else {
      EntryAt(area, c, i);
      EntriesRead(area, c, i + 1);
      assert Entries(c)[i..] == [c[i].entry] + Entries(c)[i + 1..];
    }
  }

  lemma {:induction false} MatchIsFind(c: seq<Item>, q: Term)
    ensures Match(Terms(c), Entries(c), q) == Find(c, q)
  {
    if c != [] {
      var n := |c| - 1;
      MatchIsFind(c[..n], q);
      assert Terms(c)[..n] == Terms(c[..n]) && Entries(c)[..n] == Entries(c[..n]);
    }
  }

  /** The full scan finds what the block holds. */
  lemma ScanFinds(area: seq<byte>, c: seq<Item>, q: Term)
    requires IsBlock(area, c)
    ensures ScanFor(area, |c|, c[0].term, q) == Ok(Find(c, q))
  {
    hide Vocabulary, Short, TermBytes, EntriesBytes, MoreTerms, EntriesOf, FirstTerm, Match, Find;
    EntriesRead(area, c, 0);
    FirstReads(area, c, |area|);
    TermsRead(area, c, 1);
    assert Terms(c) == [c[0].term] + Terms(c)[1..] && Entries(c)[0..] == Entries(c);
    MatchIsFind(c, q);
  }

  // ----- the early-stopping walk -----

  lemma {:induction false} FindAbsent(c: seq<Item>, q: Term)
    requires forall i :: 0 <= i < |c| ==> c[i].term != q
    ensures Find(c, q) == None
  {
    if c != [] {
      FindAbsent(c[..|c| - 1], q);
    }
  }

  lemma {:induction false} FindAt(c: seq<Item>, q: Term, i: nat)
    requires i < |c| && c[i].term == q && forall j :: i < j < |c| ==> c[j].term != q
    ensures Find(c, q) == Some(c[i].entry)
  {
    if i < |c| - 1 {
      FindAt(c[..|c| - 1], q, i);
    }
  }

  /** Past the first greater term, or past an equal one, nothing equals q. */
  lemma NoneAfter(c: seq<Item>, q: Term, i: nat)
    requires Vocabulary(c) && i < |c| && (c[i].term == q || Less(q, c[i].term))
    ensures forall j :: i < j < |c| ==> c[j].term != q
  {
    hide Less;
    forall j | i < j < |c| ensures c[j].term != q {
      LessTotal(c[j].term, q);
      LessTotal(c[i].term, c[j].term);
      if Less(q, c[i].term) {
        LessTrans(q, c[i].term, c[j].term);
      }
    }
  }

  lemma {:induction false} SeekFinds(area: seq<byte>, c: seq<Item>, q: Term, i: nat)
    requires IsBlock(area, c) && i <= |c| && forall j :: 0 <= j < i ==> c[j].term != q
    ensures |TermBytes(c)| + 32 * |c| <= |area|
    ensures Seek(area, |TermBytes(c)|, i, |c|, At(c, i), if i == 0 then [] else c[i - 1].term, c[0].term, q) == Ok(Find(c, q))
    decreases |c| - i
  {
    hide Vocabulary, Short, TermBytes, EntriesBytes, FirstTerm, NextTerm, EntryOf, Less, Find;
    EntriesRead(area, c, 0);
    if i == |c| {
      FindAbsent(c, q);
    } else {
      var at := |TermBytes(c)|;
      if i == 0 {
        FirstReads(area, c, at);
      } else {
        NextReads(area, c, at, i);
      }
      if c[i].term == q {
        EntryAt(area, c, i);
        NoneAfter(c, q, i);
        FindAt(c, q, i);
      } else if Less(q, c[i].term) {
        NoneAfter(c, q, i);
        FindAbsent(c, q);
      } else {
        SeekFinds(area, c, q, i + 1);
      }
    }
  }

  // ----- the block a term would be in -----

  lemma {:induction false} FindPrefix(v: seq<Item>, q: Term, n: nat)
    requires n <= |v| && forall i :: n <= i < |v| ==> v[i].term != q
    ensures Find(v, q) == Find(v[..n], q)
    decreases |v|
  {
    if n < |v| {
      FindPrefix(v[..|v| - 1], q, n);
      assert v[..|v| - 1][..n] == v[..n];
    } else {
      assert v[..n] == v;
    }
  }

  lemma {:induction false} FindSuffix(v: seq<Item>, q: Term, m: nat)
    requires m <= |v| && forall i :: 0 <= i < m ==> v[i].term != q
    ensures Find(v, q) == Find(v[m..], q)
    decreases |v|
  {
    if m == |v| {
      FindAbsent(v, q);
    } else {
      FindSuffix(v[..|v| - 1], q, m);
      assert v[m..][..|v| - 1 - m] == v[..|v| - 1][m..];
    }
  }

  lemma BelowAll(v: seq<Item>, q: Term, m: nat)
    requires Vocabulary(v) && m < |v| && !Less(q, v[m].term)
    ensures forall i :: 0 <= i < m ==> v[i].term != q
  {
    hide Less;
    forall i | 0 <= i < m ensures v[i].term != q {
      assert Less(v[i].term, v[m].term);
    }
  }

  lemma AboveAll(v: seq<Item>, q: Term, n: nat)
    requires Vocabulary(v) && n < |v| && Less(q, v[n].term)
    ensures forall i :: n <= i < |v| ==> v[i].term != q
  {
    hide Less;
    LessTotal(q, v[n].term);
    NoneAfter(v, q, n);
  }

  /** A term is in the vocabulary exactly when it is in the last block that does not start past it. */
  lemma InItsBlock(v: seq<Item>, q: Term, b: nat)
    requires Vocabulary(v) && b < NumChunks(|v|) && !Less(q, v[64 * b].term)
    requires b + 1 < NumChunks(|v|) ==> Less(q, v[64 * (b + 1)].term)
    ensures Find(v, q) == Find(Chunk(v, b), q)
  {
    hide Less, Vocabulary, Find;
    var m, n := 64 * b, if 64 * b + 64 < |v| then 64 * b + 64 else |v|;
    BelowAll(v, q, m);
    if n < |v| {
      AboveAll(v, q, n);
    }
    FindPrefix(v, q, n);
    FindSuffix(v[..n], q, m);
    assert v[..n][m..] == v[m..n];
  }

  lemma StandsIn(pre: seq<byte>, block: seq<byte>, band: seq<byte>, index: seq<byte>, t: seq<byte>)
    requires pre + block <= band
    ensures block <= (band + index + t)[|pre|..|band|]
  {
    assert (band + index + t)[..|band|] == band;
    assert block == (pre + block)[|pre|..] == band[..|pre + block|][|pre|..];
  }

  lemma ChunkIsBlock(v: seq<Item>, b: nat)
    requires Blockwise(v) && Sized(v) && b < NumChunks(|v|)
    ensures var d := DictOf(v);
            && d.blockOff[b] <= d.indexOff <= |d.data| && IsBlock(d.data[d.blockOff[b]..d.indexOff], Chunk(v, b))
            && EntriesAt(d, b) == |TermBytes(Chunk(v, b))| && CountIn(d, b) == |Chunk(v, b)| && Chunk(v, b)[0] == v[64 * b]
            && EntriesAt(d, b) >= 1
  {
    hide Short, Band, Vocabulary, Blockwise, Index, Trailer, TermBytes, EntriesBytes;
    var n := NumChunks(|v|);
    var c := Chunk(v, b);
    BandGrows(v, b + 1, n);
    BandNext(v, b);
    StandsIn(Band(v, b), BlockBytes(c), Band(v, n), Index(v, n), Trailer(|Band(v, n)|, n, |v|));
    BlockFine(v, b);
    ChunkShort(v, b);
    FirstNotEmpty(c);
  }

  lemma ChunkVocabulary(v: seq<Item>, b: nat)
    requires Vocabulary(v) && b < NumChunks(|v|)
    ensures Vocabulary(Chunk(v, b))
  {
    var c := Chunk(v, b);
    assert forall i :: 0 <= i < |c| ==> c[i] == v[64 * b + i];
  }

  lemma FirstNotEmpty(c: seq<Item>)
    requires Short(c) && c != []
    ensures |TermBytes(c)| >= 1
  {
    hide Short, Delta;
    TermStep(c, 0);
    TermBytesPrefix(c, 1);
  }

  /**
   * Both lookups are the plain map: for every vocabulary the writer accepts and every query, the full block scan and the
   * early-stopping walk return the entry that was added, or both report the term absent, without an error.
   */
  method LookupBoth(v: seq<Item>, q: Term) returns (full: Result<Option<Entry>, DictError>, walk: Result<Option<Entry>, DictError>)
    requires Vocabulary(v) && v != [] && Sized(v)
    ensures full == walk == Ok(Find(v, q))
  {
    hide Vocabulary, Short, Find, Less, ScanFor, Seek, DictBytes, DictOf, OpenOf, CountIn, EntriesAt, Sized;
    SealedShort(v);
    SealedOpens(v);
    var o := OpenDict(DictBytes(v));
    var d := o.value;
    full := Lookup(d, q);
    walk := LookupInto(d, q);
    LookupsFind(v, q, d, full, walk);
  }

  lemma SealedShort(v: seq<Item>)
    requires Sized(v)
    ensures Short(v)
  {
  }

  /** What the two lookups answered, by the block they looked in. */
  ghost predicate Answered(d: Dict, q: Term, full: Result<Option<Entry>, DictError>, walk: Result<Option<Entry>, DictError>)
    requires Opened(d)
  {
    && (Less(q, d.first[0]) ==> full == Ok(None) && walk == Ok(None))
    && forall b: nat :: BlockFor(d, q, b) ==> full == ScanIn(d, b, q) && walk == SeekIn(d, b, q)
  }

  function ScanIn(d: Dict, b: nat, q: Term): Result<Option<Entry>, DictError>
    requires Opened(d) && b < NumChunks(d.nterms)
  {
    ScanFor(d.data[d.blockOff[b]..d.indexOff], CountIn(d, b), d.first[b], q)
  }

  lemma LookupsFind(v: seq<Item>, q: Term, d: Dict, full: Result<Option<Entry>, DictError>, walk: Result<Option<Entry>, DictError>)
    requires Opened(d) && Vocabulary(v) && v != [] && Sized(v) && d == DictOf(v) && Answered(d, q, full, walk)
    ensures full == walk == Ok(Find(v, q))
  {
    VocabularyBlockwise(v);
    hide Vocabulary, Blockwise, Short, Find, Less, ScanFor, Seek, DictBytes, Band, EntriesAt, CountIn, IsBlock;
    if Less(q, d.first[0]) {
      AboveAll(v, q, 0);
      FindAbsent(v, q);
    } else {
      var b := LastNotPast(d, q, 0);
      var c := Chunk(v, b);
      ChunkIsBlock(v, b);
      var area := d.data[d.blockOff[b]..d.indexOff];
      ScanFinds(area, c, q);
      SeekFinds(area, c, q, 0);
      ChunkShort(v, b);
      StartAt(c);
      InItsBlock(v, q, b);
    }
  }

  lemma StartAt(c: seq<Item>)
    requires Short(c)
    ensures At(c, 0) == 0
  {
    assert c[..0] == [];
  }

  lemma LastNotPast(d: Dict, q: Term, k: nat) returns (b: nat)
    requires Opened(d) && k < |d.first| && !Less(q, d.first[k])
    ensures BlockFor(d, q, b)
    decreases |d.first| - k
  {
    hide Less;
    if k + 1 < |d.first| && !Less(q, d.first[k + 1]) {
      b := LastNotPast(d, q, k + 1);
    } else {
      b := k;
    }
  }

  lemma SealedIsOpened(v: seq<Item>)
    requires Vocabulary(v) && v != [] && Sized(v)
    ensures Short(v) && Opened(DictOf(v))
  {
    hide Vocabulary, Short, Sized, OpenOf, DictOf, Opened, DictBytes;
    SealedShort(v);
    SealedOpens(v);
    OpenSound(DictBytes(v));
  }

  /** The walk alone. */
  lemma WalkFinds(v: seq<Item>, q: Term, walk: Result<Option<Entry>, DictError>)
    requires Vocabulary(v) && v != [] && Sized(v) && Opened(DictOf(v))
    requires Less(q, DictOf(v).first[0]) ==> walk == Ok(None)
    requires forall b: nat :: BlockFor(DictOf(v), q, b) ==> walk == SeekIn(DictOf(v), b, q)
    ensures walk == Ok(Find(v, q))
  {
    hide Vocabulary, Short, Find, Less, ScanFor, Seek, SeekIn, DictBytes, Band;
    var d := DictOf(v);
    if Less(q, d.first[0]) {
      AboveToo(d.first, q, 0);
      LookupsFind(v, q, d, Ok(None), walk);
    } else {
      var b := LastNotPast(d, q, 0);
      var full := ScanFor(d.data[d.blockOff[b]..d.indexOff], CountIn(d, b), d.first[b], q);
      assert forall c: nat :: BlockFor(d, q, c) ==> c == b by { OneFor(d, q, b); }
      LookupsFind(v, q, d, full, walk);
    }
  }

  lemma OneFor(d: Dict, q: Term, b: nat)
    requires Opened(d) && BlockFor(d, q, b)
    ensures forall c: nat :: BlockFor(d, q, c) ==> c == b
  {
    hide Less;
    forall c: nat | BlockFor(d, q, c) ensures c == b {
      if c < b {
        AboveToo(d.first, q, c + 1);
      }
      if b < c {
        AboveToo(d.first, q, b + 1);
      }
    }
  }

  /** Where a found entry was added. */
  lemma {:induction false} Found(v: seq<Item>, q: Term) returns (i: nat)
    ensures Find(v, q).Some? ==> i < |v| && v[i].term == q && Find(v, q) == Some(v[i].entry)
    ensures Find(v, q).None? ==> forall j :: 0 <= j < |v| ==> v[j].term != q
  {
    if v == [] || v[|v| - 1].term == q {
      i := if v == [] then 0 else |v| - 1;
    } else {
      i := Found(v[..|v| - 1], q);
      assert forall j :: 0 <= j < |v| - 1 ==> v[..|v| - 1][j] == v[j];
    }
  }
}
