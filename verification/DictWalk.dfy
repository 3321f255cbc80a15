/** Walking a whole dictionary, hotfmt/dict.go Walk: every term and entry that was added, in order. */
module DictWalking {
  import opened Bytes
  import opened DictEntries
  import opened DictFormat
  import opened DictReading
  import opened DictLaws

  /** The callback is called for every term of one block. */
  method ScanItems(area: seq<byte>, n: nat, first: Term) returns (r: Result<(seq<Term>, seq<Entry>, nat), DictError>)
    requires n >= 1
    ensures r == ScanEnd(area, n, first)
  {
    hide NextTerm, EntryOf, EntriesOf;
    var f := FirstTerm(area, |area|);
    if f.Err? {
      return Err(f.error);
    }
    var (t, pos) := f.value;
    if t != first {
      return Err(FirstDisagrees);
    }
    var more := ScanTerms(area, pos, t, n - 1);
    if more.Err? {
      return Err(more.error);
    }
    var (ts, at) := more.value;
    if at + 32 * n > |area| {
      return Err(BlockTruncated);
    }
    var es := ReadEntries(area, at, n);
    if es.Err? {
      return Err(es.error);
    }
    return Ok(([t] + ts, es.value, at + 32 * n));
  }

  method ReadEntries(area: seq<byte>, at: nat, n: nat) returns (r: Result<seq<Entry>, DictError>)
    requires at + 32 * n <= |area|
    ensures r == EntriesOf(area, at, n)
  {
    hide EntryOf;
    var es: seq<Entry> := [];
    ghost var whole := EntriesOf(area, at, n);
    AheadNothing(whole);
    for i := 0 to n
      invariant |es| == i && whole == Ahead(es, EntriesOf(area, at + 32 * i, n - i))
    {
      var e := EntryOf(area[at + 32 * i..at + 32 * i + 32]);
      if e.None? {
        return Err(BadEntry);
      }
      AheadMore(es, e.value, EntriesOf(area, at + 32 * (i + 1), n - i - 1));
      es := es + [e.value];
    }
    assert es + [] == es;
    return Ok(es);
  }

  /** Walk, collecting what the callback sees. */
  method Walk(d: Dict) returns (r: Result<seq<Item>, DictError>)
    requires Opened(d)
    ensures r == WalkFrom(d, 0)
  {
    hide ScanEnd;
    var seen: seq<Item> := [];
    ghost var whole := WalkFrom(d, 0);
    SeenNothing(whole);
    for b := 0 to |d.first|
      invariant whole == Seen(seen, WalkFrom(d, b))
    {
      var block := ScanItems(d.data[d.blockOff[b]..d.indexOff], CountIn(d, b), d.first[b]);
      if block.Err? {
        return Err(block.error);
      }
      var (ts, es, end) := block.value;
      var next := if b + 1 < |d.first| then d.blockOff[b + 1] else d.indexOff;
      if d.blockOff[b] + end != next {
        return Err(NotDense);
      }
      SeenMore(seen, Items(ts, es), WalkFrom(d, b + 1));
      seen := seen + Items(ts, es);
    }
    assert seen + [] == seen;
    return Ok(seen);
  }

  function Seen(a: seq<Item>, r: Result<seq<Item>, DictError>): Result<seq<Item>, DictError> {
    match r
    case Err(e) => Err(e)
    case Ok(more) => Ok(a + more)
  }

  lemma SeenNothing(r: Result<seq<Item>, DictError>)
    ensures Seen([], r) == r
  {
    if r.Ok? {
      assert [] + r.value == r.value;
    }
  }

  lemma SeenMore(a: seq<Item>, b: seq<Item>, r: Result<seq<Item>, DictError>)
    ensures Seen(a, Seen(b, r)) == Seen(a + b, r)
  {
    if r.Ok? {
      assert a + (b + r.value) == (a + b) + r.value;
    }
  }

  // ----- the law -----

  lemma ItemsAre(c: seq<Item>)
    ensures Items(Terms(c), Entries(c)) == c
  {
  }

  /** A written block is read as its own items, up to its last byte. */
  lemma BlockScans(area: seq<byte>, c: seq<Item>)
    requires IsBlock(area, c)
    ensures ScanEnd(area, |c|, c[0].term) == Ok((Terms(c), Entries(c), |BlockBytes(c)|))
  {
    hide Vocabulary, Short, TermBytes, EntriesBytes, MoreTerms, EntriesOf, FirstTerm;
    EntriesRead(area, c, 0);
    FirstReads(area, c, |area|);
    TermsRead(area, c, 1);
    assert Terms(c) == [c[0].term] + Terms(c)[1..] && Entries(c)[0..] == Entries(c);
  }

  /** Block b of the sealed dictionary ends where the next one starts. */
  lemma BlocksMeet(v: seq<Item>, b: nat)
    requires Blockwise(v) && Sized(v) && b < NumChunks(|v|)
    ensures Short(Chunk(v, b))
    ensures var d := DictOf(v);
            d.blockOff[b] + |BlockBytes(Chunk(v, b))| == if b + 1 < |d.first| then d.blockOff[b + 1] else d.indexOff
  {
    hide Blockwise, Short, BlockBytes, DictBytes, Less, Band;
    BandNext(v, b);
  }

  lemma WalkStep(v: seq<Item>, b: nat)
    requires Blockwise(v) && v != [] && Sized(v) && b < NumChunks(|v|) && Opened(DictOf(v))
    ensures WalkFrom(DictOf(v), b) == Seen(Chunk(v, b), WalkFrom(DictOf(v), b + 1))
  {
    hide Blockwise, Sized, Short, Band, ScanEnd, BlockBytes, EntriesAt, CountIn, Less, DictBytes, IsBlock;
    SealedShort(v);
    var d, c := DictOf(v), Chunk(v, b);
    ChunkIsBlock(v, b);
    BlockScans(d.data[d.blockOff[b]..d.indexOff], c);
    BlocksMeet(v, b);
    ItemsAre(c);
  }

  /** What the blocks from b on hold. */
  function FromBlock(v: seq<Item>, b: nat): seq<Item> {
    if 64 * b < |v| then v[64 * b..] else []
  }

  /** From block b on, the walk yields the rest of the vocabulary. */
  lemma {:induction false} WalkReads(v: seq<Item>, b: nat)
    requires Blockwise(v) && v != [] && Sized(v) && b <= NumChunks(|v|) && Opened(DictOf(v))
    ensures WalkFrom(DictOf(v), b) == Ok(FromBlock(v, b))
    decreases NumChunks(|v|) - b
  {
    hide Blockwise, Sized, Short, DictOf, Opened, WalkFrom, Chunk, FromBlock, NumChunks;
    if b < NumChunks(|v|) {
      WalkStep(v, b);
      WalkReads(v, b + 1);
      RestSplits(v, b);
    } else {
      WalkEnd(v, b);
    }
  }

  lemma WalkEnd(v: seq<Item>, b: nat)
    requires Blockwise(v) && v != [] && Sized(v) && b == NumChunks(|v|) && Opened(DictOf(v))
    ensures WalkFrom(DictOf(v), b) == Ok([]) && FromBlock(v, b) == []
  {
    hide Blockwise, Less;
  }

  lemma RestSplits(v: seq<Item>, b: nat)
    requires b < NumChunks(|v|)
    ensures FromBlock(v, b) == Chunk(v, b) + FromBlock(v, b + 1)
  {
  }

  /** Opening what was sealed and walking it yields exactly the terms and entries that were added, in order. */
  method WalkSealed(v: seq<Item>) returns (r: Result<seq<Item>, DictError>)
    requires Vocabulary(v) && v != [] && Sized(v)
    ensures r == Ok(v)
  {
    hide Vocabulary, Blockwise, Short, DictBytes, DictOf, OpenOf, Sized, WalkFrom;
    SealedShort(v);
    SealedOpens(v);
    VocabularyBlockwise(v);
    var o := OpenDict(DictBytes(v));
    WalkReads(v, 0);
    assert FromBlock(v, 0) == v;
    r := Walk(o.value);
  }
}
