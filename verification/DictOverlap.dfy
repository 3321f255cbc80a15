/** A dictionary that opens and walks although its blocks overlap, hotfmt/dict.go: the walk leaves the order of the terms. */
module DictOverlapping {
  import opened Bytes
  import opened Cursor
  import opened DictEntries
  import opened DictFormat
  import opened DictReading
  import opened DictLaws
  import opened DictExactness

  const ONE: Entry := Entry(1, 0, 0, 0, 0, [InlinePosting(0, 1, 1)])

  /** A full block of the terms 1 to 64, and behind it one whose only term lies between the first two of them. */
  function Overlap(): (v: seq<Item>)
    ensures |v| == 65
  {
    seq(65, i requires 0 <= i < 65 => if i < 64 then Item([i + 1], ONE) else Item([1, 1], ONE))
  }

  lemma SingleLess(a: byte, b: byte)
    ensures Less([a], [b]) <==> a < b
    ensures Less([a], [1, 1]) <==> a <= 1
  {
    LcpIs([a], [b], if a == b then 1 else 0);
    LcpIs([a], [1, 1], if a == 1 then 1 else 0);
  }

  lemma OneValid()
    ensures ValidEntry(ONE)
  {
  }

  lemma TwoBlocks()
    ensures NumChunks(65) == 2 && Chunk(Overlap(), 0) == Overlap()[..64] && Chunk(Overlap(), 1) == [Item([1, 1], ONE)]
  {
    assert Overlap()[64..65] == [Overlap()[64]];
  }

  lemma OverlapBlockwise()
    ensures Blockwise(Overlap())
  {
    hide Less, ValidEntry;
    TwoBlocks();
    OneValid();
    var v := Overlap();
    forall i, j | 0 <= i < j < 64 ensures Less(v[i].term, v[j].term) {
      SingleLess(i + 1, j + 1);
    }
    SingleLess(1, 1);
    assert Vocabulary(v[..64]) && Vocabulary([Item([1, 1], ONE)]);
    assert Chunk(v, 0)[0] == v[0] && Chunk(v, 1)[0] == v[64];
  }

  lemma {:induction false} TermBytesSize(c: seq<Item>)
    requires Short(c)
    ensures |TermBytes(c)| <= 66 * |c|
  {
    hide Lcp;
    if |c| == 1 {
      assert c[0] in c;
    } else if |c| > 1 {
      PartShort(c, |c| - 1);
      assert c[|c| - 1] in c;
      TermBytesSize(c[..|c| - 1]);
    }
  }

  lemma BlockSize(v: seq<Item>, b: nat)
    requires Short(v) && b < NumChunks(|v|)
    ensures Short(Chunk(v, b)) && |BlockBytes(Chunk(v, b))| <= 6272
  {
    hide TermBytes, EntriesBytes, Short;
    ChunkShort(v, b);
    TermBytesSize(Chunk(v, b));
  }

  lemma OverlapSized()
    ensures Sized(Overlap()) && |DictBytes(Overlap())| < 0x1_0000
  {
    var v := Overlap();
    assert Short(v);
    TwoBlocks();
    hide Short, BlockBytes, Chunk, Overlap;
    NoBand(v);
    BandNext(v, 0);
    BandNext(v, 1);
    BlockSize(v, 0);
    BlockSize(v, 1);
    IndexSize(v);
  }

  lemma IndexSize(v: seq<Item>)
    requires Short(v) && NumChunks(|v|) == 2
    ensures |Index(v, 2)| <= 142
  {
    hide DictFormat.Band;
    TermShort(v, 0);
    TermShort(v, 64);
    assert |Index(v, 0)| == 0 && |Index(v, 1)| <= 71;
  }

  lemma NotInOrder()
    ensures NumChunks(|Overlap()|) == 2 && !EndsBelow(Overlap(), 1) && !Vocabulary(Overlap())
  {
    hide Less, ValidItem;
    TwoBlocks();
    OverlapBlockwise();
    SingleLess(64, 64);
    InOrderIff(Overlap());
  }

  /** Both lookups turn to the second block, where it is not. */
  lemma SecondIsLost(d: Dict, full: Result<Option<Entry>, DictError>, walk: Result<Option<Entry>, DictError>)
    requires Sized(Overlap()) && Opened(d) && d == DictOf(Overlap()) && Answered(d, [2], full, walk)
    ensures full == walk == Ok(None)
  {
    hide Less, ScanFor, Seek, DictBytes, DictFormat.Band, EntriesAt, CountIn, IsBlock, Sized, Opened, Blockwise, Find, Overlap;
    var v, q: Term := Overlap(), [2];
    OverlapBlockwise();
    SealedShort(v);
    ChunkIsBlock(v, 1);
    SecondBlock(d);
    var c, area := Chunk(v, 1), d.data[d.blockOff[1]..d.indexOff];
    ScanFinds(area, c, q);
    SeekFinds(area, c, q, 0);
    ChunkShort(v, 1);
    StartAt(c);
    FindAbsent(c, q);
  }

  lemma SecondBlock(d: Dict)
    requires Short(Overlap()) && d == DictOf(Overlap())
    ensures NumChunks(65) == 2 && |d.first| == |d.blockOff| == 2 && BlockFor(d, [2], 1) && Chunk(Overlap(), 1) == [Item([1, 1], ONE)]
  {
    hide Less, DictBytes, DictFormat.Band;
    TwoBlocks();
    SingleLess(2, 2);
  }

  lemma OverlapShort()
    ensures Short(Overlap()) && Sized(Overlap()) && Overlap() != [] && |DictBytes(Overlap())| <= MAX_U48
  {
    OverlapSized();
    hide DictBytes, DictFormat.Band;
  }

  /** Its bytes open, and walking them without an error yields 64 ascending terms and then one that is out of order. */
  lemma WalksOutOfOrder()
    ensures Short(Overlap()) && Walks(DictBytes(Overlap()), Overlap()) && !Vocabulary(Overlap())
  {
    hide Sized, Blockwise, Vocabulary, Short, DictBytes, Walks, Overlap;
    OverlapShort();
    OverlapBlockwise();
    NotInOrder();
    WalksIff(DictBytes(Overlap()), Overlap());
  }

  /** Its second term is yielded by the walk, and neither lookup finds it. */
  lemma SecondTermLost(d: Dict, full: Result<Option<Entry>, DictError>, walk: Result<Option<Entry>, DictError>)
    requires Short(Overlap()) && OpenOf(DictBytes(Overlap())) == Ok(d) && Opened(d) && Answered(d, [2], full, walk)
    ensures Overlap()[1] == Item([2], ONE) && full == walk == Ok(None)
  {
    hide Sized, Blockwise, Opened, DictBytes, OpenOf, DictOf, Answered;
    OverlapShort();
    OverlapBlockwise();
    BlocksOpen(Overlap());
    SecondIsLost(d, full, walk);
  }
}
