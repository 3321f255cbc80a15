/** Opening a graph segment and walking it, coldfmt/graphseg.go: every source and destination that went in comes out. */
module GraphReading {
  import opened Bytes
  import opened Format
  import opened GraphBlocks
  import opened GraphSegments

  // ----- opening -----

  function ReadEntry(i: Input): (BlockEntry, Input) {
    Shape();
    var (v, i') := ReadFields(i, [8, 4, 4, 5, 4]);
    (BlockEntry(v[0], v[1], v[2], v[3], v[4]), i')
  }

  lemma Shape()
    ensures Pow(0x100, 2) == 0x1_0000 && Pow(0x100, 4) == 0x1_0000_0000 && Pow(0x100, 5) == 0x100_0000_0000
    ensures Pow(0x100, 8) == 0x1_0000_0000_0000_0000
  {
    Widths();
    ByteBase();
  }

  /** The block index: the first block starts at the first source, the others further on, none past the last. */
  predicate GoodIndex(blocks: seq<BlockEntry>, firstSrc: nat, lastSrc: nat) {
    forall i :: 0 <= i < |blocks| ==> GoodRow(blocks, i, firstSrc, lastSrc)
  }

  predicate GoodRow(blocks: seq<BlockEntry>, i: nat, firstSrc: nat, lastSrc: nat)
    requires i < |blocks|
  {
    && (if i == 0 then blocks[i].firstRow == firstSrc else blocks[i].firstRow > blocks[i - 1].firstRow)
    && blocks[i].firstRow <= lastSrc
  }

  function OpenFooter(data: seq<byte>, f: seq<byte>, writer: u64): Result<Segment, GraphError>
    requires |f| >= 65
  {
    Shape();
    var v := ReadFields(Good(f[..36]), [4, 2, 5, 5, 8, 8, 4]).0;
    var firstSrc, lastSrc, nsrc, nblocks := v[2], v[3], v[4], v[6];
    if nsrc == 0 || firstSrc > lastSrc then Err(BadFooter)
    else if nsrc > lastSrc - firstSrc + 1 then Err(BadFooter)
    else if |f| - 40 != nblocks * 25 || nblocks == 0 then Err(BadFooter)
    else
      var blocks := Many(Good(f[36..|f| - 4]), nblocks, ReadEntry).0;
      if !GoodIndex(blocks, firstSrc, lastSrc) then Err(BadIndex)
      else Ok(Segment(data, Meta(v[0], v[1], writer), firstSrc, lastSrc, nsrc, v[5], blocks))
  }

  function OpenOf(data: seq<byte>, crc: Checksum): Result<Segment, GraphError> {
    if |data| < 32 || data[..16] != MAGIC || FromLE(data[20..24]) != crc(data[..20]) then Err(BadHeader)
    else if FromLE(data[18..20]) != 1 || FromLE(data[16..18]) != FORMAT_GRAPH then Err(BadHeader)
    else
      var t := data[|data| - 16..];
      var end := |data| - 16;
      if FromLE(t[12..]) != crc(t[..12]) then Err(BadTail)
      else
        var off, len := FromLE(t[..8]), FromLE(t[8..12]);
        if off > end || off + len != end then Err(BadTail)
        else
          var f := data[off..end];
          if |f| < 65 || FromLE(f[|f| - 4..]) != crc(f[..|f| - 4]) then Err(BadFooter)
          else
            Shape(); FromLEBound(data[24..32]);
            OpenFooter(data, f, FromLE(data[24..32]))
  }

  /** Entry i of the index starts 25 bytes further on than the one before it. */
  lemma EntryRead(t: seq<byte>, n: nat)
    requires n > 0 && |t| >= 25
    ensures Many(Good(t), n, ReadEntry).0 == [ReadEntry(Good(t)).0] + Many(Good(t[25..]), n - 1, ReadEntry).0
  {
    hide ReadFields;
    EntryTotal();
    ReadsAll(t[..25], [8, 4, 4, 5, 4], t[25..]);
    assert t[..25] + t[25..] == t;
  }

  lemma EntryTotal()
    ensures Total([8, 4, 4, 5, 4]) == 25
  {
    assert Total([]) == 0 && [4][1..] == [] && [5, 4][1..] == [4] && [4, 5, 4][1..] == [5, 4];
    assert [4, 4, 5, 4][1..] == [4, 5, 4] && [8, 4, 4, 5, 4][1..] == [4, 4, 5, 4];
    assert Total([4]) == 4 && Total([5, 4]) == 9 && Total([4, 5, 4]) == 13 && Total([4, 4, 5, 4]) == 17;
  }

  /** The records read so far, in front of what the rest of the index still gives. */
  ghost predicate IndexSoFar(t: seq<byte>, n: nat, blocks: seq<BlockEntry>) {
    && |t| == 25 * n && |blocks| <= n
    && Many(Good(t), n, ReadEntry).0 == blocks + Many(Good(t[25 * |blocks|..]), n - |blocks|, ReadEntry).0
  }

  lemma IndexStart(t: seq<byte>, n: nat)
    requires |t| == 25 * n
    ensures IndexSoFar(t, n, [])
  {
    hide Many, ReadEntry;
    assert t[0..] == t && [] + Many(Good(t), n, ReadEntry).0 == Many(Good(t), n, ReadEntry).0;
  }

  lemma IndexNext(t: seq<byte>, n: nat, blocks: seq<BlockEntry>)
    requires IndexSoFar(t, n, blocks) && |blocks| < n
    ensures IndexSoFar(t, n, blocks + [ReadEntry(Good(t[25 * |blocks|..])).0])
  {
    hide Many, ReadEntry;
    var i, e := |blocks|, t[25 * |blocks|..];
    EntryRead(e, n - i);
    var b := ReadEntry(Good(e)).0;
    assert e[25..] == t[25 * (i + 1)..];
    Assoc(blocks, [b], Many(Good(e[25..]), n - (i + 1), ReadEntry).0);
  }

  lemma IndexEnd(t: seq<byte>, n: nat, blocks: seq<BlockEntry>)
    requires IndexSoFar(t, n, blocks) && |blocks| == n
    ensures blocks == Many(Good(t), n, ReadEntry).0
  {
    assert Many(Good(t[25 * n..]), 0, ReadEntry).0 == [];
  }

  /** A record is judged by itself and the one before it, so as soon as it is read. */
  lemma RowIsRead(t: seq<byte>, n: nat, blocks: seq<BlockEntry>, i: nat, firstSrc: nat, lastSrc: nat)
    requires IndexSoFar(t, n, blocks) && i < |blocks|
    ensures GoodRow(blocks, i, firstSrc, lastSrc) <==> GoodRow(Many(Good(t), n, ReadEntry).0, i, firstSrc, lastSrc)
  {
    hide Many, ReadEntry;
  }

  /** The block index, checked record by record. */
  method OpenIndex(t: seq<byte>, n: nat, firstSrc: nat, lastSrc: nat) returns (r: Result<seq<BlockEntry>, GraphError>)
    requires |t| == 25 * n
    ensures var blocks := Many(Good(t), n, ReadEntry).0;
            r == if GoodIndex(blocks, firstSrc, lastSrc) then Ok(blocks) else Err(BadIndex)
  {
    hide ReadEntry, GoodRow, Many, IndexSoFar;
    ghost var all := Many(Good(t), n, ReadEntry).0;
    var blocks := [];
    IndexStart(t, n);
    for i := 0 to n
      invariant |blocks| == i && IndexSoFar(t, n, blocks)
      invariant forall j :: 0 <= j < i ==> GoodRow(all, j, firstSrc, lastSrc)
    {
      IndexNext(t, n, blocks);
      blocks := blocks + [ReadEntry(Good(t[25 * i..])).0];
      RowIsRead(t, n, blocks, i, firstSrc, lastSrc);
      if !GoodRow(blocks, i, firstSrc, lastSrc) {
        return Err(BadIndex);
      }
    }
    IndexEnd(t, n, blocks);
    return Ok(blocks);
  }

  /** OpenGraphSegment: header, tail, footer counts and the block index. */
  method OpenGraphSegment(data: seq<byte>, crc: Checksum) returns (r: Result<Segment, GraphError>)
    ensures r == OpenOf(data, crc)
  {
    hide FromLE, ReadFields, Many, GoodIndex, ReadEntry;
    if |data| < 32 || data[..16] != MAGIC || FromLE(data[20..24]) != crc(data[..20]) {
      return Err(BadHeader);
    }
    if FromLE(data[18..20]) != 1 || FromLE(data[16..18]) != FORMAT_GRAPH {
      return Err(BadHeader);
    }
    var t, end := data[|data| - 16..], |data| - 16;
    if FromLE(t[12..]) != crc(t[..12]) {
      return Err(BadTail);
    }
    var off, len := FromLE(t[..8]), FromLE(t[8..12]);
    if off > end || off + len != end {
      return Err(BadTail);
    }
    var f := data[off..end];
    if |f| < 65 || FromLE(f[|f| - 4..]) != crc(f[..|f| - 4]) {
      return Err(BadFooter);
    }
    Shape();
    var v := ReadFields(Good(f[..36]), [4, 2, 5, 5, 8, 8, 4]).0;
    var firstSrc, lastSrc, nsrc, nblocks := v[2], v[3], v[4], v[6];
    if nsrc == 0 || firstSrc > lastSrc || nsrc > lastSrc - firstSrc + 1 {
      return Err(BadFooter);
    }
    if |f| - 40 != nblocks * 25 || nblocks == 0 {
      return Err(BadFooter);
    }
    var blocks := OpenIndex(f[36..|f| - 4], nblocks, firstSrc, lastSrc);
    if blocks.Err? {
      return Err(blocks.error);
    }
    FromLEBound(data[24..32]);
    return Ok(Segment(data, Meta(v[0], v[1], FromLE(data[24..32])), firstSrc, lastSrc, nsrc, v[5], blocks.value));
  }

  // ----- walking -----

  /**
   * One indexed block, framed and cut out of the file. The room behind its offset is an unsigned difference, so the check
   * may pass for a block that does not fit; the program then slices past the end of its data.
   */
  function BlockRaw(s: Segment, b: BlockEntry, z: Zstd, crc: Checksum): Result<seq<byte>, GraphError> {
    var end := b.offset + 16 + b.storedLen;
    if b.offset > |s.data| || b.storedLen > Wrap64(|s.data| - b.offset - 16) then Err(BadExtent)
    else if end > |s.data| then Err(PastEnd)
    else
      match Deframed(s.data[b.offset..end], z, crc)
      case Err(e) => Err(e)
      case Ok(raw) => if |raw| != b.rawLen then Err(BadLength) else Ok(raw)
  }

  /** The slice runs past the end exactly for a block with less than its own framing between its start and the end. */
  lemma ExtentExact(s: Segment, b: BlockEntry, z: Zstd, crc: Checksum)
    requires |s.data| < 0x8000_0000_0000_0000
    ensures BlockRaw(s, b, z, crc) == Err(PastEnd) <==> b.offset <= |s.data| < b.offset + 16
  {
    hide FromLE;
  }

  /** What the callback sees of the blocks from bi on. */
  function WalkFrom(s: Segment, bi: nat, before: Option<nat>, z: Zstd, crc: Checksum): Result<seq<Source>, GraphError>
    requires bi <= |s.blocks|
    decreases |s.blocks| - bi
  {
    if bi == |s.blocks| then Ok([])
    else
      match BlockRaw(s, s.blocks[bi], z, crc)
      case Err(e) => Err(e)
      case Ok(raw) =>
        match ReadRaw(raw, None, s.blocks[bi].firstRow, before, s.lastSrc)
        case Err(e) => Err(e)
        case Ok(ss) =>
          match WalkFrom(s, bi + 1, LastOf(ss, before), z, crc)
          case Err(e) => Err(e)
          case Ok(more) => Ok(ss + more)
  }

  function LastOf(ss: seq<Source>, before: Option<nat>): Option<nat> {
    if ss == [] then before else Some(ss[|ss| - 1].id)
  }

  /** The whole walk, with the footer's counts checked at its end. */
  function WalkOf(s: Segment, z: Zstd, crc: Checksum): Result<seq<Source>, GraphError> {
    match WalkFrom(s, 0, None, z, crc)
    case Err(e) => Err(e)
    case Ok(ss) => if |ss| != s.nsrc || Edges(ss) != s.nedges then Err(BadCounts) else Ok(ss)
  }

  method Walk(s: Segment, z: Zstd, crc: Checksum) returns (r: Result<seq<Source>, GraphError>)
    ensures r == WalkOf(s, z, crc)
  {
    hide BlockRaw, ReadRaw;
    var seen: seq<Source> := [];
    var nsrc, nedges := 0, 0;
    var before: Option<nat> := None;
    ghost var whole := WalkFrom(s, 0, None, z, crc);
    AheadNothing(whole);
    for bi := 0 to |s.blocks|
      invariant whole == Ahead(seen, WalkFrom(s, bi, before, z, crc))
      invariant nsrc == |seen| && nedges == Edges(seen)
    {
      var raw := BlockRaw(s, s.blocks[bi], z, crc);
      if raw.Err? {
        return Err(raw.error);
      }
      var block := WalkBlock(raw.value, s.blocks[bi].firstRow, before, s.lastSrc);
      if block.Err? {
        return Err(block.error);
      }
      var ss := block.value;
      AheadMore(seen, ss, WalkFrom(s, bi + 1, LastOf(ss, before), z, crc));
      EdgesConcat(seen, ss);
      var degrees := CountEdges(ss);
      nsrc, nedges := nsrc + |ss|, nedges + degrees;
      seen, before := seen + ss, LastOf(ss, before);
    }
    assert seen + [] == seen;
    if nsrc != s.nsrc || nedges != s.nedges {
      return Err(BadCounts);
    }
    return Ok(seen);
  }

  method CountEdges(ss: seq<Source>) returns (n: nat)
    ensures n == Edges(ss)
  {
    n := 0;
    for i := 0 to |ss|
      invariant n == Edges(ss[..i])
    {
      assert ss[..i + 1][..i] == ss[..i];
      n := n + |ss[i].dsts|;
    }
    assert ss[..|ss|] == ss;
  }

  function Ahead(ss: seq<Source>, r: Result<seq<Source>, GraphError>): Result<seq<Source>, GraphError> {
    match r
    case Err(e) => Err(e)
    case Ok(more) => Ok(ss + more)
  }

  lemma AheadNothing(r: Result<seq<Source>, GraphError>)
    ensures Ahead([], r) == r
  {
    if r.Ok? {
      assert [] + r.value == r.value;
    }
  }

  lemma AheadMore(a: seq<Source>, b: seq<Source>, r: Result<seq<Source>, GraphError>)
    ensures Ahead(a, Ahead(b, r)) == Ahead(a + b, r)
  {
    if r.Ok? {
      Assoc(a, b, r.value);
    }
  }

  /** The inner loop: sources until the block's bytes are used up. */
  method WalkBlock(raw: seq<byte>, first: nat, before: Option<nat>, last: nat) returns (r: Result<seq<Source>, GraphError>)
    ensures r == ReadRaw(raw, None, first, before, last)
  {
    hide ReadSource;
    var seen: seq<Source> := [];
    var left, prev := raw, None;
    ghost var whole := ReadRaw(raw, None, first, before, last);
    AheadNothing(whole);
    while |left| > 0
      invariant whole == Ahead(seen, ReadRaw(left, prev, first, before, last))
      decreases |left|
    {
      var s := ReadSource(left, prev, first, before, last);
      if s.Err? {
        return Err(s.error);
      }
      var (src, rest) := s.value;
      AheadMore(seen, [src], ReadRaw(rest, Some(src.id), first, before, last));
      seen, left, prev := seen + [src], rest, Some(src.id);
    }
    assert seen + [] == seen;
    return Ok(seen);
  }

  lemma {:induction false} EdgesConcat(a: seq<Source>, b: seq<Source>)
    ensures Edges(a + b) == Edges(a) + Edges(b)
  {
    if b == [] {
      assert a + b == a;
    } else {
      assert (a + b)[..|a + b| - 1] == a + b[..|b| - 1];
      EdgesConcat(a, b[..|b| - 1]);
    }
  }
}
