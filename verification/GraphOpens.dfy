/** Which bytes open as a graph segment, coldfmt/graphseg.go, whoever wrote them. */
module GraphOpening {
  import opened Bytes
  import opened Format
  import opened GraphSegments
  import opened GraphReading

  // ----- the block index -----

  /** A record of the block index: where the frame is, how long it is and its block, the first source, and its checksum. */
  function RecordBytes(e: BlockEntry): seq<byte> {
    Fields([8, 4, 4, 5, 4], [e.offset, e.storedLen, e.rawLen, e.firstRow, e.crc])
  }

  predicate RecordFits(e: BlockEntry) {
    e.firstRow < 0x100_0000_0000
  }

  lemma RecordLaw(data: seq<byte>, e: BlockEntry, rest: seq<byte>)
    ensures ReadEntry(Good(data)) == (e, Good(rest)) <==> RecordFits(e) && data == RecordBytes(e) + rest
  {
    hide ReadFields, Fields;
    Shape();
    ReadFieldsFit(data);
    var v := ReadFields(Good(data), [8, 4, 4, 5, 4]).0;
    assert v == [v[0], v[1], v[2], v[3], v[4]];
    if RecordFits(e) {
      FieldsLaw(data, [8, 4, 4, 5, 4], [e.offset, e.storedLen, e.rawLen, e.firstRow, e.crc], rest);
    }
  }

  lemma ReadFieldsFit(data: seq<byte>)
    ensures var v := ReadFields(Good(data), [8, 4, 4, 5, 4]).0; |v| == 5 && v[3] < 0x100_0000_0000
  {
    hide ReadFields;
    Shape();
    assert InRange([8, 4, 4, 5, 4], ReadFields(Good(data), [8, 4, 4, 5, 4]).0);
  }

  lemma RecordCodec()
    ensures Codec(ReadEntry, RecordBytes, RecordFits)
  {
    hide ReadEntry, RecordBytes, RecordFits;
    forall data, e, rest ensures ReadEntry(Good(data)) == (e, Good(rest)) <==> RecordFits(e) && data == RecordBytes(e) + rest {
      RecordLaw(data, e, rest);
    }
    assert ReadEntry(Bad).1 == Bad by { BadEntry(); }
  }

  lemma BadEntry()
    ensures ReadEntry(Bad).1 == Bad
  {
    hide UInt;
    Shape();
  }

  lemma {:induction false} RecordsAll(t: seq<byte>, n: nat)
    requires |t| == 25 * n
    ensures Many(Good(t), n, ReadEntry).1 == Good([])
    decreases n
  {
    hide ReadFields;
    if n > 0 {
      EntryTotal();
      ReadsAll(t[..25], [8, 4, 4, 5, 4], t[25..]);
      assert t[..25] + t[25..] == t;
      RecordsAll(t[25..], n - 1);
    }
  }

  /** A table of whole records is read exactly when it is what they are written as. */
  lemma IndexIs(t: seq<byte>, n: nat, blocks: seq<BlockEntry>)
    requires |t| == 25 * n
    ensures Many(Good(t), n, ReadEntry).0 == blocks
       <==> |blocks| == n && (forall b :: b in blocks ==> RecordFits(b)) && t == Concat(blocks, RecordBytes)
  {
    hide Many, Concat, ReadEntry, RecordBytes, RecordFits, Codec;
    RecordCodec();
    RecordsAll(t, n);
    ManyLaw(t, n, blocks, [], ReadEntry, RecordBytes, RecordFits);
    assert Concat(blocks, RecordBytes) + [] == Concat(blocks, RecordBytes);
  }

  // ----- the footer -----

  /** Something in it, within its first and last source; blocks that start at the first and further on, none past the last. */
  ghost predicate SoundSegment(s: Segment) {
    && 1 <= s.nsrc <= s.lastSrc - s.firstSrc + 1 && s.nsrc < 0x1_0000_0000_0000_0000
    && s.lastSrc < 0x100_0000_0000 && s.nedges < 0x1_0000_0000_0000_0000 && 1 <= |s.blocks| < 0x1_0000_0000
    && s.blocks[0].firstRow == s.firstSrc && (forall i :: 0 <= i < |s.blocks| ==> s.blocks[i].firstRow <= s.lastSrc)
    && (forall i, j :: 0 <= i < j < |s.blocks| ==> s.blocks[i].firstRow < s.blocks[j].firstRow)
  }

  function FooterValues(s: Segment): (vs: seq<nat>)
    ensures |vs| == 7
  {
    [s.meta.generation, s.meta.part, s.firstSrc, s.lastSrc, s.nsrc, s.nedges, |s.blocks|]
  }

  function FooterBytes(s: Segment): seq<byte> {
    Fields([4, 2, 5, 5, 8, 8, 4], FooterValues(s)) + Concat(s.blocks, RecordBytes)
  }

  lemma HeadTotal()
    ensures Total([4, 2, 5, 5, 8, 8, 4]) == 36
  {
    assert Total([]) == 0 && [4][1..] == [] && [8, 4][1..] == [4] && [8, 8, 4][1..] == [8, 4] && [5, 8, 8, 4][1..] == [8, 8, 4];
    assert [5, 5, 8, 8, 4][1..] == [5, 8, 8, 4] && [2, 5, 5, 8, 8, 4][1..] == [5, 5, 8, 8, 4];
    assert [4, 2, 5, 5, 8, 8, 4][1..] == [2, 5, 5, 8, 8, 4];
    assert Total([4]) == 4 && Total([8, 4]) == 12 && Total([8, 8, 4]) == 20 && Total([5, 8, 8, 4]) == 25;
    assert Total([5, 5, 8, 8, 4]) == 30 && Total([2, 5, 5, 8, 8, 4]) == 32;
  }

  lemma HeadIs(d: seq<byte>, vs: seq<nat>)
    requires |d| == 36 && |vs| == 7
    ensures ReadFields(Good(d), [4, 2, 5, 5, 8, 8, 4]).0 == vs
       <==> InRange([4, 2, 5, 5, 8, 8, 4], vs) && d == Fields([4, 2, 5, 5, 8, 8, 4], vs)
  {
    hide ReadFields, Fields, InRange, Total;
    HeadTotal();
    var ws := [4, 2, 5, 5, 8, 8, 4];
    ReadsAll(d, ws, []);
    FieldsLaw(d, ws, vs, []);
    assert d + [] == d && Fields(ws, vs) + [] == Fields(ws, vs);
  }

  lemma ValuesFit(s: Segment)
    ensures InRange([4, 2, 5, 5, 8, 8, 4], FooterValues(s))
       <==> && s.firstSrc < 0x100_0000_0000 && s.lastSrc < 0x100_0000_0000 && s.nsrc < 0x1_0000_0000_0000_0000
            && s.nedges < 0x1_0000_0000_0000_0000 && |s.blocks| < 0x1_0000_0000
  {
    Shape();
    hide Pow;
    var ws, vs := [4, 2, 5, 5, 8, 8, 4], FooterValues(s);
    assert InRange(ws, vs) ==> vs[2] < Pow(0x100, ws[2]) && vs[3] < Pow(0x100, ws[3]) && vs[4] < Pow(0x100, ws[4])
                               && vs[5] < Pow(0x100, ws[5]) && vs[6] < Pow(0x100, ws[6]);
  }

  lemma {:induction false} RowsRise(blocks: seq<BlockEntry>, firstSrc: nat, lastSrc: nat, i: nat, j: nat)
    requires GoodIndex(blocks, firstSrc, lastSrc) && i < j < |blocks|
    ensures blocks[i].firstRow < blocks[j].firstRow
  {
    assert GoodRow(blocks, j, firstSrc, lastSrc);
    if i < j - 1 {
      RowsRise(blocks, firstSrc, lastSrc, i, j - 1);
    }
  }

  lemma IndexIsGood(s: Segment)
    requires s.blocks != []
    ensures GoodIndex(s.blocks, s.firstSrc, s.lastSrc)
       <==> && s.blocks[0].firstRow == s.firstSrc && (forall i :: 0 <= i < |s.blocks| ==> s.blocks[i].firstRow <= s.lastSrc)
            && (forall i, j :: 0 <= i < j < |s.blocks| ==> s.blocks[i].firstRow < s.blocks[j].firstRow)
  {
    if GoodIndex(s.blocks, s.firstSrc, s.lastSrc) {
      assert GoodRow(s.blocks, 0, s.firstSrc, s.lastSrc);
      forall i | 0 <= i < |s.blocks| ensures s.blocks[i].firstRow <= s.lastSrc {
        assert GoodRow(s.blocks, i, s.firstSrc, s.lastSrc);
      }
      forall i, j | 0 <= i < j < |s.blocks| ensures s.blocks[i].firstRow < s.blocks[j].firstRow {
        RowsRise(s.blocks, s.firstSrc, s.lastSrc, i, j);
      }
    }
  }

  lemma BodyParts(f: seq<byte>, s: Segment)
    requires |f| >= 40
    ensures f[..|f| - 4] == FooterBytes(s)
       <==> f[..36] == Fields([4, 2, 5, 5, 8, 8, 4], FooterValues(s)) && f[36..|f| - 4] == Concat(s.blocks, RecordBytes)
  {
    hide Fields, Concat, RecordBytes, Total;
    var head, table := Fields([4, 2, 5, 5, 8, 8, 4], FooterValues(s)), Concat(s.blocks, RecordBytes);
    HeadTotal();
    FieldsLength([4, 2, 5, 5, 8, 8, 4], FooterValues(s));
    assert f[..|f| - 4] == f[..36] + f[36..|f| - 4];
    if f[..|f| - 4] == FooterBytes(s) {
      SameSplit(f[..36], f[36..|f| - 4], head, table);
    }
  }

  lemma {:induction false} TableLength(blocks: seq<BlockEntry>)
    ensures |Concat(blocks, RecordBytes)| == 25 * |blocks|
  {
    hide Fields, Total;
    if blocks != [] {
      var e := blocks[0];
      EntryTotal();
      FieldsLength([8, 4, 4, 5, 4], [e.offset, e.storedLen, e.rawLen, e.firstRow, e.crc]);
      TableLength(blocks[1..]);
    }
  }

  lemma FooterIs(data: seq<byte>, f: seq<byte>, writer: u64, s: Segment)
    requires |f| >= 65
    ensures OpenFooter(data, f, writer) == Ok(s)
       <==> s.data == data && s.meta.writer == writer && SoundSegment(s) && f[..|f| - 4] == FooterBytes(s)
  {
    hide ReadFields, Fields, Many, Concat, ReadEntry, RecordBytes, GoodIndex, InRange, FooterBytes;
    BodyParts(f, s);
    ValuesFit(s);
    TableLength(s.blocks);
    HeadIs(f[..36], FooterValues(s));
    if |s.blocks| >= 1 {
      IndexIsGood(s);
      if |f| - 40 == 25 * |s.blocks| {
        IndexIs(f[36..|f| - 4], |s.blocks|, s.blocks);
      }
    }
    FooterUnfolds(data, f, writer, s);
  }

  /** What opening compares. */
  lemma FooterUnfolds(data: seq<byte>, f: seq<byte>, writer: u64, s: Segment)
    requires |f| >= 65
    ensures OpenFooter(data, f, writer) == Ok(s)
       <==> && s.data == data && s.meta.writer == writer
            && ReadFields(Good(f[..36]), [4, 2, 5, 5, 8, 8, 4]).0 == FooterValues(s)
            && 1 <= s.nsrc <= s.lastSrc - s.firstSrc + 1 && |s.blocks| >= 1 && |f| - 40 == 25 * |s.blocks|
            && Many(Good(f[36..|f| - 4]), |s.blocks|, ReadEntry).0 == s.blocks && GoodIndex(s.blocks, s.firstSrc, s.lastSrc)
  {
    hide ReadFields, Many, ReadEntry, GoodIndex;
    Shape();
    var v := ReadFields(Good(f[..36]), [4, 2, 5, 5, 8, 8, 4]).0;
    assert InRange([4, 2, 5, 5, 8, 8, 4], v);
    assert v == [v[0], v[1], v[2], v[3], v[4], v[5], v[6]];
  }

  // ----- the segment -----

  lemma HeaderIs(d: seq<byte>, writer: u64, crc: Checksum)
    requires |d| == 32
    ensures d == Header(writer, crc)
       <==> && d[..16] == MAGIC && FromLE(d[16..18]) == FORMAT_GRAPH && FromLE(d[18..20]) == 1
            && FromLE(d[20..24]) == crc(d[..20]) && FromLE(d[24..32]) == writer
  {
    hide FromLE, LE;
    Shape();
    LELaw(d[16..18], 2, FORMAT_GRAPH);
    LELaw(d[18..20], 2, 1);
    LELaw(d[20..24], 4, crc(d[..20]));
    LELaw(d[24..32], 8, writer);
    HeaderParts(d, MAGIC, LE(2, FORMAT_GRAPH), LE(2, 1), LE(4, crc(d[..20])), LE(8, writer));
    var p := Preamble(FORMAT_GRAPH);
    assert d[..20] == d[..16] + d[16..18] + d[18..20];
    if d == Header(writer, crc) {
      assert d[..20] == p;
    }
  }

  lemma HeaderParts(d: seq<byte>, a: seq<byte>, b: seq<byte>, c: seq<byte>, e: seq<byte>, g: seq<byte>)
    requires |d| == 32 && |a| == 16 && |b| == 2 && |c| == 2 && |e| == 4 && |g| == 8
    ensures d == a + b + c + e + g
       <==> d[..16] == a && d[16..18] == b && d[18..20] == c && d[20..24] == e && d[24..32] == g
  {
    assert d == d[..16] + d[16..18] + d[18..20] + d[20..24] + d[24..32];
  }

  /** A graph segment of s with its footer at off: header, footer and tail under their checksums, and a sound index. */
  ghost predicate IsSegment(data: seq<byte>, s: Segment, off: nat, crc: Checksum) {
    && s.data == data && |data| >= 32 && off + 81 <= |data| < off + 16 + 0x1_0000_0000 && off < 0x1_0000_0000_0000_0000
    && data[..32] == Header(s.meta.writer, crc) && SoundSegment(s)
    && data[off..|data| - 16] == FooterBytes(s) + LE(4, crc(FooterBytes(s)))
    && data[|data| - 16..] == Tail(off, |data| - 16 - off, crc)
  }

  /** What opening asks of a file with a good header and its footer at off. */
  ghost predicate Opens(data: seq<byte>, s: Segment, off: nat, crc: Checksum) {
    && off + 81 <= |data| && |data| >= 32
    && var f := data[off..|data| - 16];
       && FromLE(f[|f| - 4..]) == crc(f[..|f| - 4])
       && OpenFooter(data, f, s.meta.writer) == Ok(s)
  }

  lemma OpensAt(data: seq<byte>, s: Segment, off: nat, crc: Checksum)
    requires |data| >= 32 && data[..32] == Header(s.meta.writer, crc) && off + 16 <= |data| < off + 16 + 0x1_0000_0000
    requires off < 0x1_0000_0000_0000_0000 && data[|data| - 16..] == Tail(off, |data| - 16 - off, crc)
    ensures OpenOf(data, crc) == Ok(s) <==> Opens(data, s, off, crc)
  {
    hide FromLE, LE, OpenFooter, Tail, Header;
    HeaderIs(data[..32], s.meta.writer, crc);
    TailIs(data[|data| - 16..], off, |data| - 16 - off, crc);
    assert data[..32][..16] == data[..16] && data[..32][16..18] == data[16..18] && data[..32][18..20] == data[18..20];
    assert data[..32][20..24] == data[20..24] && data[..32][..20] == data[..20] && data[..32][24..32] == data[24..32];
  }

  lemma OpensSomewhere(data: seq<byte>, s: Segment, crc: Checksum) returns (off: nat)
    requires OpenOf(data, crc) == Ok(s)
    ensures |data| >= 32 && data[..32] == Header(s.meta.writer, crc) && off + 16 <= |data| < off + 16 + 0x1_0000_0000
    ensures off < 0x1_0000_0000_0000_0000 && data[|data| - 16..] == Tail(off, |data| - 16 - off, crc)
  {
    hide FromLE, LE, Tail, Header, ReadFields, Many, GoodIndex;
    Shape();
    var t := data[|data| - 16..];
    off := FromLE(t[..8]);
    FromLEBound(t[..8]);
    FromLEBound(t[8..12]);
    FromLEBound(data[24..32]);
    HeaderIs(data[..32], s.meta.writer, crc);
    TailIs(t, off, FromLE(t[8..12]), crc);
    assert data[..32][..16] == data[..16] && data[..32][16..18] == data[16..18] && data[..32][18..20] == data[18..20];
    assert data[..32][20..24] == data[20..24] && data[..32][..20] == data[..20] && data[..32][24..32] == data[24..32];
  }

  lemma OpensIff(data: seq<byte>, s: Segment, off: nat, crc: Checksum)
    requires off + 16 <= |data|
    ensures Opens(data, s, off, crc)
       <==> && off + 81 <= |data| && s.data == data && SoundSegment(s)
            && data[off..|data| - 16] == FooterBytes(s) + LE(4, crc(FooterBytes(s)))
  {
    hide FromLE, LE, OpenFooter, FooterBytes, SoundSegment;
    if off + 81 <= |data| {
      var f := data[off..|data| - 16];
      Shape();
      LELaw(f[|f| - 4..], 4, crc(f[..|f| - 4]));
      FooterIs(data, f, s.meta.writer, s);
      assert f == f[..|f| - 4] + f[|f| - 4..];
      if f == FooterBytes(s) + LE(4, crc(FooterBytes(s))) {
        SameSplit(f[..|f| - 4], f[|f| - 4..], FooterBytes(s), LE(4, crc(FooterBytes(s))));
      }
    }
  }

  /** Whatever the bytes, and whoever wrote them: they open to s exactly when they are a graph segment of s. */
  lemma OpensExactly(data: seq<byte>, s: Segment, crc: Checksum)
    ensures OpenOf(data, crc) == Ok(s) <==> exists off :: IsSegment(data, s, off, crc)
  {
    hide OpenOf, Opens, Header, Tail, FooterBytes, SoundSegment, LE;
    if OpenOf(data, crc) == Ok(s) {
      var off := OpensSomewhere(data, s, crc);
      OpensAt(data, s, off, crc);
      OpensIff(data, s, off, crc);
      assert IsSegment(data, s, off, crc);
    }
    if off: nat :| IsSegment(data, s, off, crc) {
      OpensAt(data, s, off, crc);
      OpensIff(data, s, off, crc);
    }
  }
}
