/** The 96-byte header page of a .hot file, hotfmt/format.go. Floats are their bit patterns. */
module HotHeader {
  import opened Bytes
  import opened Records
  import opened Format

  const FORMAT_HOT: u16 := 0x7A10
  const KIND_BASE: byte := 1
  const KIND_DELTA: byte := 2

  datatype FileHeader = FileHeader(shard: u16, generation: u64, kind: byte, baseGen: u64, docCount: u32, termCount: u64,
                                   tokenizerVer: u16, quantScale: u32, writer: u64)

  datatype HeaderError =
    | ShortHeader | WrongMagic | HeaderCrc | WrongFormat | WrongVersion | ExtensionCrc | Reserved
    | BaseOnBase | DeltaNotBefore | WrongKind

  /** validate, as the error it returns. */
  function Validate(h: FileHeader): Option<HeaderError> {
    if h.kind == KIND_BASE then
      if h.baseGen != 0 then Some(BaseOnBase) else None
    else if h.kind == KIND_DELTA then
      if h.baseGen >= h.generation then Some(DeltaNotBefore) else None
    else
      Some(WrongKind)
  }

  const HEADER_SHAPE: seq<nat> := [2, 8, 1, 8, 4, 8, 2, 4]

  function HeaderFields(h: FileHeader): (f: seq<nat>)
    ensures |f| == 8
  {
    [h.shard, h.generation, h.kind, h.baseGen, h.docCount, h.termCount, h.tokenizerVer, h.quantScale]
  }

  /** The extension: its fields, then reserved zero bytes. */
  function Extension(h: FileHeader): seq<byte> {
    Fields(HEADER_SHAPE, HeaderFields(h)) + Zeros(23)
  }

  /** appendFileHeader: the common object frame around the extension. */
  function HeaderPage(h: FileHeader, crc: Checksum): seq<byte> {
    Object(FORMAT_HOT, h.writer, Extension(h), crc)
  }

  function HeaderFrom(vs: seq<nat>, writer: u64): FileHeader
    requires InRange(HEADER_SHAPE, vs)
  {
    Widths();
    FileHeader(vs[0], vs[1], vs[2], vs[3], vs[4], vs[5], vs[6], vs[7], writer)
  }

  /** parseFileHeader: looks at the first 96 bytes only. */
  function ParseHeader(data: seq<byte>, crc: Checksum): Result<FileHeader, HeaderError> {
    if |data| < 96 then Err(ShortHeader)
    else if data[..16] != MAGIC then Err(WrongMagic)
    else if FromLE(data[20..24]) != crc(data[..20]) then Err(HeaderCrc)
    else if FromLE(data[16..18]) != FORMAT_HOT then Err(WrongFormat)
    else if FromLE(data[18..20]) == 0 || FromLE(data[18..20]) > 1 then Err(WrongVersion)
    else if FromLE(data[92..96]) != crc(data[32..92]) then Err(ExtensionCrc)
    else if data[69..92] != Zeros(23) then Err(Reserved)
    else
      Widths(); FromLEBound(data[24..32]);
      var h := HeaderFrom(ReadFields(Good(data[32..69]), HEADER_SHAPE).0, FromLE(data[24..32]));
      match Validate(h)
      case Some(e) => Err(e)
      case None => Ok(h)
  }

  lemma ExtensionLength()
    ensures Total(HEADER_SHAPE) == 37
  {
    var s := HEADER_SHAPE;
    assert s[1..] == [8, 1, 8, 4, 8, 2, 4] && s[1..][1..] == [1, 8, 4, 8, 2, 4] && s[1..][1..][1..] == [8, 4, 8, 2, 4];
    assert Total([8, 4, 8, 2, 4]) == 8 + Total([4, 8, 2, 4]) by { assert [8, 4, 8, 2, 4][1..] == [4, 8, 2, 4]; }
    assert Total([4, 8, 2, 4]) == 4 + Total([8, 2, 4]) by { assert [4, 8, 2, 4][1..] == [8, 2, 4]; }
    assert Total([8, 2, 4]) == 14 by { assert [8, 2, 4][1..] == [2, 4] && [2, 4][1..] == [4] && [4][1..] == []; }
  }

  lemma FieldsInRange(h: FileHeader)
    ensures InRange(HEADER_SHAPE, HeaderFields(h))
  {
    Widths();
  }

  lemma PageSlices(data: seq<byte>)
    requires |data| >= 96
    ensures var d := data[..96];
            && d[..16] == data[..16] && d[16..18] == data[16..18] && d[18..20] == data[18..20] && d[20..24] == data[20..24]
            && d[..20] == data[..20] && d[24..32] == data[24..32] && d[32..92] == data[32..92] && d[92..] == data[92..96]
    ensures data[32..92][..37] == data[32..69] && data[32..92][37..] == data[69..92]
  {
  }

  /** An extension is its fields and 23 zeros. */
  lemma ExtensionReads(e: seq<byte>, h: FileHeader)
    requires |e| == 60
    ensures e == Extension(h) <==> e[37..] == Zeros(23) && ReadFields(Good(e[..37]), HEADER_SHAPE).0 == HeaderFields(h)
  {
    hide Fields, ReadFields, InRange;
    var fs := HeaderFields(h);
    FieldsLength(HEADER_SHAPE, fs);
    ExtensionLength();
    FieldsInRange(h);
    var front := e[..37];
    FieldsLaw(front, HEADER_SHAPE, fs, []);
    ReadsAll(front, HEADER_SHAPE, []);
    assert Fields(HEADER_SHAPE, fs) + [] == Fields(HEADER_SHAPE, fs) && front + [] == front;
    assert e == front + e[37..];
    if e == Extension(h) {
      SameSplit(front, e[37..], Fields(HEADER_SHAPE, fs), Zeros(23));
    }
  }

  /** A page parses to a header exactly when it is that header's page and the header is sound. */
  lemma HeaderLaw(data: seq<byte>, crc: Checksum, h: FileHeader)
    ensures ParseHeader(data, crc) == Ok(h) <==> |data| >= 96 && data[..96] == HeaderPage(h, crc) && Validate(h) == None
  {
    hide Fields, LE, FromLE, ReadFields, InRange, Extension, HeaderFrom, Validate, HeaderFields;
    if |data| >= 96 {
      PageSlices(data);
      ObjectLaw(data[..96], FORMAT_HOT, crc, h.writer, Extension(h));
      ExtensionReads(data[32..92], h);
      Widths();
      FromLEBound(data[24..32]);
      SameHeader(ReadFields(Good(data[32..69]), HEADER_SHAPE).0, FromLE(data[24..32]), h);
    }
  }

  lemma SameHeader(vs: seq<nat>, writer: u64, h: FileHeader)
    requires InRange(HEADER_SHAPE, vs)
    ensures HeaderFrom(vs, writer) == h <==> vs == HeaderFields(h) && writer == h.writer
  {
    assert |vs| == 8;
  }
}
