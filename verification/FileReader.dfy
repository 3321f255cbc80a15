/** Opening a .hot file, hotfmt/file.go Open, parseFooter and ReadBand. */
module FileReading {
  import opened Bytes
  import opened Format
  import opened HotHeader
  import opened HotMeta
  import opened HotFile

  datatype Shard = Shard(header: FileHeader, provenance: Provenance, bands: seq<Band>, meta: Meta, stats: FieldStats)

  // ----- the footer -----

  /** One record of the band index, against what the layout demands of it. */
  function BandFrom(vs: seq<nat>, k: nat, next: nat, off: nat): Result<Band, FileError>
    requires InRange(BAND_SHAPE, vs) && k < 9
  {
    Widths();
    if vs[0] != BAND_ORDER[k] then Err(BandOrder)
    else if vs[1] != next then Err(BandOffset)
    else if vs[2] > Wrap64(off - vs[1]) then Err(BandOverrun)
    else if vs[3] != vs[2] then Err(RawLength)
    else Ok(Band(vs[0], vs[1], vs[2], vs[4]))
  }

  /** The records from number k on, and what follows them. */
  function BandsFrom(data: seq<byte>, k: nat, next: nat, off: nat): (r: Result<(seq<Band>, seq<byte>), FileError>)
    requires k <= 9 && |data| >= 29 * (9 - k)
    decreases 9 - k
  {
    if k == 9 then if next != off then Err(Gap) else Ok(([], data))
    else
      var vs := ReadFields(Good(data[..29]), BAND_SHAPE).0;
      match BandFrom(vs, k, next, off)
      case Err(e) => Err(e)
      case Ok(b) =>
        match BandsFrom(data[29..], k + 1, AlignUp(Wrap64(b.off + b.len)), off)
        case Err(e) => Err(e)
        case Ok((bs, rest)) => Ok(([b] + bs, rest))
  }

  function ProvenanceOf(rest: seq<byte>): Result<Provenance, FileError> {
    if |rest| < 17 then Err(ProvenanceTruncated)
    else
      Widths();
      var vs := ReadFields(Good(rest[..17]), [8, 8, 1]).0;
      if |rest| - 17 < 8 * vs[2] + 4 then Err(ProvenanceTruncated)
      else
        var marks := Many(Good(rest[17..17 + 8 * vs[2]]), vs[2], ReadWord).0;
        var block := rest[17 + 8 * vs[2]..];
        var n := FromLE(block[..4]);
        if n > 0x10_0000 then Err(StatsTooLong)
        else if |block| - 4 != n then Err(StatsLength)
        else Ok(Provenance(vs[0], vs[1], marks, block[4..]))
  }

  /** parseFooter. */
  function FooterOf(footer: seq<byte>, off: nat, crc: Checksum): Result<(seq<Band>, Provenance), FileError> {
    if |footer| < 287 then Err(FooterTooShort)
    else
      var body := footer[..|footer| - 4];
      if FromLE(footer[|footer| - 4..]) != crc(body) then Err(FooterCrc)
      else if body[0] != 9 then Err(BandCount)
      else
        match BandsFrom(body[1..], 0, 4096, off)
        case Err(e) => Err(e)
        case Ok((bs, rest)) =>
          match ProvenanceOf(rest)
          case Err(e) => Err(e)
          case Ok(p) => Ok((bs, p))
  }

  // ----- the file -----

  function ReadAt(data: seq<byte>, off: nat, len: nat): Result<seq<byte>, FileError> {
    if off + len > |data| then Err(ReadError) else Ok(data[off..off + len])
  }

  /** entry, then ReadBand: the first band with this id, its bytes and their checksum. */
  function ReadBandOf(data: seq<byte>, bands: seq<Band>, id: byte, crc: Checksum): Result<seq<byte>, FileError> {
    if bands == [] then Err(UnknownBand)
    else if bands[0].id != id then ReadBandOf(data, bands[1..], id, crc)
    else
      match ReadAt(data, bands[0].off, bands[0].len)
      case Err(e) => Err(e)
      case Ok(payload) => if crc(payload) != bands[0].sum then Err(BandCrc) else Ok(payload)
  }

  function OpenOf(data: seq<byte>, crc: Checksum): Result<Shard, FileError> {
    if |data| < 96 + 4096 + 16 then Err(TooSmall)
    else
      var tail := data[|data| - 16..];
      var off, len := FromLE(tail[..8]), FromLE(tail[8..12]);
      if FromLE(tail[12..]) != crc(tail[..12]) then Err(BadTail)
      else if off % 4096 != 0 || Wrap64(off + len) != |data| - 16 then Err(BadExtent)
      else
        match ReadAt(data, off, len)
        case Err(e) => Err(e)
        case Ok(footer) =>
          match FooterOf(footer, off, crc)
          case Err(e) => Err(e)
          case Ok((bands, p)) =>
            match ParseHeader(data[..96], crc)
            case Err(e) => Err(BadHeader(e))
            case Ok(h) =>
              match ResidentBands(data, bands, crc)
              case Err(e) => Err(e)
              case Ok((m, stats)) =>
                match Disagreement(h, m, stats)
                case Some(e) => Err(e)
                case None => Ok(Shard(h, p, bands, m, stats))
  }

  /** The two bands that stay in memory, read and parsed. */
  function ResidentBands(data: seq<byte>, bands: seq<Band>, crc: Checksum): Result<(Meta, FieldStats), FileError> {
    match ReadBandOf(data, bands, 0, crc)
    case Err(e) => Err(e)
    case Ok(metaBytes) =>
      match ParseMeta(metaBytes)
      case Err(e) => Err(BadBand(e))
      case Ok(m) =>
        match ReadBandOf(data, bands, 8, crc)
        case Err(e) => Err(e)
        case Ok(statsBytes) =>
          match ParseFieldStats(statsBytes)
          case Err(e) => Err(BadBand(e))
          case Ok(s) => Ok((m, s))
  }

  // ----- the program -----

  /** The nine records of the band index, with a moving position. */
  method ParseBands(data: seq<byte>, off: nat) returns (r: Result<(seq<Band>, seq<byte>), FileError>)
    requires |data| >= 261
    ensures r == BandsFrom(data, 0, 4096, off)
  {
    hide ReadFields, BandFrom, AlignUp, Wrap64, BandsFrom;
    var next, pos, bands := 4096, 0, [];
    NoneAhead(BandsFrom(data, 0, 4096, off));
    for k := 0 to 9
      invariant pos == 29 * k
      invariant BandsFrom(data, 0, 4096, off) == Ahead(bands, BandsFrom(data[pos..], k, next, off))
    {
      BandsStep(data, pos, k, next, off);
      var b := BandFrom(ReadFields(Good(data[pos..pos + 29]), BAND_SHAPE).0, k, next, off);
      if b.Err? {
        return Err(b.error);
      }
      next := AlignUp(Wrap64(b.value.off + b.value.len));
      pos := pos + 29;
      AheadMore(bands, b.value, BandsFrom(data[pos..], k + 1, next, off));
      bands := bands + [b.value];
    }
    BandsEnd(data[pos..], next, off);
    if next != off {
      return Err(Gap);
    }
    assert bands + [] == bands;
    return Ok((bands, data[pos..]));
  }

  lemma NoneAhead(r: Result<(seq<Band>, seq<byte>), FileError>)
    ensures Ahead([], r) == r
  {
    if r.Ok? {
      assert [] + r.value.0 == r.value.0;
    }
  }

  lemma BandsEnd(rest: seq<byte>, next: nat, off: nat)
    ensures BandsFrom(rest, 9, next, off) == if next != off then Err(Gap) else Ok(([], rest))
  {
  }

  lemma BandsStep(data: seq<byte>, pos: nat, k: nat, next: nat, off: nat)
    requires k < 9 && |data| >= pos + 29 * (9 - k)
    ensures var b := BandFrom(ReadFields(Good(data[pos..pos + 29]), BAND_SHAPE).0, k, next, off);
            BandsFrom(data[pos..], k, next, off)
            == if b.Err? then Err(b.error)
               else Ahead([b.value], BandsFrom(data[pos + 29..], k + 1, AlignUp(Wrap64(b.value.off + b.value.len)), off))
  {
    hide ReadFields, BandFrom, AlignUp, Wrap64;
    assert data[pos..][..29] == data[pos..pos + 29] && data[pos..][29..] == data[pos + 29..];
  }

  /** The band index and the provenance. */
  method ParseFooter(footer: seq<byte>, off: nat, crc: Checksum) returns (r: Result<(seq<Band>, Provenance), FileError>)
    ensures r == FooterOf(footer, off, crc)
  {
    hide FromLE, BandsFrom, ProvenanceOf;
    if |footer| < 287 {
      return Err(FooterTooShort);
    }
    var body := footer[..|footer| - 4];
    if FromLE(footer[|footer| - 4..]) != crc(body) {
      return Err(FooterCrc);
    }
    if body[0] != 9 {
      return Err(BandCount);
    }
    var index := ParseBands(body[1..], off);
    if index.Err? {
      return Err(index.error);
    }
    var (bands, rest) := index.value;
    var p := ParseProvenance(rest);
    if p.Err? {
      return Err(p.error);
    }
    return Ok((bands, p.value));
  }

  /** Records already read, put before what is still to be read. */
  function Ahead(bs: seq<Band>, r: Result<(seq<Band>, seq<byte>), FileError>): Result<(seq<Band>, seq<byte>), FileError> {
    match r
    case Err(e) => Err(e)
    case Ok((cs, rest)) => Ok((bs + cs, rest))
  }

  lemma AheadMore(bs: seq<Band>, b: Band, r: Result<(seq<Band>, seq<byte>), FileError>)
    ensures Ahead(bs, Ahead([b], r)) == Ahead(bs + [b], r)
  {
    if r.Ok? {
      Assoc(bs, [b], r.value.0);
    }
  }

  method ReadWords(table: seq<byte>, n: nat) returns (marks: seq<u64>)
    requires |table| == 8 * n
    ensures marks == Many(Good(table), n, ReadWord).0
  {
    hide ReadWord, Many;
    marks := [];
    assert table[8 * 0..] == table;
    assert [] + Many(Good(table), n, ReadWord).0 == Many(Good(table), n, ReadWord).0;
    for i := 0 to n
      invariant Many(Good(table), n, ReadWord).0 == marks + Many(Good(table[8 * i..]), n - i, ReadWord).0
    {
      var w := ReadWord(Good(table[8 * i..8 * (i + 1)])).0;
      NextWord(table[8 * i..], n - i);
      assert table[8 * i..][..8] == table[8 * i..8 * (i + 1)] && table[8 * i..][8..] == table[8 * (i + 1)..];
      Assoc(marks, [w], Many(Good(table[8 * (i + 1)..]), n - (i + 1), ReadWord).0);
      marks := marks + [w];
    }
    NoWord(Good(table[8 * n..]));
    assert marks + [] == marks;
  }

  lemma NoWord(i: Input)
    ensures Many(i, 0, ReadWord).0 == []
  {
  }

  lemma NextWord(table: seq<byte>, n: nat)
    requires |table| >= 8 && n > 0
    ensures Many(Good(table), n, ReadWord).0
         == [ReadWord(Good(table[..8])).0] + Many(Good(table[8..]), n - 1, ReadWord).0
  {
    assert table[..8][..8] == table[..8];
  }

  method ParseProvenance(rest: seq<byte>) returns (r: Result<Provenance, FileError>)
    ensures r == ProvenanceOf(rest)
  {
    hide ReadFields, FromLE, Many;
    if |rest| < 17 {
      return Err(ProvenanceTruncated);
    }
    Widths();
    var vs := ReadFields(Good(rest[..17]), [8, 8, 1]).0;
    var n := vs[2];
    if |rest| - 17 < 8 * n + 4 {
      return Err(ProvenanceTruncated);
    }
    var marks := ReadWords(rest[17..17 + 8 * n], n);
    var block := rest[17 + 8 * n..];
    var len := FromLE(block[..4]);
    if len > 0x10_0000 {
      return Err(StatsTooLong);
    }
    if |block| - 4 != len {
      return Err(StatsLength);
    }
    return Ok(Provenance(vs[0], vs[1], marks, block[4..]));
  }

  method ReadBand(data: seq<byte>, bands: seq<Band>, id: byte, crc: Checksum) returns (r: Result<seq<byte>, FileError>)
    ensures r == ReadBandOf(data, bands, id, crc)
  {
    for i := 0 to |bands|
      invariant ReadBandOf(data, bands, id, crc) == ReadBandOf(data, bands[i..], id, crc)
    {
      if bands[i].id == id {
        var payload := ReadAt(data, bands[i].off, bands[i].len);
        if payload.Ok? && crc(payload.value) != bands[i].sum {
          return Err(BandCrc);
        }
        return payload;
      }
    }
    return Err(UnknownBand);
  }

  method ReadResident(data: seq<byte>, bands: seq<Band>, crc: Checksum) returns (r: Result<(Meta, FieldStats), FileError>)
    ensures r == ResidentBands(data, bands, crc)
  {
    hide ReadBandOf, ParseMeta, ParseFieldStats;
    var metaBytes := ReadBand(data, bands, 0, crc);
    if metaBytes.Err? {
      return Err(metaBytes.error);
    }
    var m := ParseMeta(metaBytes.value);
    if m.Err? {
      return Err(BadBand(m.error));
    }
    var statsBytes := ReadBand(data, bands, 8, crc);
    if statsBytes.Err? {
      return Err(statsBytes.error);
    }
    var s := ParseFieldStats(statsBytes.value);
    if s.Err? {
      return Err(BadBand(s.error));
    }
    return Ok((m.value, s.value));
  }

  /** Open: tail, footer, header page, the two bands that stay in memory, and their agreement with the header. */
  method Open(data: seq<byte>, crc: Checksum) returns (r: Result<Shard, FileError>)
    ensures r == OpenOf(data, crc)
  {
    hide FooterOf, ParseHeader, ResidentBands, FromLE, Disagreement;
    if |data| < 96 + 4096 + 16 {
      return Err(TooSmall);
    }
    var tail := data[|data| - 16..];
    if FromLE(tail[12..]) != crc(tail[..12]) {
      return Err(BadTail);
    }
    var off, len := FromLE(tail[..8]), FromLE(tail[8..12]);
    if off % 4096 != 0 || Wrap64(off + len) != |data| - 16 {
      return Err(BadExtent);
    }
    var footer := ReadAt(data, off, len);
    if footer.Err? {
      return Err(footer.error);
    }
    var index := ParseFooter(footer.value, off, crc);
    if index.Err? {
      return Err(index.error);
    }
    var (bands, p) := index.value;
    var h := ParseHeader(data[..96], crc);
    if h.Err? {
      return Err(BadHeader(h.error));
    }
    var resident := ReadResident(data, bands, crc);
    if resident.Err? {
      return Err(resident.error);
    }
    var (m, stats) := resident.value;
    var disagrees := Disagreement(h.value, m, stats);
    if disagrees.Some? {
      return Err(disagrees.value);
    }
    return Ok(Shard(h.value, p, bands, m, stats));
  }
}
