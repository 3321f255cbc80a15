/** What any .hot file that opens is, hotfmt/filewriter.go and hotfmt/file.go, whoever wrote it. */
module FileSoundness {
  import opened Bytes
  import opened Format
  import opened HotHeader
  import opened HotMeta
  import opened HotFile
  import opened FileReading
  import opened FileLaws

  /** A base stands alone, a delta comes after what it is based on. */
  ghost predicate SoundHeader(h: FileHeader) {
    (h.kind == 1 && h.baseGen == 0) || (h.kind == 2 && h.baseGen < h.generation)
  }

  lemma HeaderIsSound(h: FileHeader)
    ensures Validate(h) == None <==> SoundHeader(h)
  {
  }

  /** Ids in order, each field with a name of at most 64 bytes. */
  ghost predicate SoundFields(fs: seq<MetaField>) {
    && |fs| < 0x100 && (forall i, j :: 0 <= i < j < |fs| ==> fs[i].id < fs[j].id)
    && forall i :: 0 <= i < |fs| ==> 1 <= |fs[i].name| <= 64
  }

  ghost predicate SoundStats(fs: seq<FieldStat>) {
    |fs| < 0x100 && forall i, j :: 0 <= i < j < |fs| ==> fs[i].id < fs[j].id
  }

  lemma {:induction false} FieldsFrom(fs: seq<MetaField>, last: Option<byte>)
    ensures FieldFault(fs, last) == None
       <==> && (forall i, j :: 0 <= i < j < |fs| ==> fs[i].id < fs[j].id)
            && (forall i :: 0 <= i < |fs| ==> 1 <= |fs[i].name| <= 64)
            && (last.Some? && fs != [] ==> last.value < fs[0].id)
  {
    if fs != [] {
      var rest := fs[1..];
      FieldsFrom(rest, Some(fs[0].id));
      assert forall i :: 0 <= i < |rest| ==> rest[i] == fs[i + 1];
      assert forall i :: 0 < i < |fs| ==> fs[i] == rest[i - 1];
    }
  }

  lemma {:induction false} StatsFrom(fs: seq<FieldStat>, last: Option<byte>)
    ensures StatFault(fs, last) == None
       <==> && (forall i, j :: 0 <= i < j < |fs| ==> fs[i].id < fs[j].id)
            && (last.Some? && fs != [] ==> last.value < fs[0].id)
  {
    if fs != [] {
      var rest := fs[1..];
      StatsFrom(rest, Some(fs[0].id));
      assert forall i :: 0 <= i < |rest| ==> rest[i] == fs[i + 1];
      assert forall i :: 0 < i < |fs| ==> fs[i] == rest[i - 1];
    }
  }

  /** The header, the schema and the statistics are about the same documents, tokenizer, scale and fields. */
  ghost predicate Agree(h: FileHeader, m: Meta, s: FieldStats) {
    && m.docCount == h.docCount && m.tokenizerVer == h.tokenizerVer && m.quantScale == h.quantScale
    && |m.fields| == |s.fields| && forall i :: 0 <= i < |m.fields| ==> m.fields[i].id == s.fields[i].id
  }

  ghost predicate SoundContents(h: FileHeader, m: Meta, s: FieldStats) {
    && SoundHeader(h) && SoundFields(m.fields) && |m.lineage| < 0x100 && SoundStats(s.fields) && Agree(h, m, s)
  }

  /** What a file must hold, for the writer to take it and for a reader to open it. */
  lemma ContentsAreSound(h: FileHeader, m: Meta, s: FieldStats)
    ensures GoodContents(h, m, s) <==> SoundContents(h, m, s)
  {
    HeaderIsSound(h);
    FieldsFrom(m.fields, None);
    StatsFrom(s.fields, None);
  }

  /** Band i is the first with this id, and holds these bytes under their checksum. */
  ghost predicate HoldsAt(data: seq<byte>, bands: seq<Band>, i: int, id: byte, payload: seq<byte>, crc: Checksum) {
    && 0 <= i < |bands| && bands[i].id == id && (forall j :: 0 <= j < i ==> bands[j].id != id)
    && bands[i].off + bands[i].len <= |data| && data[bands[i].off..bands[i].off + bands[i].len] == payload
    && bands[i].sum == crc(payload)
  }

  ghost predicate Holds(data: seq<byte>, bands: seq<Band>, id: byte, payload: seq<byte>, crc: Checksum) {
    exists i :: HoldsAt(data, bands, i, id, payload, crc)
  }

  lemma HoldsBehind(data: seq<byte>, bands: seq<Band>, i: int, id: byte, payload: seq<byte>, crc: Checksum)
    requires bands != [] && bands[0].id != id
    ensures HoldsAt(data, bands, i, id, payload, crc) <==> HoldsAt(data, bands[1..], i - 1, id, payload, crc)
  {
    var rest := bands[1..];
    assert forall j :: 0 <= j < |rest| ==> rest[j] == bands[j + 1];
    assert forall j :: 1 <= j < |bands| ==> bands[j] == rest[j - 1];
  }

  lemma HoldsFirst(data: seq<byte>, bands: seq<Band>, i: int, id: byte, payload: seq<byte>, crc: Checksum)
    requires bands != [] && bands[0].id == id
    ensures HoldsAt(data, bands, i, id, payload, crc) ==> i == 0
    ensures HoldsAt(data, bands, 0, id, payload, crc) <==> ReadBandOf(data, bands, id, crc) == Ok(payload)
  {
  }

  lemma {:induction false} ReadHolds(data: seq<byte>, bands: seq<Band>, id: byte, payload: seq<byte>, crc: Checksum)
    ensures ReadBandOf(data, bands, id, crc) == Ok(payload) <==> Holds(data, bands, id, payload, crc)
  {
    if bands != [] && bands[0].id != id {
      ReadHolds(data, bands[1..], id, payload, crc);
      hide HoldsAt;
      forall i ensures HoldsAt(data, bands, i, id, payload, crc) <==> HoldsAt(data, bands[1..], i - 1, id, payload, crc) {
        HoldsBehind(data, bands, i, id, payload, crc);
      }
      forall i ensures HoldsAt(data, bands[1..], i, id, payload, crc) <==> HoldsAt(data, bands, i + 1, id, payload, crc) {
        HoldsBehind(data, bands, i + 1, id, payload, crc);
      }
    } else if bands != [] {
      hide HoldsAt, ReadBandOf;
      forall i ensures HoldsAt(data, bands, i, id, payload, crc) ==> i == 0 {
        HoldsFirst(data, bands, i, id, payload, crc);
      }
      HoldsFirst(data, bands, 0, id, payload, crc);
    }
  }

  lemma ResidentIff(data: seq<byte>, bands: seq<Band>, crc: Checksum, m: Meta, s: FieldStats)
    ensures ResidentBands(data, bands, crc) == Ok((m, s))
       <==> && Holds(data, bands, 0, MetaBytes(m), crc) && GoodMeta(m)
            && Holds(data, bands, 8, StatsBytes(s), crc) && GoodStats(s)
  {
    hide Holds, ReadBandOf, MetaBytes, StatsBytes, ParseMeta, ParseFieldStats, GoodMeta, GoodStats;
    ReadHolds(data, bands, 0, MetaBytes(m), crc);
    ReadHolds(data, bands, 8, StatsBytes(s), crc);
    MetaLaw(MetaBytes(m), m);
    StatsLaw(StatsBytes(s), s);
    var meta, stats := ReadBandOf(data, bands, 0, crc), ReadBandOf(data, bands, 8, crc);
    if meta.Ok? {
      MetaLaw(meta.value, m);
    }
    if stats.Ok? {
      StatsLaw(stats.value, s);
    }
  }

  // ----- the whole file -----

  /** What opening asks of a file with its footer at off. */
  ghost predicate Opens(data: seq<byte>, s: Shard, off: nat, crc: Checksum)
    requires off + 16 <= |data| && |data| >= 96
  {
    && FooterOf(data[off..|data| - 16], off, crc) == Ok((s.bands, s.provenance))
    && ParseHeader(data[..96], crc) == Ok(s.header)
    && ResidentBands(data, s.bands, crc) == Ok((s.meta, s.stats))
    && Disagreement(s.header, s.meta, s.stats) == None
  }

  lemma OpensAt(data: seq<byte>, s: Shard, off: nat, len: nat, crc: Checksum)
    requires |data| >= 96 + 4096 + 16 && off + len == |data| - 16 < 0x8000_0000_0000_0000 && off % 4096 == 0
    requires var t := data[|data| - 16..];
             FromLE(t[..8]) == off && FromLE(t[8..12]) == len && FromLE(t[12..]) == crc(t[..12])
    ensures OpenOf(data, crc) == Ok(s) <==> Opens(data, s, off, crc)
  {
    hide FromLE, FooterOf, ParseHeader, ResidentBands, Disagreement;
    assert data[off..off + len] == data[off..|data| - 16];
  }

  /** It must have a tail that says where the footer is. */
  lemma OpensSomewhere(data: seq<byte>, s: Shard, crc: Checksum) returns (off: nat, len: nat)
    requires OpenOf(data, crc) == Ok(s) && |data| < 0x8000_0000_0000_0000
    ensures |data| >= 96 + 4096 + 16 && off + len == |data| - 16 && off % 4096 == 0 && len < 0x1_0000_0000
    ensures var t := data[|data| - 16..];
            FromLE(t[..8]) == off && FromLE(t[8..12]) == len && FromLE(t[12..]) == crc(t[..12])
  {
    hide FromLE, FooterOf, ParseHeader, ResidentBands, Disagreement;
    var t := data[|data| - 16..];
    off, len := FromLE(t[..8]), FromLE(t[8..12]);
    Widths();
    FromLEBound(t[8..12]);
  }

  /** A footer starts with the number of bands, and a file with its magic. */
  lemma FooterStarts(footer: seq<byte>, off: nat, crc: Checksum)
    requires FooterOf(footer, off, crc).Ok?
    ensures footer != [] && footer[0] == 9
  {
    hide BandsFrom, ProvenanceOf, FromLE;
  }

  lemma PageStarts(page: seq<byte>, crc: Checksum)
    requires ParseHeader(page, crc).Ok?
    ensures page != [] && page[0] == 116
  {
    hide FromLE, Validate;
    assert page[0] == page[..16][0] == MAGIC[0];
  }

  lemma NotInFront(data: seq<byte>, s: Shard, off: nat, crc: Checksum)
    requires off + 16 <= |data| && |data| >= 96 && Opens(data, s, off, crc)
    ensures off != 0
  {
    hide FooterOf, ParseHeader, ResidentBands, Disagreement;
    FooterStarts(data[off..|data| - 16], off, crc);
    PageStarts(data[..96], crc);
    assert data[..96][0] == data[0] && data[off..|data| - 16][0] == data[off];
  }

  /**
   * A .hot file: header page, footer on a boundary, tail, nine bands that fill what is between, meta and statistics under
   * their ids, and contents that agree.
   */
  ghost predicate IsFile(data: seq<byte>, s: Shard, off: nat, crc: Checksum) {
    && 4096 <= off && off % 4096 == 0 && |data| >= 96 + 4096 + 16 && off + 16 <= |data| < off + 16 + 0x1_0000_0000
    && data[..96] == HeaderPage(s.header, crc)
    && data[off..|data| - 16] == Footer(s.bands, s.provenance, crc) && Dense(s.bands, 0, 4096, off)
    && data[|data| - 16..] == Tail(off, |data| - 16 - off, crc)
    && |s.provenance.watermarks| < 0x100 && |s.provenance.stats| <= 0x10_0000
    && Holds(data, s.bands, 0, MetaBytes(s.meta), crc) && Holds(data, s.bands, 8, StatsBytes(s.stats), crc)
    && SoundContents(s.header, s.meta, s.stats)
  }

  lemma OpensIff(data: seq<byte>, s: Shard, off: nat, crc: Checksum)
    requires 4096 <= off < 0x8000_0000_0000_0000 && off % 4096 == 0 && off + 16 <= |data| && |data| >= 96
    ensures Opens(data, s, off, crc)
       <==> && data[..96] == HeaderPage(s.header, crc)
            && data[off..|data| - 16] == Footer(s.bands, s.provenance, crc) && Dense(s.bands, 0, 4096, off)
            && |s.provenance.watermarks| < 0x100 && |s.provenance.stats| <= 0x10_0000
            && Holds(data, s.bands, 0, MetaBytes(s.meta), crc) && Holds(data, s.bands, 8, StatsBytes(s.stats), crc)
            && SoundContents(s.header, s.meta, s.stats)
  {
    hide FooterOf, ParseHeader, ResidentBands, Disagreement, HeaderPage, Footer, Dense, Holds, MetaBytes, StatsBytes,
      SoundContents, GoodMeta, GoodStats, Validate;
    FooterLaw(data[off..|data| - 16], off, crc, s.bands, s.provenance);
    HeaderLaw(data[..96], crc, s.header);
    assert data[..96][..96] == data[..96];
    ResidentIff(data, s.bands, crc, s.meta, s.stats);
    ContentsAreSound(s.header, s.meta, s.stats);
  }

  /** Whatever the bytes of a file below 2^63, and whoever wrote it: it opens to s exactly when it is a .hot file of s. */
  lemma OpensExactly(data: seq<byte>, s: Shard, crc: Checksum)
    requires |data| < 0x8000_0000_0000_0000
    ensures OpenOf(data, crc) == Ok(s) <==> exists off :: IsFile(data, s, off, crc)
  {
    hide OpenOf, Opens, HeaderPage, Footer, Tail, Dense, Holds, MetaBytes, StatsBytes, SoundContents, FromLE;
    if OpenOf(data, crc) == Ok(s) {
      var off, len := OpensSomewhere(data, s, crc);
      OpensAt(data, s, off, len, crc);
      NotInFront(data, s, off, crc);
      OpensIff(data, s, off, crc);
      TailIs(data[|data| - 16..], off, len, crc);
      assert IsFile(data, s, off, crc);
    }
    if off: nat :| IsFile(data, s, off, crc) {
      var len := |data| - 16 - off;
      TailIs(data[|data| - 16..], off, len, crc);
      OpensIff(data, s, off, crc);
      OpensAt(data, s, off, len, crc);
    }
  }
}
