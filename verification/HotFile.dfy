/**
 * The layout of a .hot file, hotfmt/file.go: header page, nine bands on 4 KiB boundaries, footer and tail; and its
 * assembly in memory.
 */
module HotFile {
  import opened Bytes
  import opened Format
  import opened HotHeader
  import opened HotMeta

  /** Which band comes where. */
  const BAND_ORDER: seq<byte> := [0, 8, 1, 5, 7, 2, 3, 4, 6]

  datatype Provenance = Provenance(builder: u64, buildMS: u64, watermarks: seq<u64>, stats: seq<byte>)

  /** A record of the footer's band index; the raw length is the length. */
  datatype Band = Band(id: byte, off: nat, len: nat, sum: u32)

  datatype FileError =
    | BadHeader(header: HeaderError) | ReservedBand | OutOfOrder | Unfinished | TooManyWatermarks | StatsTooLong
    | TooSmall | BadTail | BadExtent | ReadError | FooterTooShort | FooterCrc | BandCount
    | BandOrder | BandOffset | BandOverrun | RawLength | Gap | ProvenanceTruncated | StatsLength
    | UnknownBand | BandCrc
    | BadBand(cause: MetaError) | MetaDisagrees | ScaleDisagrees | FieldCounts | FieldIds

  function AlignUp(n: nat): (m: nat)
    ensures n <= m < n + 4096 && m % 4096 == 0
  {
    (n + 4095) / 4096 * 4096
  }

  function Padded(out: seq<byte>): (p: seq<byte>)
    ensures |p| == AlignUp(|out|) && p[..|out|] == out
  {
    out + Zeros(AlignUp(|out|) - |out|)
  }

  // ----- the layout -----

  /** The head and the first k bands. */
  function Laid(head: seq<byte>, ps: seq<seq<byte>>, k: nat): seq<byte>
    requires k <= |ps|
  {
    if k == 0 then head else Padded(Laid(head, ps, k - 1)) + ps[k - 1]
  }

  function BandOf(head: seq<byte>, ps: seq<seq<byte>>, k: nat, crc: Checksum): Band
    requires k < |ps| <= 9
  {
    Band(BAND_ORDER[k], AlignUp(|Laid(head, ps, k)|), |ps[k]|, crc(ps[k]))
  }

  /** The band index of the first k bands. */
  function BandsOf(head: seq<byte>, ps: seq<seq<byte>>, k: nat, crc: Checksum): (bs: seq<Band>)
    requires k <= |ps| <= 9
    ensures |bs| == k
  {
    if k == 0 then [] else BandsOf(head, ps, k - 1, crc) + [BandOf(head, ps, k - 1, crc)]
  }

  const BAND_SHAPE: seq<nat> := [1, 8, 8, 8, 4]

  function BandBytes(b: Band): seq<byte> {
    Fields(BAND_SHAPE, [b.id, b.off, b.len, b.len, b.sum])
  }

  function ProvenanceBytes(p: Provenance): seq<byte> {
    Fields([8, 8, 1], [p.builder, p.buildMS, |p.watermarks| % 0x100])
    + (Concat(p.watermarks, WordBytes) + (LE(4, |p.stats| % 0x1_0000_0000) + p.stats))
  }

  function FooterBody(bands: seq<Band>, p: Provenance): seq<byte> {
    [9] + (Concat(bands, BandBytes) + ProvenanceBytes(p))
  }

  function Footer(bands: seq<Band>, p: Provenance, crc: Checksum): (f: seq<byte>)
    ensures |f| >= 4
  {
    FooterBody(bands, p) + LE(4, crc(FooterBody(bands, p)))
  }

  /** Footer and tail behind the padded bands. */
  function Sealed(body: seq<byte>, bands: seq<Band>, p: Provenance, crc: Checksum): seq<byte> {
    var f := Footer(bands, p, crc);
    body + f + Tail(|body|, |f|, crc)
  }

  /** The one byte stream of these contents. */
  function FileBytes(h: FileHeader, ps: seq<seq<byte>>, p: Provenance, crc: Checksum): seq<byte>
    requires |ps| == 9
  {
    var head := HeaderPage(h, crc);
    Sealed(Padded(Laid(head, ps, 9)), BandsOf(head, ps, 9, crc), p, crc)
  }

  predicate GoodProvenance(p: Provenance) {
    |p.watermarks| <= 255 && |p.stats| <= 0x10_0000
  }

  // ----- assembly in memory -----

  predicate SameIds(fs: seq<MetaField>, ss: seq<FieldStat>)
    requires |fs| == |ss|
  {
    forall i :: 0 <= i < |fs| ==> fs[i].id == ss[i].id
  }

  /** Where header, meta and fieldstats disagree first. */
  function Disagreement(h: FileHeader, m: Meta, s: FieldStats): Option<FileError> {
    if m.docCount != h.docCount || m.tokenizerVer != h.tokenizerVer then Some(MetaDisagrees)
    else if m.quantScale != h.quantScale then Some(ScaleDisagrees)
    else if |m.fields| != |s.fields| then Some(FieldCounts)
    else if !SameIds(m.fields, s.fields) then Some(FieldIds)
    else None
  }

  predicate GoodContents(h: FileHeader, m: Meta, s: FieldStats) {
    Validate(h) == None && Disagreement(h, m, s) == None && GoodMeta(m) && GoodStats(s)
  }

  /** The bands that the caller hands over; the two others come from their structs. */
  const OPAQUE_BANDS: set<byte> := {1, 2, 3, 4, 5, 6, 7}

  function PayloadAt(meta: seq<byte>, stats: seq<byte>, bands: map<byte, seq<byte>>, id: byte): seq<byte> {
    if id == 0 then meta else if id == 8 then stats else if id in bands then bands[id] else []
  }

  /** The payloads in file order; a missing band is empty. */
  function Payloads(meta: seq<byte>, stats: seq<byte>, bands: map<byte, seq<byte>>): (ps: seq<seq<byte>>)
    ensures |ps| == 9
    ensures forall k :: 0 <= k < 9 ==> ps[k] == PayloadAt(meta, stats, bands, BAND_ORDER[k])
  {
    seq(9, k requires 0 <= k < 9 => PayloadAt(meta, stats, bands, BAND_ORDER[k]))
  }

  /** EncodeFile. */
  method EncodeFile(h: FileHeader, m: Meta, s: FieldStats, bands: map<byte, seq<byte>>, p: Provenance, crc: Checksum)
    returns (r: Result<seq<byte>, FileError>)
    ensures r.Ok? <==> GoodContents(h, m, s) && GoodProvenance(p) && bands.Keys <= OPAQUE_BANDS
    ensures r.Ok? ==> r.value == FileBytes(h, Payloads(MetaBytes(m), StatsBytes(s), bands), p, crc)
  {
    hide HeaderPage, Footer, Tail, Payloads, MetaBytes, StatsBytes, FieldFault, StatFault, Disagreement;
    var bad := Validate(h);
    if bad.Some? {
      return Err(BadHeader(bad.value));
    }
    var disagrees := Disagreement(h, m, s);
    if disagrees.Some? {
      return Err(disagrees.value);
    }
    if |p.watermarks| > 255 {
      return Err(TooManyWatermarks);
    }
    if |p.stats| > 0x10_0000 {
      return Err(StatsTooLong);
    }
    if !(bands.Keys <= OPAQUE_BANDS) {
      return Err(ReservedBand);
    }
    var metaBytes := EncodeMeta(m);
    if metaBytes.Err? {
      return Err(BadBand(metaBytes.error));
    }
    var statsBytes := EncodeFieldStats(s);
    if statsBytes.Err? {
      return Err(BadBand(statsBytes.error));
    }
    var meta, stats := metaBytes.value, statsBytes.value;
    ghost var ps := Payloads(meta, stats, bands);
    ghost var head := HeaderPage(h, crc);
    var out, entries := HeaderPage(h, crc), [];
    for k := 0 to 9
      invariant out == Laid(head, ps, k) && entries == BandsOf(head, ps, k, crc)
    {
      var payload := PayloadAt(meta, stats, bands, BAND_ORDER[k]);
      out := Padded(out);
      entries := entries + [Band(BAND_ORDER[k], |out|, |payload|, crc(payload))];
      out := out + payload;
    }
    return Ok(Sealed(Padded(out), entries, p, crc));
  }
}
