/** hotfmt/filewriter.go: a .hot file written band by band, which comes out as EncodeFile writes it. */
module FileWriting {
  import opened Bytes
  import opened Format
  import opened HotHeader
  import opened HotMeta
  import opened HotFile

  /** crc32.Update: from the sum so far and more bytes. */
  type Update = (u32, seq<byte>) -> u32

  ghost predicate Streams(update: Update, crc: Checksum) {
    crc([]) == 0 && forall a, b :: update(crc(a), b) == crc(a + b)
  }

  /** What has been written after some bands. */
  ghost predicate Written(out: seq<byte>, entries: seq<Band>, head: seq<byte>, ps: seq<seq<byte>>, crc: Checksum) {
    |ps| <= 9 && out == Laid(head, ps, |ps|) && entries == BandsOf(head, ps, |ps|, crc)
  }

  function Whole(chunks: seq<seq<byte>>): seq<byte> {
    if chunks == [] then [] else Whole(chunks[..|chunks| - 1]) + chunks[|chunks| - 1]
  }

  const BUF_SIZE: nat := 0x8000

  class FileWriter {
    var out: seq<byte>
    var next: nat
    var entries: seq<Band>
    const crc: Checksum
    const update: Update
    /** The header page and the payloads of the bands written. */
    ghost var head: seq<byte>
    ghost var bands: seq<seq<byte>>

    ghost predicate Valid()
      reads this
    {
      |bands| == next && Written(out, entries, head, bands, crc) && Streams(update, crc)
    }

    /** The header page alone. */
    constructor (head: seq<byte>, crc: Checksum, update: Update)
      requires Streams(update, crc)
      ensures Valid() && bands == [] && this.head == head && this.crc == crc && this.update == update
    {
      out, next, entries := head, 0, [];
      this.crc, this.update, this.head, bands := crc, update, head, [];
    }

    /** Pads what has been written, in pieces of at most a buffer. */
    method Pad()
      modifies this`out
      ensures out == Padded(old(out))
    {
      var n := AlignUp(|out|) - |out|;
      assert out + Zeros(0) == out;
      while n > 0
        invariant n >= 0 && |out| + n == AlignUp(|old(out)|) && |old(out)| <= |out|
        invariant out == old(out) + Zeros(|out| - |old(out)|)
      {
        var chunk := if n < BUF_SIZE then n else BUF_SIZE;
        ZerosMore(old(out), |out| - |old(out)|, chunk);
        out := out + Zeros(chunk);
        n := n - chunk;
      }
    }

    /** A reader's bytes, in whatever pieces it hands them out, empty ones included. */
    method Copy(chunks: seq<seq<byte>>) returns (n: nat, sum: u32)
      requires Streams(update, crc)
      modifies this`out
      ensures out == old(out) + Whole(chunks) && n == |Whole(chunks)| && sum == crc(Whole(chunks))
    {
      n, sum := 0, 0;
      for i := 0 to |chunks|
        invariant out == old(out) + Whole(chunks[..i]) && n == |Whole(chunks[..i])| && sum == crc(Whole(chunks[..i]))
      {
        WholeMore(chunks, i);
        Assoc(old(out), Whole(chunks[..i]), chunks[i]);
        sum := update(sum, chunks[i]);
        n := n + |chunks[i]|;
        out := out + chunks[i];
      }
      assert chunks[..|chunks|] == chunks;
    }

    method WriteBand(id: byte, chunks: seq<seq<byte>>) returns (ok: bool)
      requires Valid()
      modifies this`out, this`entries, this`next, this`bands
      ensures Valid()
      ensures ok <==> old(next) < 9 && BAND_ORDER[old(next)] == id
      ensures bands == if ok then old(bands) + [Whole(chunks)] else old(bands)
    {
      hide Streams, Written;
      if next >= 9 || BAND_ORDER[next] != id {
        return false;
      }
      WrittenMore(out, entries, head, bands, Whole(chunks), crc);
      Pad();
      var off := |out|;
      var n, sum := Copy(chunks);
      entries := entries + [Band(id, off, n, sum)];
      bands := bands + [Whole(chunks)];
      next := next + 1;
      return true;
    }

    method WriteBandBytes(id: byte, payload: seq<byte>) returns (ok: bool)
      requires Valid()
      modifies this`out, this`entries, this`next, this`bands
      ensures Valid()
      ensures ok <==> old(next) < 9 && BAND_ORDER[old(next)] == id
      ensures bands == if ok then old(bands) + [payload] else old(bands)
    {
      hide Streams, Written;
      if next >= 9 || BAND_ORDER[next] != id {
        return false;
      }
      WrittenMore(out, entries, head, bands, payload, crc);
      Pad();
      entries := entries + [Band(id, |out|, |payload|, crc(payload))];
      out := out + payload;
      bands := bands + [payload];
      next := next + 1;
      return true;
    }

    /** The footer and the tail. */
    method Finish(p: Provenance) returns (bad: Option<FileError>)
      requires Valid()
      modifies this`out
      ensures bad == None <==> |bands| == 9 && GoodProvenance(p)
      ensures bad == None ==> forall h :: head == HeaderPage(h, crc) ==> out == FileBytes(h, bands, p, crc)
      ensures bad != None ==> out == old(out)
    {
      hide Footer, Tail, Laid, BandsOf, Padded, HeaderPage;
      if next != 9 {
        return Some(Unfinished);
      }
      if |p.watermarks| > 255 {
        return Some(TooManyWatermarks);
      }
      if |p.stats| > 0x10_0000 {
        return Some(StatsTooLong);
      }
      Pad();
      var footerOff := |out|;
      var footer := Footer(entries, p, crc);
      out := out + footer;
      out := out + Tail(footerOff, |footer|, crc);
      return None;
    }
  }

  /** NewFileWriter: the checks of the in-memory encoder, then the header page and the two bands that stay in memory. */
  method NewFileWriter(h: FileHeader, m: Meta, s: FieldStats, crc: Checksum, update: Update)
    returns (r: Result<FileWriter, FileError>)
    requires Streams(update, crc)
    ensures r.Ok? <==> GoodContents(h, m, s)
    ensures r.Ok? ==> fresh(r.value) && r.value.Valid() && r.value.crc == crc
    ensures r.Ok? ==> r.value.head == HeaderPage(h, crc) && r.value.bands == [MetaBytes(m), StatsBytes(s)]
  {
    hide Streams, Written, HeaderPage, MetaBytes, StatsBytes, FieldFault, StatFault, Disagreement;
    var bad := Validate(h);
    if bad.Some? {
      return Err(BadHeader(bad.value));
    }
    var disagrees := Disagreement(h, m, s);
    if disagrees.Some? {
      return Err(disagrees.value);
    }
    var metaBytes := EncodeMeta(m);
    if metaBytes.Err? {
      return Err(BadBand(metaBytes.error));
    }
    var statsBytes := EncodeFieldStats(s);
    if statsBytes.Err? {
      return Err(BadBand(statsBytes.error));
    }
    var w := new FileWriter(HeaderPage(h, crc), crc, update);
    var first := w.WriteBandBytes(0, metaBytes.value);
    var second := w.WriteBandBytes(8, statsBytes.value);
    assert [] + [metaBytes.value] + [statsBytes.value] == [metaBytes.value, statsBytes.value];
    return Ok(w);
  }

  /** However the bands are handed over: pieces of each, in file order, that make up what the map holds for it. */
  ghost predicate PiecesOf(chunks: seq<seq<seq<byte>>>, bands: map<byte, seq<byte>>) {
    |chunks| == 7 && forall k :: 0 <= k < 7 ==> Whole(chunks[k]) == PayloadAt([], [], bands, BAND_ORDER[k + 2])
  }

  /** The payloads written after the first k pieced bands. */
  ghost function WrittenBands(meta: seq<byte>, stats: seq<byte>, chunks: seq<seq<seq<byte>>>, k: nat): (ps: seq<seq<byte>>)
    requires k <= |chunks|
    ensures |ps| == k + 2
  {
    if k == 0 then [meta, stats] else WrittenBands(meta, stats, chunks, k - 1) + [Whole(chunks[k - 1])]
  }

  lemma {:induction false} WrittenAt(meta: seq<byte>, stats: seq<byte>, chunks: seq<seq<seq<byte>>>, k: nat, j: nat)
    requires k <= |chunks| && j < k + 2
    ensures WrittenBands(meta, stats, chunks, k)[j] == if j == 0 then meta else if j == 1 then stats else Whole(chunks[j - 2])
  {
    hide Whole;
    if k > 0 && j < k + 1 {
      WrittenAt(meta, stats, chunks, k - 1, j);
    }
  }

  lemma AllWritten(meta: seq<byte>, stats: seq<byte>, chunks: seq<seq<seq<byte>>>, bands: map<byte, seq<byte>>)
    requires PiecesOf(chunks, bands)
    ensures WrittenBands(meta, stats, chunks, 7) == Payloads(meta, stats, bands)
  {
    hide Whole, WrittenBands, Payloads;
    forall j | 0 <= j < 9 ensures WrittenBands(meta, stats, chunks, 7)[j] == Payloads(meta, stats, bands)[j] {
      WrittenAt(meta, stats, chunks, 7, j);
      OrderOpaque(j);
      assert j >= 2 ==> Whole(chunks[j - 2]) == PayloadAt([], [], bands, BAND_ORDER[(j - 2) + 2]);
    }
  }

  lemma OrderOpaque(j: nat)
    requires j < 9
    ensures BAND_ORDER[0] == 0 && BAND_ORDER[1] == 8 && (j >= 2 ==> BAND_ORDER[j] in OPAQUE_BANDS)
  {
  }

  /** The seven bands in order, each from its pieces: every one is taken. */
  method WriteBands(w: FileWriter, chunks: seq<seq<seq<byte>>>, ghost meta: seq<byte>, ghost stats: seq<byte>)
    requires w.Valid() && w.bands == [meta, stats] && |chunks| == 7
    modifies w`out, w`entries, w`next, w`bands
    ensures w.Valid() && w.bands == WrittenBands(meta, stats, chunks, 7)
  {
    hide Written, Streams, Whole;
    for k := 0 to 7
      invariant w.Valid() && w.bands == WrittenBands(meta, stats, chunks, k)
    {
      var ok := w.WriteBand(BAND_ORDER[k + 2], chunks[k]);
    }
  }

  /**
   * Streaming and encoding in memory are one: for the same contents and any pieces of the bands, both refuse or both give
   * the same bytes.
   */
  method StreamedIsEncoded(h: FileHeader, m: Meta, s: FieldStats, bands: map<byte, seq<byte>>, chunks: seq<seq<seq<byte>>>,
                           p: Provenance, crc: Checksum, update: Update)
    returns (streamed: Option<seq<byte>>, encoded: Option<seq<byte>>)
    requires Streams(update, crc) && bands.Keys <= OPAQUE_BANDS && PiecesOf(chunks, bands)
    ensures streamed == encoded
    ensures encoded.Some? <==> GoodContents(h, m, s) && GoodProvenance(p)
    ensures encoded.Some? ==> encoded.value == FileBytes(h, Payloads(MetaBytes(m), StatsBytes(s), bands), p, crc)
  {
    hide Streams, Written, GoodContents, MetaBytes, StatsBytes, FileBytes, Payloads, HeaderPage, PiecesOf, WrittenBands;
    var r := EncodeFile(h, m, s, bands, p, crc);
    encoded := if r.Ok? then Some(r.value) else None;
    streamed := None;
    var w := NewFileWriter(h, m, s, crc, update);
    if w.Ok? {
      PiecesCount(chunks, bands);
      WriteBands(w.value, chunks, MetaBytes(m), StatsBytes(s));
      AllWritten(MetaBytes(m), StatsBytes(s), chunks, bands);
      var bad := w.value.Finish(p);
      if bad == None {
        streamed := Some(w.value.out);
      }
    }
  }

  lemma PiecesCount(chunks: seq<seq<seq<byte>>>, bands: map<byte, seq<byte>>)
    requires PiecesOf(chunks, bands)
    ensures |chunks| == 7
  {
  }

  lemma ZerosMore(out: seq<byte>, m: nat, n: nat)
    ensures (out + Zeros(m)) + Zeros(n) == out + Zeros(m + n)
  {
  }

  lemma WholeMore(chunks: seq<seq<byte>>, i: nat)
    requires i < |chunks|
    ensures Whole(chunks[..i + 1]) == Whole(chunks[..i]) + chunks[i]
  {
    assert chunks[..i + 1][..i] == chunks[..i];
  }

  lemma {:induction false} LaidStable(head: seq<byte>, ps: seq<seq<byte>>, q: seq<byte>, k: nat)
    requires k <= |ps|
    ensures Laid(head, ps + [q], k) == Laid(head, ps, k)
  {
    if k > 0 {
      LaidStable(head, ps, q, k - 1);
    }
  }

  lemma {:induction false} BandsStable(head: seq<byte>, ps: seq<seq<byte>>, q: seq<byte>, k: nat, crc: Checksum)
    requires k <= |ps| < 9
    ensures BandsOf(head, ps + [q], k, crc) == BandsOf(head, ps, k, crc)
  {
    hide Laid;
    if k > 0 {
      BandsStable(head, ps, q, k - 1, crc);
      LaidStable(head, ps, q, k - 1);
    }
  }

  /** One more band: padding, payload and index record. */
  lemma WrittenMore(out: seq<byte>, entries: seq<Band>, head: seq<byte>, ps: seq<seq<byte>>, q: seq<byte>, crc: Checksum)
    requires Written(out, entries, head, ps, crc) && |ps| < 9
    ensures Written(Padded(out) + q, entries + [Band(BAND_ORDER[|ps|], |Padded(out)|, |q|, crc(q))], head, ps + [q], crc)
  {
    hide Padded;
    LaidStable(head, ps, q, |ps|);
    BandsStable(head, ps, q, |ps|, crc);
  }
}
