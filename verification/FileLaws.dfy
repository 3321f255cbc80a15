/** What is written opens: the footer of a .hot file as a law, and the file as a round trip. */
module FileLaws {
  import opened Bytes
  import opened Format
  import opened HotHeader
  import opened HotMeta
  import opened HotFile
  import opened FileReading

  // ----- the band index -----

  /** Record k of a dense layout whose next band starts at next and whose footer is at off. */
  ghost predicate Placed(b: Band, k: nat, next: nat, off: nat)
    requires k < 9
  {
    b.id == BAND_ORDER[k] && b.off == next && next + b.len <= off
  }

  /** The bands from number k on fill the file from next up to the footer, with nothing but padding between them. */
  ghost predicate Dense(bs: seq<Band>, k: nat, next: nat, off: nat)
    requires k <= 9
    decreases |bs|
  {
    if bs == [] then k == 9 && next == off
    else k < 9 && Placed(bs[0], k, next, off) && Dense(bs[1..], k + 1, AlignUp(next + bs[0].len), off)
  }

  lemma BandTotal()
    ensures Total(BAND_SHAPE) == 29 && Total([8, 8, 1]) == 17
  {
    assert Total([]) == 0 && [4][1..] == [] && [8, 4][1..] == [4] && [8, 8, 4][1..] == [8, 4] && [8, 8, 8, 4][1..] == [8, 8, 4];
    assert BAND_SHAPE[1..] == [8, 8, 8, 4] && Total([8, 8, 4]) == 20 && Total([8, 8, 8, 4]) == 28;
    assert [1][1..] == [] && [8, 1][1..] == [1] && [8, 8, 1][1..] == [8, 1] && Total([8, 1]) == 9;
  }

  lemma BandLaw(d: seq<byte>, k: nat, next: nat, off: nat, b: Band)
    requires k < 9 && |d| == 29 && next <= off < 0x1_0000_0000_0000_0000
    ensures BandFrom(ReadFields(Good(d), BAND_SHAPE).0, k, next, off) == Ok(b) <==> Placed(b, k, next, off) && d == BandBytes(b)
  {
    hide ReadFields, Fields;
    var vs, fs := ReadFields(Good(d), BAND_SHAPE).0, [b.id, b.off, b.len, b.len, b.sum];
    BandTotal();
    Widths();
    ReadsAll(d, BAND_SHAPE, []);
    assert d + [] == d && Fields(BAND_SHAPE, fs) + [] == Fields(BAND_SHAPE, fs);
    FieldsLaw(d, BAND_SHAPE, fs, []);
    FieldsLaw(d, BAND_SHAPE, vs, []);
    assert vs == [vs[0], vs[1], vs[2], vs[3], vs[4]];
  }

  lemma AlignWithin(n: nat, off: nat)
    requires n <= off && off % 4096 == 0
    ensures AlignUp(n) <= off
  {
  }

  lemma BandLength(b: Band)
    ensures |BandBytes(b)| == 29
  {
    hide Fields;
    BandTotal();
    FieldsLength(BAND_SHAPE, [b.id, b.off, b.len, b.len, b.sum]);
  }

  lemma BandsHead(data: seq<byte>, k: nat, next: nat, off: nat, bs: seq<Band>, rest: seq<byte>)
    requires k < 9 && |data| >= 29 * (9 - k)
    ensures BandsFrom(data, k, next, off) == Ok((bs, rest))
       <==> && bs != [] && BandFrom(ReadFields(Good(data[..29]), BAND_SHAPE).0, k, next, off) == Ok(bs[0])
            && BandsFrom(data[29..], k + 1, AlignUp(Wrap64(bs[0].off + bs[0].len)), off) == Ok((bs[1..], rest))
  {
    hide ReadFields, BandFrom, AlignUp, Wrap64;
    if bs != [] {
      assert [bs[0]] + bs[1..] == bs;
    }
    var r := BandFrom(ReadFields(Good(data[..29]), BAND_SHAPE).0, k, next, off);
    if r.Ok? {
      var t := BandsFrom(data[29..], k + 1, AlignUp(Wrap64(r.value.off + r.value.len)), off);
      if t.Ok? {
        assert ([r.value] + t.value.0)[1..] == t.value.0;
      }
    }
  }

  lemma BytesHead(data: seq<byte>, bs: seq<Band>, rest: seq<byte>)
    requires bs != [] && |data| >= 29
    ensures data == Concat(bs, BandBytes) + rest
       <==> data[..29] == BandBytes(bs[0]) && data[29..] == Concat(bs[1..], BandBytes) + rest
  {
    hide BandBytes;
    BandLength(bs[0]);
    assert data == data[..29] + data[29..];
    Assoc(BandBytes(bs[0]), Concat(bs[1..], BandBytes), rest);
    if data == Concat(bs, BandBytes) + rest {
      SameSplit(data[..29], data[29..], BandBytes(bs[0]), Concat(bs[1..], BandBytes) + rest);
    }
  }

  /** The band index parses to these records exactly when they are dense up to the footer and these are their bytes. */
  lemma {:induction false} BandsLaw(data: seq<byte>, k: nat, next: nat, off: nat, bs: seq<Band>, rest: seq<byte>)
    requires k <= 9 && |data| >= 29 * (9 - k) && next <= off < 0x1_0000_0000_0000_0000 && off % 4096 == 0
    ensures BandsFrom(data, k, next, off) == Ok((bs, rest)) <==> Dense(bs, k, next, off) && data == Concat(bs, BandBytes) + rest
    decreases 9 - k
  {
    hide ReadFields, BandFrom, BandBytes, AlignUp, BandsFrom, Concat;
    if k == 9 {
      BandsEnd(data, next, off);
      NothingConcat(rest);
    } else if bs != [] {
      BandsHead(data, k, next, off, bs, rest);
      BytesHead(data, bs, rest);
      BandLaw(data[..29], k, next, off, bs[0]);
      if Placed(bs[0], k, next, off) {
        AlignWithin(next + bs[0].len, off);
        BandsLaw(data[29..], k + 1, AlignUp(next + bs[0].len), off, bs[1..], rest);
      }
    } else {
      BandsHead(data, k, next, off, bs, rest);
    }
  }

  lemma NothingConcat(rest: seq<byte>)
    ensures Concat([], BandBytes) + rest == rest
  {
  }

  // ----- the provenance -----

  /** Its three parts, as the reader cuts them. */
  lemma ProvenanceParts(a: seq<byte>, t: seq<byte>, b: seq<byte>, p: Provenance)
    requires GoodProvenance(p) && |a| == 17 && |t| == 8 * |p.watermarks| && |b| >= 4
    ensures a + (t + b) == ProvenanceBytes(p)
       <==> && a == Fields([8, 8, 1], [p.builder, p.buildMS, |p.watermarks|])
            && t == Concat(p.watermarks, WordBytes)
            && b[..4] == LE(4, |p.stats|) && b[4..] == p.stats
  {
    hide Fields, LE, Concat;
    var fs, ws := [p.builder, p.buildMS, |p.watermarks|], Concat(p.watermarks, WordBytes);
    var s := LE(4, |p.stats|) + p.stats;
    BandTotal();
    FieldsLength([8, 8, 1], fs);
    WordsLength(p.watermarks);
    assert b == b[..4] + b[4..] && s[..4] == LE(4, |p.stats|) && s[4..] == p.stats;
    if a + (t + b) == ProvenanceBytes(p) {
      SameSplit(a, t + b, Fields([8, 8, 1], fs), ws + s);
      SameSplit(t, b, ws, s);
    }
  }

  /** The provenance parses to p exactly when it is what p is written as, within its limits. */
  lemma ProvenanceLaw(rest: seq<byte>, p: Provenance)
    ensures ProvenanceOf(rest) == Ok(p) <==> GoodProvenance(p) && rest == ProvenanceBytes(p)
  {
    hide ReadFields, Fields, FromLE, LE, Many, Concat, ProvenanceBytes;
    Widths();
    if ProvenanceOf(rest) == Ok(p) {
      var n := |p.watermarks|;
      var a, t, b := rest[..17], rest[17..17 + 8 * n], rest[17 + 8 * n..];
      ProvenancePartsRead(a, t, b, n, p);
      ProvenanceParts(a, t, b, p);
      assert rest == a + (t + b);
    }
    if GoodProvenance(p) && rest == ProvenanceBytes(p) {
      var n := |p.watermarks|;
      ProvenanceLength(p);
      var a, t, b := rest[..17], rest[17..17 + 8 * n], rest[17 + 8 * n..];
      assert rest == a + (t + b);
      ProvenanceParts(a, t, b, p);
      ProvenancePartsRead(a, t, b, n, p);
    }
  }

  lemma ProvenanceLength(p: Provenance)
    ensures |ProvenanceBytes(p)| == 21 + 8 * |p.watermarks| + |p.stats|
  {
    hide Fields, LE, Concat;
    BandTotal();
    FieldsLength([8, 8, 1], [p.builder, p.buildMS, |p.watermarks| % 0x100]);
    WordsLength(p.watermarks);
  }

  lemma ProvenancePartsRead(a: seq<byte>, t: seq<byte>, b: seq<byte>, n: nat, p: Provenance)
    requires |a| == 17 && |t| == 8 * n && |b| >= 4 && n == |p.watermarks| && |p.stats| < 0x1_0000_0000
    ensures ReadFields(Good(a), [8, 8, 1]).0 == [p.builder, p.buildMS, n]
       <==> n < 0x100 && a == Fields([8, 8, 1], [p.builder, p.buildMS, n])
    ensures Many(Good(t), n, ReadWord).0 == p.watermarks <==> t == Concat(p.watermarks, WordBytes)
    ensures FromLE(b[..4]) == |p.stats| <==> b[..4] == LE(4, |p.stats|)
  {
    hide ReadFields, Fields, FromLE, LE, Many, Concat;
    Widths();
    BandTotal();
    var fs, ws := [p.builder, p.buildMS, n], Concat(p.watermarks, WordBytes);
    ReadsAll(a, [8, 8, 1], []);
    FieldsLaw(a, [8, 8, 1], fs, []);
    assert a + [] == a && Fields([8, 8, 1], fs) + [] == Fields([8, 8, 1], fs) && ws + [] == ws;
    WordCodec();
    WordsAll(t, n);
    ManyLaw(t, n, p.watermarks, [], ReadWord, WordBytes, Always);
    LELaw(b[..4], 4, |p.stats|);
  }

  // ----- the footer -----

  lemma {:induction false} BandsLength(bs: seq<Band>)
    ensures |Concat(bs, BandBytes)| == 29 * |bs|
  {
    hide BandBytes;
    if bs != [] {
      BandLength(bs[0]);
      BandsLength(bs[1..]);
    }
  }

  lemma {:induction false} DenseCount(bs: seq<Band>, k: nat, next: nat, off: nat)
    requires k <= 9 && Dense(bs, k, next, off)
    ensures |bs| == 9 - k
    decreases |bs|
  {
    if bs != [] {
      DenseCount(bs[1..], k + 1, AlignUp(next + bs[0].len), off);
    }
  }

  lemma FooterCut(footer: seq<byte>, body: seq<byte>, sum: seq<byte>)
    requires |sum| == 4 && |footer| >= 4
    ensures footer == body + sum <==> footer[..|footer| - 4] == body && footer[|footer| - 4..] == sum
  {
    assert footer == footer[..|footer| - 4] + footer[|footer| - 4..];
    assert (body + sum)[..|body|] == body && (body + sum)[|body|..] == sum;
  }

  /** A footer parses exactly when it is the footer of nine bands that fill the file densely up to it. */
  lemma FooterLaw(footer: seq<byte>, off: nat, crc: Checksum, bs: seq<Band>, p: Provenance)
    requires 4096 <= off < 0x1_0000_0000_0000_0000 && off % 4096 == 0
    ensures FooterOf(footer, off, crc) == Ok((bs, p)) <==> GoodProvenance(p) && Dense(bs, 0, 4096, off) && footer == Footer(bs, p, crc)
  {
    hide FromLE, LE, BandsFrom, ProvenanceOf, Dense, ProvenanceBytes, Concat;
    Widths();
    if FooterOf(footer, off, crc) == Ok((bs, p)) {
      var body := footer[..|footer| - 4];
      var rest := BandsFrom(body[1..], 0, 4096, off).value.1;
      BandsLaw(body[1..], 0, 4096, off, bs, rest);
      ProvenanceLaw(rest, p);
      LELaw(footer[|footer| - 4..], 4, crc(body));
      assert body == [9] + body[1..];
      FooterCut(footer, body, LE(4, crc(body)));
    }
    if GoodProvenance(p) && Dense(bs, 0, 4096, off) && footer == Footer(bs, p, crc) {
      var body := FooterBody(bs, p);
      DenseCount(bs, 0, 4096, off);
      BandsLength(bs);
      ProvenanceLength(p);
      FooterCut(footer, body, LE(4, crc(body)));
      LELaw(footer[|footer| - 4..], 4, crc(body));
      assert body[1..] == Concat(bs, BandBytes) + ProvenanceBytes(p);
      BandsLaw(body[1..], 0, 4096, off, bs, ProvenanceBytes(p));
      ProvenanceLaw(ProvenanceBytes(p), p);
    }
  }

  // ----- the file -----

  lemma PageLength(h: FileHeader, crc: Checksum)
    ensures |HeaderPage(h, crc)| == 96
  {
    hide Fields, LE;
    FieldsLength(HEADER_SHAPE, HeaderFields(h));
    ExtensionLength();
  }

  lemma {:induction false} BandsAt(head: seq<byte>, ps: seq<seq<byte>>, k: nat, n: nat, crc: Checksum)
    requires k < n <= |ps| <= 9
    ensures BandsOf(head, ps, n, crc)[k] == BandOf(head, ps, k, crc)
  {
    hide BandOf;
    if k < n - 1 {
      BandsAt(head, ps, k, n - 1, crc);
    }
  }

  /** Whatever comes after it, a band stays where it was laid. */
  lemma {:induction false} BandStays(head: seq<byte>, ps: seq<seq<byte>>, k: nat, n: nat)
    requires k < n <= |ps|
    ensures var off := AlignUp(|Laid(head, ps, k)|);
            off + |ps[k]| <= |Laid(head, ps, n)| && Laid(head, ps, n)[off..off + |ps[k]|] == ps[k]
  {
    hide AlignUp;
    var off := AlignUp(|Laid(head, ps, k)|);
    var before := Padded(Laid(head, ps, n - 1));
    if k < n - 1 {
      BandStays(head, ps, k, n - 1);
      assert Laid(head, ps, n)[..|Laid(head, ps, n - 1)|] == Laid(head, ps, n - 1);
      SliceOfPrefix(Laid(head, ps, n), Laid(head, ps, n - 1), off, off + |ps[k]|);
    } else {
      assert |before| == off;
    }
  }

  lemma SliceOfPrefix<T>(s: seq<T>, t: seq<T>, i: nat, j: nat)
    requires |t| <= |s| && s[..|t|] == t && i <= j <= |t|
    ensures s[i..j] == t[i..j]
  {
    forall x | 0 <= x < j - i ensures s[i..j][x] == t[i..j][x] {
      assert s[i..j][x] == s[..|t|][i + x];
    }
  }

  lemma {:induction false} HeadStays(head: seq<byte>, ps: seq<seq<byte>>, n: nat)
    requires n <= |ps|
    ensures |head| <= |Laid(head, ps, n)| && Laid(head, ps, n)[..|head|] == head
  {
    hide AlignUp;
    if n > 0 {
      HeadStays(head, ps, n - 1);
      assert Laid(head, ps, n)[..|Laid(head, ps, n - 1)|] == Laid(head, ps, n - 1);
      SliceOfPrefix(Laid(head, ps, n), Laid(head, ps, n - 1), 0, |head|);
    }
  }

  /** From band k on, what was laid fills the file up to the end of the padding. */
  lemma {:induction false} LaidDense(head: seq<byte>, ps: seq<seq<byte>>, k: nat, crc: Checksum)
    requires k <= |ps| == 9
    ensures Dense(BandsOf(head, ps, 9, crc)[k..], k, AlignUp(|Laid(head, ps, k)|), AlignUp(|Laid(head, ps, 9)|))
    decreases 9 - k
  {
    hide AlignUp, BandsOf, Laid;
    var bs := BandsOf(head, ps, 9, crc);
    if k < 9 {
      LaidDense(head, ps, k + 1, crc);
      BandsAt(head, ps, k, 9, crc);
      BandStays(head, ps, k, 9);
      LaidLength(head, ps, k);
      assert bs[k..][0] == bs[k] && bs[k..][1..] == bs[k + 1..];
    }
  }

  lemma LaidLength(head: seq<byte>, ps: seq<seq<byte>>, k: nat)
    requires k < |ps|
    ensures |Laid(head, ps, k + 1)| == AlignUp(|Laid(head, ps, k)|) + |ps[k]|
  {
    hide AlignUp;
  }

  /** The ids are distinct, so looking for the id of band k passes all bands before it. */
  lemma {:induction false} FindsBand(data: seq<byte>, bs: seq<Band>, j: nat, k: nat, crc: Checksum)
    requires |bs| == 9 && j <= k < 9
    requires forall i :: 0 <= i < 9 ==> bs[i].id == BAND_ORDER[i]
    ensures ReadBandOf(data, bs[j..], BAND_ORDER[k], crc) == ReadBandOf(data, bs[k..], BAND_ORDER[k], crc)
    decreases k - j
  {
    if j < k {
      FindsBand(data, bs, j + 1, k, crc);
      OrderDistinct(j, k);
      assert bs[j..][0] == bs[j] && bs[j..][1..] == bs[j + 1..];
    }
  }

  lemma OrderDistinct(j: nat, k: nat)
    requires j < k < 9
    ensures BAND_ORDER[j] != BAND_ORDER[k]
  {
    var s := BAND_ORDER;
    assert s[0] == 0 && s[1] == 8 && s[2] == 1 && s[3] == 5 && s[4] == 7 && s[5] == 2 && s[6] == 3 && s[7] == 4 && s[8] == 6;
  }

  lemma FooterLength(bs: seq<Band>, p: Provenance, crc: Checksum)
    requires |bs| == 9 && GoodProvenance(p)
    ensures 287 <= |Footer(bs, p, crc)| < 0x1_0000_0000
  {
    hide LE, Concat, ProvenanceBytes;
    BandsLength(bs);
    ProvenanceLength(p);
  }

  /** Each band of a written file reads back, found by its id. */
  lemma BandReads(data: seq<byte>, head: seq<byte>, ps: seq<seq<byte>>, k: nat, crc: Checksum)
    requires |ps| == 9 && k < 9
    requires |Laid(head, ps, 9)| <= |data| && data[..|Laid(head, ps, 9)|] == Laid(head, ps, 9)
    ensures ReadBandOf(data, BandsOf(head, ps, 9, crc), BAND_ORDER[k], crc) == Ok(ps[k])
  {
    hide AlignUp, BandsOf, Laid;
    var bs := BandsOf(head, ps, 9, crc);
    forall i | 0 <= i < 9 ensures bs[i].id == BAND_ORDER[i] {
      BandsAt(head, ps, i, 9, crc);
    }
    FindsBand(data, bs, 0, k, crc);
    assert bs[0..] == bs && bs[k..][0] == bs[k];
    BandsAt(head, ps, k, 9, crc);
    BandStays(head, ps, k, 9);
    SliceOfPrefix(data, Laid(head, ps, 9), bs[k].off, bs[k].off + bs[k].len);
  }

  lemma FileParts(body: seq<byte>, f: seq<byte>, tail: seq<byte>)
    requires |tail| == 16
    ensures var data := body + f + tail;
            && data[..|body|] == body && data[|body|..|body| + |f|] == f && data[|data| - 16..] == tail
            && |data| == |body| + |f| + 16
  {
  }

  /** Padding does not touch what it pads, and the header page is the first 96 bytes of it. */
  lemma BodyParts(h: FileHeader, ps: seq<seq<byte>>, crc: Checksum)
    requires |ps| == 9
    ensures var laid := Laid(HeaderPage(h, crc), ps, 9);
            && 96 <= |laid| && laid[..96] == HeaderPage(h, crc) && Padded(laid)[..|laid|] == laid
            && 4096 <= |Padded(laid)| && |Padded(laid)| % 4096 == 0
  {
    hide HeaderPage, Laid;
    PageLength(h, crc);
    HeadStays(HeaderPage(h, crc), ps, 9);
  }

  /**
   * A written file opens: the same header, meta, fieldstats and provenance, the band index it was written with, dense
   * and aligned from the first boundary up to the footer, and every payload under its id.
   */
  lemma WrittenOpens(h: FileHeader, m: Meta, s: FieldStats, ps: seq<seq<byte>>, p: Provenance, crc: Checksum)
    requires |ps| == 9 && ps[0] == MetaBytes(m) && ps[1] == StatsBytes(s)
    requires GoodContents(h, m, s) && GoodProvenance(p) && |FileBytes(h, ps, p, crc)| < 0x8000_0000_0000_0000
    ensures var data, bands := FileBytes(h, ps, p, crc), BandsOf(HeaderPage(h, crc), ps, 9, crc);
            && OpenOf(data, crc) == Ok(Shard(h, p, bands, m, s))
            && Dense(bands, 0, 4096, |Padded(Laid(HeaderPage(h, crc), ps, 9))|)
            && forall k :: 0 <= k < 9 ==> ReadBandOf(data, bands, BAND_ORDER[k], crc) == Ok(ps[k])
  {
    hide HeaderPage, Laid, BandsOf, Footer, Tail, AlignUp, Padded, FromLE, FooterOf, ParseHeader, ReadBandOf, Dense,
      MetaBytes, StatsBytes, ParseMeta, ParseFieldStats, GoodMeta, GoodStats, Disagreement;
    MetaLaw(ps[0], m);
    StatsLaw(ps[1], s);
    var head := HeaderPage(h, crc);
    var laid, bands := Laid(head, ps, 9), BandsOf(head, ps, 9, crc);
    var body, f := Padded(laid), Footer(bands, p, crc);
    var data := FileBytes(h, ps, p, crc);
    BodyParts(h, ps, crc);
    FileParts(body, f, Tail(|body|, |f|, crc));
    FooterLength(bands, p, crc);
    TailReads(|body|, |f|, crc);
    StartsDense(h, ps, crc);
    FooterLaw(f, |body|, crc, bands, p);
    SliceOfPrefix(data, body, 0, 96);
    SliceOfPrefix(body, laid, 0, 96);
    HeaderLaw(data[..96], crc, h);
    assert data[..96][..96] == data[..96];
    assert data[..|laid|] == laid by {
      SliceOfPrefix(data, body, 0, |laid|);
    }
    forall k | 0 <= k < 9 ensures ReadBandOf(data, bands, BAND_ORDER[k], crc) == Ok(ps[k]) {
      BandReads(data, head, ps, k, crc);
    }
    assert BAND_ORDER[0] == 0 && BAND_ORDER[1] == 8;
  }

  lemma StartsDense(h: FileHeader, ps: seq<seq<byte>>, crc: Checksum)
    requires |ps| == 9
    ensures Dense(BandsOf(HeaderPage(h, crc), ps, 9, crc), 0, 4096, |Padded(Laid(HeaderPage(h, crc), ps, 9))|)
  {
    hide HeaderPage, BandsOf, Dense;
    var head := HeaderPage(h, crc);
    PageLength(h, crc);
    LaidDense(head, ps, 0, crc);
    assert Laid(head, ps, 0) == head && AlignUp(96) == 4096;
    assert BandsOf(head, ps, 9, crc)[0..] == BandsOf(head, ps, 9, crc);
  }
}
