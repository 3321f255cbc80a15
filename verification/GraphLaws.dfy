/** A sealed graph segment opens, and walking it yields the sources that were added, in order. */
module GraphLaws {
  import opened Bytes
  import opened Format
  import opened GraphBlocks
  import opened GraphSegments
  import opened GraphReading

  /** Sources cut into blocks under the raw cap, within the widths of the format's own fields. */
  ghost predicate Sealable(bs: seq<seq<Source>>, z: Zstd, crc: Checksum) {
    && Cut(bs) && Flat(bs) != [] && ValidSources(Flat(bs))
    && (forall i :: 0 <= i < |bs| ==> |RawBytes(bs[i], None)| <= 0x4000_0000)
    && 32 + |Area(bs, |bs|, z, crc)| < 0x8000_0000_0000_0000 && 25 * |bs| + 40 < 0x1_0000_0000
    && |Flat(bs)| < 0x1_0000_0000_0000_0000 && Edges(Flat(bs)) < 0x1_0000_0000_0000_0000
  }

  // ----- blocks and the flat list -----

  lemma {:induction false} FlatConcat(a: seq<seq<Source>>, b: seq<seq<Source>>)
    ensures Flat(a + b) == Flat(a) + Flat(b)
  {
    if b == [] {
      assert a + b == a && Flat(a) + [] == Flat(a);
    } else {
      assert (a + b)[..|a + b| - 1] == a + b[..|b| - 1];
      FlatConcat(a, b[..|b| - 1]);
      Assoc(Flat(a), Flat(b[..|b| - 1]), b[|b| - 1]);
    }
  }

  /** Block i stands in the flat list behind the blocks before it. */
  lemma FlatAt(bs: seq<seq<Source>>, i: nat)
    requires i < |bs|
    ensures var p := |Flat(bs[..i])|; p + |bs[i]| <= |Flat(bs)| && Flat(bs)[p..p + |bs[i]|] == bs[i]
    ensures |Flat(bs[..i + 1])| == |Flat(bs[..i])| + |bs[i]|
  {
    FlatParts(bs, i);
    hide Flat;
    StandsBehind(Flat(bs), Flat(bs[..i]), bs[i], Flat(bs[i + 1..]));
  }

  lemma FlatParts(bs: seq<seq<Source>>, i: nat)
    requires i < |bs|
    ensures Flat(bs) == Flat(bs[..i]) + (bs[i] + Flat(bs[i + 1..]))
    ensures Flat(bs[..i + 1]) == Flat(bs[..i]) + bs[i]
  {
    hide Flat;
    assert bs == bs[..i] + bs[i..] && bs[..i + 1] == bs[..i] + [bs[i]];
    FlatConcat(bs[..i], bs[i..]);
    FlatCons(bs, i);
    FlatConcat(bs[..i], [bs[i]]);
    FlatOne(bs[i]);
  }

  lemma StandsBehind<T>(all: seq<T>, front: seq<T>, mid: seq<T>, back: seq<T>)
    requires all == front + (mid + back)
    ensures |front| + |mid| <= |all| && all[|front|..|front| + |mid|] == mid
  {
  }

  lemma FlatOne(b: seq<Source>)
    ensures Flat([b]) == b
  {
    assert [b][..0] == [] && Flat([b]) == Flat([]) + b;
  }

  lemma FlatCons(bs: seq<seq<Source>>, k: nat)
    requires k < |bs|
    ensures Flat(bs[k..]) == bs[k] + Flat(bs[k + 1..])
  {
    assert bs[k..] == [bs[k]] + bs[k + 1..];
    FlatConcat([bs[k]], bs[k + 1..]);
    FlatOne(bs[k]);
  }

  /** Where the sources of block i stand in the flat list. */
  lemma Places(bs: seq<seq<Source>>, i: nat, b: seq<Source>, p: nat)
    requires i < |bs| && b == bs[i] && p == |Flat(bs[..i])|
    ensures p + |b| <= |Flat(bs)| && forall j :: 0 <= j < |b| ==> b[j] == Flat(bs)[p + j]
    ensures |Flat(bs[..i + 1])| == p + |b|
  {
    hide Flat;
    FlatAt(bs, i);
    var v := Flat(bs);
    forall j | 0 <= j < |b| ensures b[j] == v[p + j] {
      assert v[p..p + |b|][j] == v[p + j];
    }
  }

  lemma SlicesGood(v: seq<Source>, b: seq<Source>, p: nat, before: Option<nat>)
    requires ValidSources(v) && b != [] && p + |b| <= |v| && forall j :: 0 <= j < |b| ==> b[j] == v[p + j]
    requires before.Some? ==> p > 0 && before.value == v[p - 1].id
    ensures GoodBlock(b, None, b[0].id, before, v[|v| - 1].id) && v[0].id <= b[0].id
  {
    hide Rising;
    var last := v[|v| - 1].id;
    forall j | 0 <= j < |b| ensures b[j].id <= last <= MAX_NODE {
      assert p + j < |v| - 1 ==> v[p + j].id < last;
    }
    assert p > 0 ==> v[0].id < v[p].id && v[p - 1].id < v[p].id;
    assert b[0] == v[p];
  }

  /** A block of valid sources is valid, and lies between its neighbours. */
  lemma BlockGood(bs: seq<seq<Source>>, i: nat)
    requires Cut(bs) && Flat(bs) != [] && ValidSources(Flat(bs)) && i < |bs|
    ensures bs[i] != [] && (i > 0 ==> bs[i - 1] != [])
    ensures var before := if i == 0 then None else Some(bs[i - 1][|bs[i - 1]| - 1].id);
            GoodBlock(bs[i], None, bs[i][0].id, before, Flat(bs)[|Flat(bs)| - 1].id)
    ensures Flat(bs)[0].id <= bs[i][0].id && (i == 0 ==> bs[0][0] == Flat(bs)[0])
    ensures i > 0 ==> bs[i - 1][0].id < bs[i][0].id
  {
    hide Rising, Flat, GoodBlock;
    var v, b, p := Flat(bs), bs[i], |Flat(bs[..i])|;
    Places(bs, i, b, p);
    if i == 0 {
      assert bs[..0] == [];
      FlatNothing();
      SlicesGood(v, b, p, None);
    } else {
      var c, q := bs[i - 1], |Flat(bs[..i - 1])|;
      Places(bs, i - 1, c, q);
      SlicesGood(v, b, p, Some(c[|c| - 1].id));
      assert v[q].id < v[p].id;
    }
  }

  lemma FlatNothing()
    ensures Flat([]) == []
  {
  }

  // ----- the framed blocks -----

  lemma {:induction false} AreaGrows(bs: seq<seq<Source>>, m: nat, n: nat, z: Zstd, crc: Checksum)
    requires m < n <= |bs|
    ensures var a, f := Area(bs, n, z, crc), Framed(RawBytes(bs[m], None), z, crc);
            var off := |Area(bs, m, z, crc)|;
            off + |f| <= |a| && a[off..off + |f|] == f
    decreases n
  {
    hide Framed, RawBytes;
    if m < n - 1 {
      AreaGrows(bs, m, n - 1, z, crc);
    }
  }

  function EntryOf(bs: seq<seq<Source>>, n: nat, z: Zstd, crc: Checksum): BlockEntry
    requires Sealable(bs, z, crc) && Inverse(z) && n < |bs|
  {
    EntryFits(bs, n, z, crc);
    var f := EntryFields(bs, n, z, crc);
    BlockEntry(f[0], f[1], f[2], f[3], f[4])
  }

  lemma EntryFits(bs: seq<seq<Source>>, n: nat, z: Zstd, crc: Checksum)
    requires Sealable(bs, z, crc) && Inverse(z) && n < |bs|
    ensures bs[n] != []
    ensures var f := EntryFields(bs, n, z, crc);
            && |f| == 5 && f[0] < 0x1_0000_0000_0000_0000 && f[1] < 0x1_0000_0000 && f[2] < 0x1_0000_0000
            && f[3] < 0x100_0000_0000 && f[4] < 0x1_0000_0000 && f[3] == bs[n][0].id
    ensures InRange([8, 4, 4, 5, 4], EntryFields(bs, n, z, crc))
  {
    hide Flat, Edges, RawBytes, Payload, Framed, FrameCrc, ValidSources;
    Shape();
    AreaGrows(bs, n, |bs|, z, crc);
    FrameRoundTrip(RawBytes(bs[n], None), z, crc);
    FirstIsNode(bs, n);
  }

  lemma FirstIsNode(bs: seq<seq<Source>>, n: nat)
    requires Cut(bs) && ValidSources(Flat(bs)) && n < |bs|
    ensures bs[n] != [] && bs[n][0].id <= MAX_NODE
  {
    hide Rising, Flat;
    FlatAt(bs, n);
    var p := |Flat(bs[..n])|;
    assert bs[n][0] == Flat(bs)[p..p + |bs[n]|][0] == Flat(bs)[p];
  }

  function Index(bs: seq<seq<Source>>, z: Zstd, crc: Checksum): (es: seq<BlockEntry>)
    requires Sealable(bs, z, crc) && Inverse(z)
    ensures |es| == |bs| && forall i :: 0 <= i < |bs| ==> es[i] == EntryOf(bs, i, z, crc)
  {
    seq(|bs|, i requires 0 <= i < |bs| => EntryOf(bs, i, z, crc))
  }

  function SegmentOf(m: Meta, bs: seq<seq<Source>>, z: Zstd, crc: Checksum): Segment
    requires Sealable(bs, z, crc) && Inverse(z)
  {
    var v := Flat(bs);
    Segment(SegmentBytes(m, bs, z, crc), m, v[0].id, v[|v| - 1].id, |v|, Edges(v), Index(bs, z, crc))
  }

  // ----- opening -----

  function EntriesFrom(bs: seq<seq<Source>>, k: nat, z: Zstd, crc: Checksum): seq<byte>
    requires k <= |bs| && Cut(bs)
    decreases |bs| - k
  {
    if k == |bs| then [] else EntryBytes(bs, k, z, crc) + EntriesFrom(bs, k + 1, z, crc)
  }

  lemma {:induction false} EntriesSplit(bs: seq<seq<Source>>, k: nat, z: Zstd, crc: Checksum)
    requires k <= |bs| && Cut(bs)
    ensures Entries(bs, k, z, crc) + EntriesFrom(bs, k, z, crc) == Entries(bs, |bs|, z, crc)
    decreases |bs| - k
  {
    hide EntryBytes;
    if k == |bs| {
      assert Entries(bs, k, z, crc) + [] == Entries(bs, k, z, crc);
    } else {
      EntriesSplit(bs, k + 1, z, crc);
      Assoc(Entries(bs, k, z, crc), EntryBytes(bs, k, z, crc), EntriesFrom(bs, k + 1, z, crc));
    }
  }

  lemma {:induction false} EntriesRead(bs: seq<seq<Source>>, k: nat, z: Zstd, crc: Checksum)
    requires k <= |bs| && Sealable(bs, z, crc) && Inverse(z)
    ensures Many(Good(EntriesFrom(bs, k, z, crc)), |bs| - k, ReadEntry).0 == Index(bs, z, crc)[k..]
    decreases |bs| - k
  {
    hide Sealable, ReadFields, Fields, EntryFields, Inverse;
    if k < |bs| {
      SealableCut(bs, z, crc);
      EntryFits(bs, k, z, crc);
      var f := EntryFields(bs, k, z, crc);
      FieldsLaw(EntriesFrom(bs, k, z, crc), [8, 4, 4, 5, 4], f, EntriesFrom(bs, k + 1, z, crc));
      EntriesRead(bs, k + 1, z, crc);
      assert Index(bs, z, crc)[k..] == [EntryOf(bs, k, z, crc)] + Index(bs, z, crc)[k + 1..];
    }
  }

  lemma SealableCut(bs: seq<seq<Source>>, z: Zstd, crc: Checksum)
    requires Sealable(bs, z, crc)
    ensures Cut(bs) && Flat(bs) != [] && ValidSources(Flat(bs)) && bs != []
  {
  }

  lemma {:induction false} EntriesLength(bs: seq<seq<Source>>, n: nat, z: Zstd, crc: Checksum)
    requires n <= |bs| && Cut(bs)
    ensures |Entries(bs, n, z, crc)| == 25 * n
  {
    hide EntryFields, Fields;
    if n > 0 {
      EntriesLength(bs, n - 1, z, crc);
      FieldsLength5(EntryFields(bs, n - 1, z, crc));
    }
  }

  lemma FieldsLength5(vs: seq<nat>)
    requires |vs| == 5
    ensures |Fields([8, 4, 4, 5, 4], vs)| == 25
  {
    hide Fields;
    FieldsLength([8, 4, 4, 5, 4], vs);
    EntryTotal();
  }

  lemma HeadLength(vs: seq<nat>)
    requires |vs| == 7
    ensures |Fields([4, 2, 5, 5, 8, 8, 4], vs)| == 36
  {
    hide Fields;
    FieldsLength([4, 2, 5, 5, 8, 8, 4], vs);
    assert Total([]) == 0 && [4][1..] == [] && [8, 4][1..] == [4] && [8, 8, 4][1..] == [8, 4] && [5, 8, 8, 4][1..] == [8, 8, 4];
    assert [5, 5, 8, 8, 4][1..] == [5, 8, 8, 4] && [2, 5, 5, 8, 8, 4][1..] == [5, 5, 8, 8, 4];
    assert [4, 2, 5, 5, 8, 8, 4][1..] == [2, 5, 5, 8, 8, 4];
    assert Total([4]) == 4 && Total([8, 4]) == 12 && Total([8, 8, 4]) == 20 && Total([5, 8, 8, 4]) == 25;
    assert Total([5, 5, 8, 8, 4]) == 30 && Total([2, 5, 5, 8, 8, 4]) == 32;
  }

  lemma FooterSlices(h: seq<byte>, es: seq<byte>, t: seq<byte>)
    requires |h| == 36 && |t| == 4
    ensures var f := h + es + t;
            && |f| == 40 + |es| && f[..36] == h && f[36..|f| - 4] == es && f[|f| - 4..] == t && f[..|f| - 4] == h + es
  {
  }

  lemma LEReads(n: nat, v: nat)
    requires v < Pow(0x100, n)
    ensures FromLE(LE(n, v)) == v
  {
    NumDigits(0x100, n, v);
  }

  function HeadValues(m: Meta, bs: seq<seq<Source>>): (vs: seq<nat>)
    requires Flat(bs) != []
    ensures |vs| == 7
  {
    var v := Flat(bs);
    [m.generation, m.part, v[0].id, v[|v| - 1].id, |v|, Edges(v), |bs|]
  }

  lemma HeadFits(a: u32, b: nat, c: nat, d: nat, e: u64, f: u64, g: u32)
    requires b < 0x1_0000 && c <= MAX_NODE && d <= MAX_NODE
    ensures InRange([4, 2, 5, 5, 8, 8, 4], [a, b, c, d, e, f, g])
  {
    Shape();
    hide Pow;
  }

  lemma HeadReads(m: Meta, bs: seq<seq<Source>>, z: Zstd, crc: Checksum)
    requires Sealable(bs, z, crc) && Flat(bs) != []
    ensures ReadFields(Good(FooterHead(m, Flat(bs), |bs|)), [4, 2, 5, 5, 8, 8, 4]).0 == HeadValues(m, bs)
  {
    hide Sealable, ReadFields, Fields, Edges, Flat, ValidSources, InRange;
    SealableCut(bs, z, crc);
    SealableSizes(bs, z, crc);
    var v := Flat(bs);
    SourceCount(v);
    HeadFits(m.generation, m.part, v[0].id, v[|v| - 1].id, |v|, Edges(v), |bs|);
    var h := FooterHead(m, v, |bs|);
    assert h + [] == h;
    FieldsLaw(h, [4, 2, 5, 5, 8, 8, 4], HeadValues(m, bs), []);
  }

  lemma AllEntriesRead(bs: seq<seq<Source>>, z: Zstd, crc: Checksum)
    requires Sealable(bs, z, crc) && Inverse(z) && Cut(bs)
    ensures |Entries(bs, |bs|, z, crc)| == 25 * |bs|
    ensures Many(Good(Entries(bs, |bs|, z, crc)), |bs|, ReadEntry).0 == Index(bs, z, crc)
  {
    hide Sealable, Many, ReadEntry, Entries, EntriesFrom, Index, Inverse;
    EntriesLength(bs, |bs|, z, crc);
    EntriesRead(bs, 0, z, crc);
    EntriesSplit(bs, 0, z, crc);
    EntriesStart(bs, z, crc);
    assert Index(bs, z, crc)[0..] == Index(bs, z, crc);
  }

  /** A footer whose head and index read back as sound values opens as a segment with them. */
  lemma FooterFrom(data: seq<byte>, h: seq<byte>, es: seq<byte>, t: seq<byte>, m: Meta, vs: seq<nat>, blocks: seq<BlockEntry>)
    requires |h| == 36 && |t| == 4 && |vs| == 7 && vs[6] >= 1 && |es| == 25 * vs[6]
    requires vs[0] == m.generation && vs[1] == m.part && vs[2] <= vs[3] && 1 <= vs[4] <= vs[3] - vs[2] + 1
    requires ReadFields(Good(h), [4, 2, 5, 5, 8, 8, 4]).0 == vs
    requires Many(Good(es), vs[6], ReadEntry).0 == blocks && GoodIndex(blocks, vs[2], vs[3])
    ensures OpenFooter(data, h + es + t, m.writer) == Ok(Segment(data, m, vs[2], vs[3], vs[4], vs[5], blocks))
  {
    hide ReadFields, Many, ReadEntry, GoodIndex;
    Shape();
    FooterSlices(h, es, t);
  }

  lemma FooterCrc(h: seq<byte>, es: seq<byte>, crc: Checksum)
    requires |h| == 36
    ensures var f := h + es + LE(4, crc(h + es)); |f| == 40 + |es| && FromLE(f[|f| - 4..]) == crc(f[..|f| - 4])
  {
    hide LE, FromLE;
    FourBytes(crc(h + es));
    FooterSlices(h, es, LE(4, crc(h + es)));
  }

  /** The footer of a sealed segment opens with its counts and its block index. */
  lemma FooterOpens(data: seq<byte>, m: Meta, bs: seq<seq<Source>>, z: Zstd, crc: Checksum)
    requires Sealable(bs, z, crc) && Inverse(z)
    ensures Cut(bs) && Flat(bs) != []
    ensures var f := Footer(m, bs, z, crc);
            && |f| == 40 + 25 * |bs| && |bs| >= 1 && FromLE(f[|f| - 4..]) == crc(f[..|f| - 4])
            && OpenFooter(data, f, m.writer)
               == Ok(Segment(data, m, Flat(bs)[0].id, Flat(bs)[|Flat(bs)| - 1].id, |Flat(bs)|, Edges(Flat(bs)), Index(bs, z, crc)))
  {
    hide Sealable, ReadFields, Fields, Many, ReadEntry, ValidSources, Edges, Flat, Entries, GoodIndex, LE, FromLE, Index, Inverse,
      OpenFooter;
    SealableCut(bs, z, crc);
    var vs := HeadValues(m, bs);
    var h, es := FooterHead(m, Flat(bs), |bs|), Entries(bs, |bs|, z, crc);
    HeadLength(vs);
    AllEntriesRead(bs, z, crc);
    FooterCrc(h, es, crc);
    FourBytes(crc(h + es));
    SourceCount(Flat(bs));
    HeadReads(m, bs, z, crc);
    IndexGood(bs, z, crc);
    FooterFrom(data, h, es, LE(4, crc(h + es)), m, vs, Index(bs, z, crc));
  }

  lemma FourBytes(v: u32)
    ensures |LE(4, v)| == 4 && FromLE(LE(4, v)) == v
  {
    Widths();
    LEReads(4, v);
  }

  lemma EntriesStart(bs: seq<seq<Source>>, z: Zstd, crc: Checksum)
    requires Cut(bs)
    ensures Entries(bs, 0, z, crc) == [] && [] + EntriesFrom(bs, 0, z, crc) == EntriesFrom(bs, 0, z, crc)
  {
  }

  lemma SealableSizes(bs: seq<seq<Source>>, z: Zstd, crc: Checksum)
    requires Sealable(bs, z, crc)
    ensures |Flat(bs)| < 0x1_0000_0000_0000_0000 && Edges(Flat(bs)) < 0x1_0000_0000_0000_0000 && |bs| < 0x1_0000_0000
    ensures 32 + |Area(bs, |bs|, z, crc)| < 0x8000_0000_0000_0000 && 25 * |bs| + 40 < 0x1_0000_0000
    ensures forall i :: 0 <= i < |bs| ==> |RawBytes(bs[i], None)| <= 0x4000_0000
  {
    hide Flat, Edges, RawBytes, Area, Cut, ValidSources;
  }

  /** Strictly increasing ids leave room for themselves. */
  lemma {:induction false} SourceCount(v: seq<Source>)
    requires ValidSources(v) && v != []
    ensures v[0].id <= v[|v| - 1].id <= MAX_NODE && |v| <= v[|v| - 1].id - v[0].id + 1
  {
    hide Rising;
    if |v| > 1 {
      var init := v[..|v| - 1];
      assert forall i :: 0 <= i < |init| ==> init[i] == v[i];
      SourceCount(init);
      assert v[|v| - 2].id < v[|v| - 1].id;
    }
  }

  lemma IndexGood(bs: seq<seq<Source>>, z: Zstd, crc: Checksum)
    requires Sealable(bs, z, crc) && Inverse(z) && Flat(bs) != []
    ensures GoodIndex(Index(bs, z, crc), Flat(bs)[0].id, Flat(bs)[|Flat(bs)| - 1].id)
  {
    hide Sealable, Flat, ValidSources, EntryFields, Inverse;
    SealableCut(bs, z, crc);
    var es := Index(bs, z, crc);
    var first, last := Flat(bs)[0].id, Flat(bs)[|Flat(bs)| - 1].id;
    forall i | 0 <= i < |es| ensures GoodRow(es, i, first, last) {
      EntryFits(bs, i, z, crc);
      if i > 0 {
        EntryFits(bs, i - 1, z, crc);
      }
      BlockGood(bs, i);
    }
  }

  lemma FileSlices(h: seq<byte>, a: seq<byte>, f: seq<byte>, t: seq<byte>)
    requires |h| == 32 && |t| == 16
    ensures var d := h + a + f + t;
            && |d| == 48 + |a| + |f| && d[..32] == h && d[32..32 + |a|] == a && d[|d| - 16..] == t
            && d[|h + a|..|d| - 16] == f && |h + a| == 32 + |a|
  {
  }

  lemma HeaderReads(writer: u64, crc: Checksum)
    ensures var h := Header(writer, crc);
            && h[..16] == MAGIC && FromLE(h[16..18]) == FORMAT_GRAPH && FromLE(h[18..20]) == 1
            && FromLE(h[20..24]) == crc(h[..20]) && FromLE(h[24..32]) == writer
  {
    hide LE;
    Shape();
    var p := Preamble(FORMAT_GRAPH);
    var h := Header(writer, crc);
    assert h[..20] == p && h[20..24] == LE(4, crc(p)) && h[24..32] == LE(8, writer);
    assert h[..16] == p[..16] == MAGIC && h[16..18] == p[16..18] == LE(2, FORMAT_GRAPH) && h[18..20] == p[18..20] == LE(2, 1);
    LEReads(2, FORMAT_GRAPH);
    LEReads(2, 1);
    LEReads(4, crc(p));
    LEReads(8, writer);
  }

  lemma SameSlices(d: seq<byte>, h: seq<byte>)
    requires |h| == 32 && |d| >= 32 && d[..32] == h
    ensures d[..16] == h[..16] && d[16..18] == h[16..18] && d[18..20] == h[18..20] && d[20..24] == h[20..24]
    ensures d[..20] == h[..20] && d[24..32] == h[24..32]
  {
    assert forall i :: 0 <= i < 32 ==> d[i] == d[..32][i] == h[i];
  }

  /** What Seal wrote opens. */
  lemma SealedOpens(m: Meta, bs: seq<seq<Source>>, z: Zstd, crc: Checksum)
    requires Sealable(bs, z, crc) && Inverse(z)
    ensures Cut(bs) && Flat(bs) != [] && OpenOf(SegmentBytes(m, bs, z, crc), crc) == Ok(SegmentOf(m, bs, z, crc))
  {
    hide Sealable, Header, Area, Footer, Tail, OpenFooter, Flat, Edges, Index, Inverse, FromLE, RawBytes;
    SealableCut(bs, z, crc);
    SealableSizes(bs, z, crc);
    var h, a, f := Header(m.writer, crc), Area(bs, |bs|, z, crc), Footer(m, bs, z, crc);
    var data := SegmentBytes(m, bs, z, crc);
    FooterOpens(data, m, bs, z, crc);
    var t := Tail(|h + a|, |f|, crc);
    FileSlices(h, a, f, t);
    HeaderReads(m.writer, crc);
    SameSlices(data, h);
    TailReads(|h + a|, |f|, crc);
  }

  // ----- walking -----

  /** Every indexed block comes back as its raw bytes. */
  lemma BlockReads(m: Meta, bs: seq<seq<Source>>, z: Zstd, crc: Checksum, i: nat)
    requires Sealable(bs, z, crc) && Inverse(z) && i < |bs|
    ensures BlockRaw(SegmentOf(m, bs, z, crc), Index(bs, z, crc)[i], z, crc) == Ok(RawBytes(bs[i], None))
  {
    hide Sealable, Header, Area, Footer, Tail, Flat, Edges, RawBytes, Framed, Deframed, Payload, FrameCrc, Inverse, OpenFooter,
      FromLE;
    SealableCut(bs, z, crc);
    SealableSizes(bs, z, crc);
    FooterOpens([], m, bs, z, crc);
    var raw := RawBytes(bs[i], None);
    EntryFits(bs, i, z, crc);
    FrameRoundTrip(raw, z, crc);
    AreaGrows(bs, i, |bs|, z, crc);
    var h, a, f := Header(m.writer, crc), Area(bs, |bs|, z, crc), Footer(m, bs, z, crc);
    FileSlices(h, a, f, Tail(|h + a|, |f|, crc));
    var data := SegmentBytes(m, bs, z, crc);
    var off, n := |Area(bs, i, z, crc)|, |Framed(raw, z, crc)|;
    assert data[32 + off..32 + off + n] == data[32..32 + |a|][off..off + n] == Framed(raw, z, crc);
  }

  lemma {:induction false} WalkReads(m: Meta, bs: seq<seq<Source>>, z: Zstd, crc: Checksum, k: nat)
    requires Sealable(bs, z, crc) && Inverse(z) && k <= |bs| && Cut(bs)
    ensures WalkFrom(SegmentOf(m, bs, z, crc), k, if k == 0 then None else Some(bs[k - 1][|bs[k - 1]| - 1].id), z, crc)
         == Ok(Flat(bs[k..]))
    decreases |bs| - k
  {
    hide Sealable, Flat, Edges, RawBytes, BlockRaw, ReadRaw, SegmentBytes, ValidSources, EntryFields, Inverse, GoodBlock;
    if k == |bs| {
      assert bs[k..] == [];
      FlatNothing();
    } else {
      SealableCut(bs, z, crc);
      BlockReads(m, bs, z, crc, k);
      EntryFits(bs, k, z, crc);
      BlockGood(bs, k);
      var before := if k == 0 then None else Some(bs[k - 1][|bs[k - 1]| - 1].id);
      RawRead(bs[k], None, bs[k][0].id, before, Flat(bs)[|Flat(bs)| - 1].id);
      WalkReads(m, bs, z, crc, k + 1);
      FlatCons(bs, k);
    }
  }

  /**
   * For every sequence of accepted sources, every block target, and every codec whose decoding inverts its encoding: the
   * sealed bytes open, and the walk yields exactly the sources and destinations that were added, in order.
   */
  lemma SealedWalks(m: Meta, bs: seq<seq<Source>>, z: Zstd, crc: Checksum)
    requires Sealable(bs, z, crc) && Inverse(z)
    ensures Cut(bs) && Flat(bs) != []
    ensures var r := OpenOf(SegmentBytes(m, bs, z, crc), crc); r.Ok? && WalkOf(r.value, z, crc) == Ok(Flat(bs))
  {
    hide Sealable, Flat, Edges, OpenOf, SegmentBytes, WalkFrom, Inverse, Cut;
    SealedOpens(m, bs, z, crc);
    WalkReads(m, bs, z, crc, 0);
    assert bs[0..] == bs;
  }

  // ----- a block index that points past the end -----

  /** Every block starts at least 16 bytes before the end of the file, or past it: then no walk slices past the end. */
  lemma {:induction false} WalkStaysInside(s: Segment, bi: nat, before: Option<nat>, z: Zstd, crc: Checksum)
    requires bi <= |s.blocks| && |s.data| < 0x8000_0000_0000_0000
    requires forall i :: 0 <= i < |s.blocks| ==> !(s.blocks[i].offset <= |s.data| < s.blocks[i].offset + 16)
    ensures WalkFrom(s, bi, before, z, crc) != Err(PastEnd)
    decreases |s.blocks| - bi
  {
    hide BlockRaw, ReadRaw;
    if bi < |s.blocks| {
      ExtentExact(s, s.blocks[bi], z, crc);
      var raw := BlockRaw(s, s.blocks[bi], z, crc);
      if raw.Ok? {
        var ss := ReadRaw(raw.value, None, s.blocks[bi].firstRow, before, s.lastSrc);
        NeverPastEnd(raw.value, None, s.blocks[bi].firstRow, before, s.lastSrc);
        if ss.Ok? {
          WalkStaysInside(s, bi + 1, LastOf(ss.value, before), z, crc);
        }
      }
    }
  }

  lemma {:induction false} NeverPastEnd(raw: seq<byte>, prev: Option<nat>, first: nat, before: Option<nat>, last: nat)
    ensures ReadRaw(raw, prev, first, before, last) != Err(PastEnd)
    decreases |raw|
  {
    hide ReadSource;
    if raw != [] {
      SourceNotPastEnd(raw, prev, first, before, last);
      var s := ReadSource(raw, prev, first, before, last);
      if s.Ok? {
        NeverPastEnd(s.value.1, Some(s.value.0.id), first, before, last);
      }
    }
  }

  lemma {:induction false} DstsNotPastEnd(data: seq<byte>, n: nat, prev: Option<nat>)
    ensures ReadDsts(data, n, prev) != Err(PastEnd)
    decreases n
  {
    hide ReadUvarint, Step;
    if n > 0 {
      var u := ReadUvarint(data);
      if u.Ok? {
        DstsNotPastEnd(data[u.value.1..], n - 1, Step(prev, u.value.0));
      }
    }
  }

  lemma SourceNotPastEnd(raw: seq<byte>, prev: Option<nat>, first: nat, before: Option<nat>, last: nat)
    ensures ReadSource(raw, prev, first, before, last) != Err(PastEnd)
  {
    hide ReadUvarint, Step, ReadDsts;
    var u := ReadUvarint(raw);
    if u.Ok? {
      var rest := raw[u.value.1..];
      var w := ReadUvarint(rest);
      if w.Ok? {
        DstsNotPastEnd(rest[w.value.1..], w.value.0, None);
      }
    }
  }

  /** A footer with one source, in one block at the very end of its file. */
  function StrayFooter(crc: Checksum): seq<byte> {
    var f := Fields([4, 2, 5, 5, 8, 8, 4], [0, 0, 0, 0, 1, 0, 1]) + Fields([8, 4, 4, 5, 4], [113, 0, 0, 0, 0]);
    f + LE(4, crc(f))
  }

  function StrayFile(crc: Checksum): seq<byte> {
    Header(0, crc) + StrayFooter(crc) + Tail(32, 65, crc)
  }

  /** A file that opens and whose walk slices past its end. */
  lemma StrayWalk(z: Zstd, crc: Checksum)
    ensures |StrayFile(crc)| == 113
    ensures var r := OpenOf(StrayFile(crc), crc); r.Ok? && WalkOf(r.value, z, crc) == Err(PastEnd)
  {
    hide Header, Tail, OpenFooter, BlockRaw, Fields, LE, FromLE;
    var f, t, h := StrayFooter(crc), Tail(32, 65, crc), Header(0, crc);
    var data := StrayFile(crc);
    StrayFooterOpens(data, crc);
    FileSlices(h, [], f, t);
    assert h + [] == h;
    HeaderReads(0, crc);
    SameSlices(data, h);
    TailReads(32, 65, crc);
    var s := Segment(data, Meta(0, 0, 0), 0, 0, 1, 0, [BlockEntry(113, 0, 0, 0, 0)]);
    assert OpenOf(data, crc) == Ok(s);
    ExtentExact(s, s.blocks[0], z, crc);
    assert WalkFrom(s, 0, None, z, crc) == Err(PastEnd);
  }

  lemma StrayFooterOpens(data: seq<byte>, crc: Checksum)
    ensures var f := StrayFooter(crc);
            && |f| == 65 && FromLE(f[|f| - 4..]) == crc(f[..|f| - 4])
            && OpenFooter(data, f, 0) == Ok(Segment(data, Meta(0, 0, 0), 0, 0, 1, 0, [BlockEntry(113, 0, 0, 0, 0)]))
  {
    hide ReadFields, Fields, LE, FromLE;
    Shape();
    var vs, es := [0, 0, 0, 0, 1, 0, 1], [113, 0, 0, 0, 0];
    var h, e := Fields([4, 2, 5, 5, 8, 8, 4], vs), Fields([8, 4, 4, 5, 4], es);
    HeadLength(vs);
    FieldsLength5(es);
    FooterSlices(h, e, LE(4, crc(h + e)));
    LEReads(4, crc(h + e));
    assert h + [] == h && e + [] == e;
    FieldsLaw(h, [4, 2, 5, 5, 8, 8, 4], vs, []);
    FieldsLaw(e, [8, 4, 4, 5, 4], es, []);
    var b := BlockEntry(113, 0, 0, 0, 0);
    assert ReadEntry(Good(e)) == (b, Good([]));
    assert Many(Good([]), 0, ReadEntry) == ([], Good([]));
    assert Many(Good(e), 1, ReadEntry).0 == [b];
  }
}
