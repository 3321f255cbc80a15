/** What any graph segment that opens and walks can yield, coldfmt/graphseg.go, whoever wrote it. */
module GraphSoundness {
  import opened Bytes
  import opened Format
  import opened GraphBlocks
  import opened GraphSegments
  import opened GraphReading

  /** Sources in order up to last and past `after`, each with destinations in order. */
  ghost predicate InOrder(ss: seq<Source>, after: Option<nat>, last: nat) {
    && (forall i :: 0 <= i < |ss| ==> ss[i].id <= last && Rising(ss[i].dsts) && (after.Some? ==> ss[i].id > after.value))
    && (forall i, j :: 0 <= i < j < |ss| ==> ss[i].id < ss[j].id)
  }

  /** Destinations past `after`. */
  ghost predicate RisesFrom(ds: seq<nat>, after: Option<nat>) {
    Rising(ds) && (after.Some? ==> forall i :: 0 <= i < |ds| ==> ds[i] > after.value)
  }

  lemma RisesMore(d: nat, ds: seq<nat>, after: Option<nat>)
    requires d <= MAX_NODE && RisesFrom(ds, Some(d)) && (after.Some? ==> d > after.value)
    ensures RisesFrom([d] + ds, after)
  {
    var all := [d] + ds;
    forall i | 0 < i < |all| ensures all[i] == ds[i - 1] && all[i] > d {
    }
  }

  lemma StepRises(prev: Option<nat>, v: nat)
    requires Step(prev, v).Some?
    ensures prev.Some? ==> Step(prev, v).value > prev.value
    ensures prev.None? ==> Step(prev, v).value == v
  {
  }

  lemma {:induction false} DstsRise(data: seq<byte>, n: nat, prev: Option<nat>)
    requires ReadDsts(data, n, prev).Ok?
    ensures RisesFrom(ReadDsts(data, n, prev).value.0, prev)
    decreases n
  {
    hide ReadUvarint, Step, RisesFrom;
    if n == 0 {
      NothingRises(prev);
    } else {
      var (v, k) := ReadUvarint(data).value;
      var d := Step(prev, v).value;
      StepRises(prev, v);
      DstsRise(data[k..], n - 1, Some(d));
      RisesMore(d, ReadDsts(data[k..], n - 1, Some(d)).value.0, prev);
    }
  }

  lemma NothingRises(prev: Option<nat>)
    ensures RisesFrom([], prev)
  {
  }

  lemma SourceSound(raw: seq<byte>, prev: Option<nat>, first: nat, before: Option<nat>, last: nat)
    requires ReadSource(raw, prev, first, before, last).Ok?
    ensures var src := ReadSource(raw, prev, first, before, last).value.0;
            && src.id <= last && Rising(src.dsts)
            && (if prev.Some? then src.id > prev.value else src.id == first && (before.Some? ==> src.id > before.value))
  {
    hide ReadUvarint, Step, ReadDsts;
    var (v, k) := ReadUvarint(raw).value;
    StepRises(prev, v);
    var rest := raw[k..];
    var (deg, m) := ReadUvarint(rest).value;
    DstsRise(rest[m..], deg, None);
  }

  lemma OrderMore(s: Source, ss: seq<Source>, after: Option<nat>, last: nat)
    requires s.id <= last && Rising(s.dsts) && (after.Some? ==> s.id > after.value) && InOrder(ss, Some(s.id), last)
    ensures InOrder([s] + ss, after, last)
  {
    hide Rising;
    var all := [s] + ss;
    forall i | 0 < i < |all| ensures all[i] == ss[i - 1] && all[i].id > s.id {
    }
  }

  /** What a block yields is in order behind what came before it, and starts where the index says. */
  lemma {:induction false} RawSound(raw: seq<byte>, prev: Option<nat>, first: nat, before: Option<nat>, last: nat)
    requires ReadRaw(raw, prev, first, before, last).Ok?
    ensures var ss := ReadRaw(raw, prev, first, before, last).value;
            && InOrder(ss, if prev.Some? then prev else before, last)
            && (prev.None? && ss != [] ==> ss[0].id == first)
    decreases |raw|
  {
    hide ReadSource, InOrder, Rising;
    if raw == [] {
      NothingInOrder(if prev.Some? then prev else before, last);
    } else {
      var (src, rest) := ReadSource(raw, prev, first, before, last).value;
      SourceSound(raw, prev, first, before, last);
      RawSound(rest, Some(src.id), first, before, last);
      OrderMore(src, ReadRaw(rest, Some(src.id), first, before, last).value, if prev.Some? then prev else before, last);
    }
  }

  lemma NothingInOrder(after: Option<nat>, last: nat)
    ensures InOrder([], after, last)
  {
  }

  lemma OrderJoins(a: seq<Source>, b: seq<Source>, before: Option<nat>, last: nat)
    requires InOrder(a, before, last) && InOrder(b, LastOf(a, before), last)
    ensures InOrder(a + b, before, last)
  {
    hide Rising;
    var all := a + b;
    forall j | |a| <= j < |all| ensures all[j] == b[j - |a|] && forall i :: 0 <= i < |a| ==> a[i].id < all[j].id {
      if a != [] {
        assert forall i :: 0 <= i < |a| - 1 ==> a[i].id < a[|a| - 1].id;
      }
    }
    assert a == [] ==> all == b;
    assert before.Some? && a != [] ==> a[|a| - 1].id > before.value;
  }

  ghost predicate AtLeast(ss: seq<Source>, lo: nat) {
    forall i :: 0 <= i < |ss| ==> ss[i].id >= lo
  }

  lemma {:induction false} RowsFrom(blocks: seq<BlockEntry>, first: nat, last: nat, i: nat)
    requires GoodIndex(blocks, first, last) && i < |blocks|
    ensures blocks[i].firstRow >= first
  {
    assert GoodRow(blocks, i, first, last);
    if i > 0 {
      RowsFrom(blocks, first, last, i - 1);
    }
  }

  lemma FromFirst(ss: seq<Source>, after: Option<nat>, last: nat, lo: nat)
    requires InOrder(ss, after, last) && (ss != [] ==> ss[0].id >= lo)
    ensures AtLeast(ss, lo)
  {
    hide Rising;
  }

  lemma {:induction false} WalkSoundFrom(s: Segment, bi: nat, before: Option<nat>, z: Zstd, crc: Checksum)
    requires bi <= |s.blocks| && GoodIndex(s.blocks, s.firstSrc, s.lastSrc) && WalkFrom(s, bi, before, z, crc).Ok?
    ensures InOrder(WalkFrom(s, bi, before, z, crc).value, before, s.lastSrc)
    ensures AtLeast(WalkFrom(s, bi, before, z, crc).value, s.firstSrc)
    decreases |s.blocks| - bi
  {
    hide BlockRaw, ReadRaw, InOrder, GoodIndex;
    if bi == |s.blocks| {
      NothingInOrder(before, s.lastSrc);
    } else {
      var raw := BlockRaw(s, s.blocks[bi], z, crc).value;
      var first := s.blocks[bi].firstRow;
      var ss := ReadRaw(raw, None, first, before, s.lastSrc).value;
      RawSound(raw, None, first, before, s.lastSrc);
      RowsFrom(s.blocks, s.firstSrc, s.lastSrc, bi);
      FromFirst(ss, before, s.lastSrc, s.firstSrc);
      WalkSoundFrom(s, bi + 1, LastOf(ss, before), z, crc);
      OrderJoins(ss, WalkFrom(s, bi + 1, LastOf(ss, before), z, crc).value, before, s.lastSrc);
    }
  }

  lemma OpenedIndex(data: seq<byte>, crc: Checksum)
    requires OpenOf(data, crc).Ok?
    ensures var s := OpenOf(data, crc).value; GoodIndex(s.blocks, s.firstSrc, s.lastSrc) && s.lastSrc <= MAX_NODE
  {
    hide FromLE, GoodIndex, Many, ReadEntry, ReadFields;
    Shape();
  }

  /**
   * Whoever wrote the file: when it opens and its walk succeeds, the sources are valid and in order, lie between the
   * footer's first and last source, and are as many, with as many destinations, as the footer says.
   */
  lemma WalkSound(data: seq<byte>, z: Zstd, crc: Checksum)
    requires OpenOf(data, crc).Ok? && WalkOf(OpenOf(data, crc).value, z, crc).Ok?
    ensures var s := OpenOf(data, crc).value;
            var ss := WalkOf(s, z, crc).value;
            && ValidSources(ss) && |ss| == s.nsrc && Edges(ss) == s.nedges
            && forall i :: 0 <= i < |ss| ==> s.firstSrc <= ss[i].id <= s.lastSrc
  {
    hide OpenOf, WalkFrom, Edges, Rising;
    var s := OpenOf(data, crc).value;
    OpenedIndex(data, crc);
    WalkSoundFrom(s, 0, None, z, crc);
  }
}
