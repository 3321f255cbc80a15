/** The graph segment of coldfmt/graphseg.go: blocks, footer and tail, opened and walked. */
module GraphSegments {
  import opened Bytes
  import opened Records
  import opened Format
  import opened GraphBlocks

  const FORMAT_GRAPH: u16 := 0x7A07

  datatype Meta = Meta(generation: u32, part: u16, writer: u64)

  datatype BlockEntry = BlockEntry(offset: u64, storedLen: u32, rawLen: u32, firstRow: nat, crc: u32)

  datatype Segment = Segment(data: seq<byte>, meta: Meta, firstSrc: nat, lastSrc: nat, nsrc: nat, nedges: nat,
                             blocks: seq<BlockEntry>)

  // ----- what Seal writes, for sources cut into blocks -----

  function Flat(bs: seq<seq<Source>>): seq<Source> {
    if bs == [] then [] else Flat(bs[..|bs| - 1]) + bs[|bs| - 1]
  }

  function Edges(v: seq<Source>): nat {
    if v == [] then 0 else Edges(v[..|v| - 1]) + |v[|v| - 1].dsts|
  }

  /** The first n framed blocks. */
  function Area(bs: seq<seq<Source>>, n: nat, z: Zstd, crc: Checksum): seq<byte>
    requires n <= |bs|
  {
    if n == 0 then [] else Area(bs, n - 1, z, crc) + Framed(RawBytes(bs[n - 1], None), z, crc)
  }

  function FrameCrc(raw: seq<byte>, z: Zstd, crc: Checksum): u32 {
    var (comp, payload) := Payload(raw, z);
    crc(FrameHead(|raw|, comp, payload) + payload)
  }

  function EntryFields(bs: seq<seq<Source>>, n: nat, z: Zstd, crc: Checksum): (f: seq<nat>)
    requires n < |bs| && bs[n] != []
    ensures |f| == 5
  {
    var raw := RawBytes(bs[n], None);
    [32 + |Area(bs, n, z, crc)|, |Payload(raw, z).1|, |raw|, bs[n][0].id, FrameCrc(raw, z, crc)]
  }

  function EntryBytes(bs: seq<seq<Source>>, n: nat, z: Zstd, crc: Checksum): seq<byte>
    requires n < |bs| && bs[n] != []
  {
    Fields([8, 4, 4, 5, 4], EntryFields(bs, n, z, crc))
  }

  ghost predicate Cut(bs: seq<seq<Source>>) {
    forall i :: 0 <= i < |bs| ==> bs[i] != []
  }

  function Entries(bs: seq<seq<Source>>, n: nat, z: Zstd, crc: Checksum): seq<byte>
    requires n <= |bs| && Cut(bs)
  {
    if n == 0 then [] else Entries(bs, n - 1, z, crc) + EntryBytes(bs, n - 1, z, crc)
  }

  function FooterHead(m: Meta, v: seq<Source>, nblocks: nat): seq<byte>
    requires v != []
  {
    Fields([4, 2, 5, 5, 8, 8, 4], [m.generation, m.part, v[0].id, v[|v| - 1].id, |v|, Edges(v), nblocks])
  }

  function Footer(m: Meta, bs: seq<seq<Source>>, z: Zstd, crc: Checksum): seq<byte>
    requires Cut(bs) && Flat(bs) != []
  {
    var f := FooterHead(m, Flat(bs), |bs|) + Entries(bs, |bs|, z, crc);
    f + LE(4, crc(f))
  }

  function Header(writer: u64, crc: Checksum): (h: seq<byte>)
    ensures |h| == 32
  {
    Preamble(FORMAT_GRAPH) + LE(4, crc(Preamble(FORMAT_GRAPH))) + LE(8, writer)
  }

  function SegmentBytes(m: Meta, bs: seq<seq<Source>>, z: Zstd, crc: Checksum): seq<byte>
    requires Cut(bs) && Flat(bs) != []
  {
    var body := Header(m.writer, crc) + Area(bs, |bs|, z, crc);
    var f := Footer(m, bs, z, crc);
    body + f + Tail(|body|, |f|, crc)
  }

  // ----- the writer -----

  function Paired(srcs: seq<nat>, dsts: seq<seq<nat>>): (v: seq<Source>)
    requires |srcs| == |dsts|
    ensures |v| == |srcs| && forall i :: 0 <= i < |v| ==> v[i] == Source(srcs[i], dsts[i])
  {
    seq(|srcs|, i requires 0 <= i < |srcs| => Source(srcs[i], dsts[i]))
  }

  const BLOCK_RAW_TARGET: int := 0x100_0000

  /** A target of zero stands for the default. */
  function Effective(target: int): int {
    if target == 0 then BLOCK_RAW_TARGET else target
  }

  class GraphSegmentWriter {
    const meta: Meta
    const target: int
    var srcs: seq<nat>
    var dsts: seq<seq<nat>>
    var nedges: nat

    function Sources(): (v: seq<Source>)
      reads this
      requires |srcs| == |dsts|
    {
      Paired(srcs, dsts)
    }

    ghost predicate Valid()
      reads this
    {
      |srcs| == |dsts| && ValidSources(Sources()) && nedges == Edges(Sources())
    }

    constructor (meta: Meta, target: int)
      ensures Valid() && Sources() == [] && this.meta == meta && this.target == target
    {
      this.meta, this.target, srcs, dsts, nedges := meta, target, [], [], 0;
    }

    /** Takes exactly what keeps the sources valid. */
    method Add(src: nat, ds: seq<nat>) returns (bad: Option<GraphError>)
      requires Valid()
      modifies this
      ensures Valid()
      ensures bad == None <==> ValidSources(old(Sources()) + [Source(src, ds)])
      ensures Sources() == if bad == None then old(Sources()) + [Source(src, ds)] else old(Sources())
    {
      hide ValidSources, Rising, Edges;
      ghost var v, s := Sources(), Source(src, ds);
      Refused(v, s);
      if src > MAX_NODE {
        return Some(TooLarge);
      }
      if |srcs| > 0 && src <= srcs[|srcs| - 1] {
        return Some(OutOfOrder);
      }
      var ok := CheckRising(ds);
      if !ok {
        return Some(OutOfOrder);
      }
      Grown(v, s);
      srcs := srcs + [src];
      dsts := dsts + [ds];
      nedges := nedges + |ds|;
      assert Sources() == v + [s];
      return None;
    }

    /** Cuts the sources into blocks that close at the target, and writes the segment; an empty one is refused. */
    method Seal(z: Zstd, crc: Checksum) returns (r: Result<seq<byte>, GraphError>)
      requires Valid()
      ensures r.Err? <==> Sources() == []
      ensures r.Ok? ==> exists bs :: CutOf(bs, Sources(), Effective(target)) && r.value == SegmentBytes(meta, bs, z, crc)
    {
      hide ValidSources, Header, Area, Entries, Edges, Tail;
      if |srcs| == 0 {
        return Err(EmptySegment);
      }
      var v := Sources();
      var out, index, nblocks := Blocks(v, Effective(target), Header(meta.writer, crc), z, crc);
      ghost var bs :| CutOf(bs, v, Effective(target)) && BlocksWritten(bs, Header(meta.writer, crc), out, index, nblocks, z, crc);
      var f := FooterHead(meta, v, nblocks) + index;
      f := f + LE(4, crc(f));
      var data := out + f + Tail(|out|, |f|, crc);
      assert CutOf(bs, v, Effective(target)) && data == SegmentBytes(meta, bs, z, crc);
      return Ok(data);
    }
  }

  /** Only its last source can take a block to the target. */
  ghost predicate Tight(b: seq<Source>, target: int) {
    b != [] && (|b| == 1 || |RawBytes(b[..|b| - 1], None)| < target)
  }

  ghost predicate AllTight(bs: seq<seq<Source>>, target: int) {
    forall i :: 0 <= i < |bs| ==> Tight(bs[i], target)
  }

  /** v in consecutive blocks, each closed by the source that takes it to the target, the last one by the end. */
  ghost predicate CutOf(bs: seq<seq<Source>>, v: seq<Source>, target: int) {
    && Cut(bs) && Flat(bs) == v && v != [] && AllTight(bs, target)
    && forall i :: 0 <= i < |bs| - 1 ==> |RawBytes(bs[i], None)| >= target
  }

  method CheckRising(ds: seq<nat>) returns (ok: bool)
    ensures ok <==> Rising(ds)
  {
    for i := 0 to |ds|
      invariant Rising(ds[..i])
    {
      if ds[i] > MAX_NODE {
        return false;
      }
      if i > 0 && ds[i] <= ds[i - 1] {
        return false;
      }
      RisingGrows(ds, i);
    }
    assert ds[..|ds|] == ds;
    return true;
  }

  lemma RisingGrows(ds: seq<nat>, i: nat)
    requires i < |ds| && Rising(ds[..i]) && ds[i] <= MAX_NODE && (i > 0 ==> ds[i] > ds[i - 1])
    ensures Rising(ds[..i + 1])
  {
    var a, b := ds[..i], ds[..i + 1];
    assert forall j :: 0 <= j < i ==> b[j] == a[j];
    if i > 0 {
      forall j | 0 <= j < i ensures b[j] < b[i] {
        assert j < i - 1 ==> a[j] < a[i - 1];
      }
    }
  }

  /** A source too large, out of order or with destinations that do not rise would spoil the list. */
  lemma Refused(v: seq<Source>, s: Source)
    ensures s.id > MAX_NODE || (v != [] && s.id <= v[|v| - 1].id) || !Rising(s.dsts) ==> !ValidSources(v + [s])
  {
    hide Rising;
    var w := v + [s];
    assert w[|v|] == s && (v != [] ==> w[|v| - 1] == v[|v| - 1]);
  }

  lemma Grown(v: seq<Source>, s: Source)
    requires ValidSources(v) && s.id <= MAX_NODE && Rising(s.dsts) && (v != [] ==> v[|v| - 1].id < s.id)
    ensures ValidSources(v + [s]) && Edges(v + [s]) == Edges(v) + |s.dsts|
  {
    hide Rising, Edges;
    EdgesGrow(v, s);
    var w := v + [s];
    forall i | 0 <= i < |v| ensures w[i].id < s.id {
      assert i < |v| - 1 ==> v[i].id < v[|v| - 1].id;
    }
  }

  lemma EdgesGrow(v: seq<Source>, s: Source)
    ensures Edges(v + [s]) == Edges(v) + |s.dsts|
  {
    assert (v + [s])[..|v|] == v;
  }

  /** The loop of Seal: a delta chain runs inside a block and starts over in the next. */
  method Blocks(v: seq<Source>, target: int, head: seq<byte>, z: Zstd, crc: Checksum)
    returns (out: seq<byte>, index: seq<byte>, nblocks: nat)
    requires v != [] && |head| == 32
    ensures exists bs :: CutOf(bs, v, target) && BlocksWritten(bs, head, out, index, nblocks, z, crc)
  {
    hide SourceBytes, EntryBytes, Framed, RawBytes, Area, Entries, Flat, Cut, Fields, Tight, AllTight;
    NothingYet(head, z, crc);
    out, index, nblocks := head, [], 0;
    ghost var bs: seq<seq<Source>> := [];
    ghost var cur: seq<Source> := [];
    var buf: seq<byte> := [];
    var firstSrc := v[0].id;
    for i := 0 to |v|
      invariant Cut(bs) && Flat(bs) + cur == v[..i] && nblocks == |bs|
      invariant buf == RawBytes(cur, None) && (cur == [] ==> i < |v| && firstSrc == v[i].id)
      invariant cur != [] ==> firstSrc == cur[0].id && i > 0 && cur[|cur| - 1] == v[i - 1] && buf != []
      invariant out == head + Area(bs, |bs|, z, crc) && index == Entries(bs, |bs|, z, crc)
      invariant forall j :: 0 <= j < |bs| ==> |RawBytes(bs[j], None)| >= target
      invariant AllTight(bs, target) && (cur != [] ==> Tight(cur, target)) && (cur != [] && i < |v| ==> |buf| < target)
    {
      TightGrows(cur, v[i], target);
      assert v[..i + 1] == v[..i] + [v[i]];
      RawGrows(cur, v[i], None);
      var prev := if |buf| == 0 then None else Some(v[i - 1].id);
      SourceNotEmpty(v[i], prev);
      buf := buf + SourceBytes(v[i], prev);
      cur := cur + [v[i]];
      if |buf| >= target && i + 1 < |v| {
        FlushGrows(bs, cur, z, crc);
        AllTightGrows(bs, cur, target);
        out, index, nblocks := Flush(out, index, nblocks, buf, firstSrc, bs, cur, head, z, crc);
        bs, cur, buf, firstSrc := bs + [cur], [], [], v[i + 1].id;
      }
    }
    assert v[..|v|] == v;
    FlushGrows(bs, cur, z, crc);
    AllTightGrows(bs, cur, target);
    out, index, nblocks := Flush(out, index, nblocks, buf, firstSrc, bs, cur, head, z, crc);
    bs := bs + [cur];
    assert CutOf(bs, v, target) && BlocksWritten(bs, head, out, index, nblocks, z, crc);
  }

  /** The header with these blocks behind it, and their index. */
  ghost predicate BlocksWritten(bs: seq<seq<Source>>, head: seq<byte>, out: seq<byte>, index: seq<byte>, nblocks: nat, z: Zstd,
                                crc: Checksum) {
    && Cut(bs) && nblocks == |bs| && out == head + Area(bs, |bs|, z, crc) && index == Entries(bs, |bs|, z, crc)
  }

  lemma TightGrows(cur: seq<Source>, s: Source, target: int)
    requires cur != [] ==> |RawBytes(cur, None)| < target
    ensures Tight(cur + [s], target)
  {
    hide RawBytes;
    assert (cur + [s])[..|cur + [s]| - 1] == cur;
  }

  lemma AllTightGrows(bs: seq<seq<Source>>, cur: seq<Source>, target: int)
    requires AllTight(bs, target) && Tight(cur, target)
    ensures AllTight(bs + [cur], target)
  {
    hide Tight;
  }

  lemma NothingYet(head: seq<byte>, z: Zstd, crc: Checksum)
    ensures forall target: int :: AllTight([], target)
    ensures Cut([]) && Flat([]) == [] && RawBytes([], None) == [] && Entries([], 0, z, crc) == []
    ensures head + Area([], 0, z, crc) == head
  {
  }

  lemma {:induction false} RawGrows(b: seq<Source>, s: Source, prev: Option<nat>)
    ensures RawBytes(b + [s], prev)
         == RawBytes(b, prev) + SourceBytes(s, if b == [] then prev else Some(b[|b| - 1].id))
    decreases |b|
  {
    hide SourceBytes;
    if b == [] {
      assert [] + [s] == [s];
      assert RawBytes([s], prev) == SourceBytes(s, prev) + RawBytes([], Some(s.id));
    } else {
      assert (b + [s])[1..] == b[1..] + [s];
      RawGrows(b[1..], s, Some(b[0].id));
      Assoc(SourceBytes(b[0], prev), RawBytes(b[1..], Some(b[0].id)), SourceBytes(s, Some(b[|b| - 1].id)));
    }
  }

  lemma FlushGrows(bs: seq<seq<Source>>, cur: seq<Source>, z: Zstd, crc: Checksum)
    requires Cut(bs) && cur != []
    ensures var cs := bs + [cur];
            && Cut(cs) && Flat(cs) == Flat(bs) + cur && Area(cs, |bs|, z, crc) == Area(bs, |bs|, z, crc)
            && Area(cs, |cs|, z, crc) == Area(bs, |bs|, z, crc) + Framed(RawBytes(cur, None), z, crc)
            && Entries(cs, |cs|, z, crc) == Entries(bs, |bs|, z, crc) + EntryBytes(cs, |bs|, z, crc)
  {
    hide Framed, EntryBytes;
    var cs := bs + [cur];
    assert cs[..|bs|] == bs;
    AreaStable(bs, cur, |bs|, z, crc);
    EntriesStable(bs, cur, |bs|, z, crc);
  }

  lemma {:induction false} AreaStable(bs: seq<seq<Source>>, cur: seq<Source>, n: nat, z: Zstd, crc: Checksum)
    requires n <= |bs|
    ensures Area(bs + [cur], n, z, crc) == Area(bs, n, z, crc)
  {
    if n > 0 {
      AreaStable(bs, cur, n - 1, z, crc);
    }
  }

  lemma {:induction false} EntriesStable(bs: seq<seq<Source>>, cur: seq<Source>, n: nat, z: Zstd, crc: Checksum)
    requires n <= |bs| && Cut(bs) && cur != []
    ensures Cut(bs + [cur]) && Entries(bs + [cur], n, z, crc) == Entries(bs, n, z, crc)
  {
    hide EntryBytes;
    if n > 0 {
      EntriesStable(bs, cur, n - 1, z, crc);
      EntryStable(bs, cur, n - 1, z, crc);
    }
  }

  lemma EntryStable(bs: seq<seq<Source>>, cur: seq<Source>, n: nat, z: Zstd, crc: Checksum)
    requires n < |bs| && Cut(bs)
    ensures EntryBytes(bs + [cur], n, z, crc) == EntryBytes(bs, n, z, crc)
  {
    hide Fields, Area, RawBytes, Payload, FrameCrc;
    AreaStable(bs, cur, n, z, crc);
    assert (bs + [cur])[n] == bs[n];
  }

  method Flush(out: seq<byte>, index: seq<byte>, nblocks: nat, buf: seq<byte>, firstSrc: nat, ghost bs: seq<seq<Source>>,
               ghost cur: seq<Source>, ghost head: seq<byte>, z: Zstd, crc: Checksum)
    returns (out': seq<byte>, index': seq<byte>, nblocks': nat)
    requires Cut(bs) && cur != [] && firstSrc == cur[0].id && buf == RawBytes(cur, None) && |head| == 32 && nblocks == |bs|
    requires out == head + Area(bs, |bs|, z, crc) && index == Entries(bs, |bs|, z, crc)
    requires Cut(bs + [cur])
    ensures out' == head + (Area(bs, |bs|, z, crc) + Framed(buf, z, crc)) && nblocks' == nblocks + 1
    ensures index' == index + EntryBytes(bs + [cur], |bs|, z, crc)
  {
    hide Fields, Area, RawBytes, Payload, FrameCrc, Framed, Entries, Cut;
    AreaStable(bs, cur, |bs|, z, crc);
    assert (bs + [cur])[|bs|] == cur;
    Assoc(head, Area(bs, |bs|, z, crc), Framed(buf, z, crc));
    out' := out + Framed(buf, z, crc);
    index' := index + Fields([8, 4, 4, 5, 4], [|out|, |Payload(buf, z).1|, |buf|, firstSrc, FrameCrc(buf, z, crc)]);
    nblocks' := nblocks + 1;
  }
}
