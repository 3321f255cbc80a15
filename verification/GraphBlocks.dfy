/**
 * The delta-coded CSR of coldfmt/graphseg.go inside one block, and the block framing of coldfmt/block.go. Compression is
 * a pair of functions of which decoding inverts encoding; the checksum is a parameter.
 */
module GraphBlocks {
  import opened Bytes
  import opened Format

  const MAX_NODE: nat := 0xFF_FFFF_FFFF

  datatype Source = Source(id: nat, dsts: seq<nat>)

  datatype GraphError =
    | TooLarge | OutOfOrder | EmptySegment
    | BadHeader | BadTail | BadFooter | BadIndex
    | BadExtent | PastEnd | BadBlock | BadLength | Varint | BadDelta | BadDegree | FirstSource | PastLast | BadCounts

  datatype Zstd = Zstd(encode: seq<byte> -> seq<byte>, decode: seq<byte> -> Option<seq<byte>>)

  ghost predicate Inverse(z: Zstd) {
    forall raw :: z.decode(z.encode(raw)) == Some(raw)
  }

  ghost predicate Rising(ns: seq<nat>) {
    && (forall i :: 0 <= i < |ns| ==> ns[i] <= MAX_NODE)
    && (forall i, j :: 0 <= i < j < |ns| ==> ns[i] < ns[j])
  }

  /** What the writer accepts: sources and, per source, destinations strictly increasing 40-bit ids. */
  ghost predicate ValidSources(v: seq<Source>) {
    && (forall i :: 0 <= i < |v| ==> v[i].id <= MAX_NODE && Rising(v[i].dsts))
    && (forall i, j :: 0 <= i < j < |v| ==> v[i].id < v[j].id)
  }

  /** What a delta is taken from: nothing yet, so the value itself is stored; or the value before it. */
  function Base(prev: Option<nat>): nat {
    if prev.Some? then prev.value else 0
  }

  // ----- destinations -----

  function DstBytes(ds: seq<nat>, prev: Option<nat>): seq<byte> {
    if ds == [] then []
    else Uvarint(if ds[0] >= Base(prev) then ds[0] - Base(prev) else 0) + DstBytes(ds[1..], Some(ds[0]))
  }

  /** One id from its delta: the first as it is, the others strictly further on and within range. */
  function Step(prev: Option<nat>, v: nat): Option<nat> {
    if prev.None? then Some(v)
    else if v == 0 || prev.value > MAX_NODE || v > MAX_NODE - prev.value then None
    else Some(prev.value + v)
  }

  function ReadDsts(data: seq<byte>, n: nat, prev: Option<nat>): (r: Result<(seq<nat>, seq<byte>), GraphError>)
    ensures r.Ok? ==> |r.value.0| == n && |r.value.1| <= |data|
    decreases n
  {
    if n == 0 then Ok(([], data))
    else
      match ReadUvarint(data)
      case Err(_) => Err(Varint)
      case Ok((v, k)) =>
        match Step(prev, v)
        case None => Err(BadDelta)
        case Some(d) =>
          if d > MAX_NODE then Err(TooLarge)
          else
            match ReadDsts(data[k..], n - 1, Some(d))
            case Err(e) => Err(e)
            case Ok((ds, rest)) => Ok(([d] + ds, rest))
  }

  lemma UvarintFront(v: u64, rest: seq<byte>)
    ensures ReadUvarint(Uvarint(v) + rest) == Ok((v, |Uvarint(v)|)) && (Uvarint(v) + rest)[|Uvarint(v)|..] == rest
  {
    UvarintRoundTrip(v, rest);
  }

  /** Every id costs at least a byte. */
  lemma {:induction false} DstsCost(ds: seq<nat>, prev: Option<nat>)
    ensures |DstBytes(ds, prev)| >= |ds|
  {
    if ds != [] {
      DstsCost(ds[1..], Some(ds[0]));
    }
  }

  ghost predicate After(ds: seq<nat>, prev: Option<nat>) {
    prev.Some? && ds != [] ==> prev.value < ds[0]
  }

  /** One id taken off the front. */
  lemma DstsOne(data: seq<byte>, v: u64, tail: seq<byte>, ds: seq<nat>, prev: Option<nat>, rest: seq<byte>)
    requires ds != [] && ds[0] <= MAX_NODE && data == Uvarint(v) + tail && Step(prev, v) == Some(ds[0])
    requires ReadDsts(tail, |ds[1..]|, Some(ds[0])) == Ok((ds[1..], rest))
    ensures ReadDsts(data, |ds|, prev) == Ok((ds, rest))
  {
    hide Uvarint, ReadUvarint, Step;
    UvarintFront(v, tail);
    assert [ds[0]] + ds[1..] == ds;
  }

  lemma {:induction false} DstsRead(ds: seq<nat>, prev: Option<nat>, rest: seq<byte>)
    requires Rising(ds) && After(ds, prev) && (prev.Some? ==> prev.value <= MAX_NODE)
    ensures ReadDsts(DstBytes(ds, prev) + rest, |ds|, prev) == Ok((ds, rest))
  {
    hide Uvarint;
    if ds == [] {
      assert [] + rest == rest;
    } else {
      hide ReadDsts;
      var v := ds[0] - Base(prev);
      RisingTail(ds);
      DstsRead(ds[1..], Some(ds[0]), rest);
      Assoc(Uvarint(v), DstBytes(ds[1..], Some(ds[0])), rest);
      DstsOne(DstBytes(ds, prev) + rest, v, DstBytes(ds[1..], Some(ds[0])) + rest, ds, prev, rest);
    }
  }

  lemma RisingTail(ds: seq<nat>)
    requires Rising(ds) && ds != []
    ensures Rising(ds[1..]) && After(ds[1..], Some(ds[0]))
  {
  }

  // ----- sources -----

  function SourceBytes(s: Source, prev: Option<nat>): seq<byte> {
    Uvarint(if s.id >= Base(prev) then s.id - Base(prev) else 0) + Uvarint(|s.dsts|) + DstBytes(s.dsts, None)
  }

  /** A block's raw bytes; its first source is absolute. */
  function RawBytes(b: seq<Source>, prev: Option<nat>): seq<byte> {
    if b == [] then [] else SourceBytes(b[0], prev) + RawBytes(b[1..], Some(b[0].id))
  }

  /** One source at the front of raw. */
  function ReadSource(raw: seq<byte>, prev: Option<nat>, first: nat, before: Option<nat>, last: nat)
    : (r: Result<(Source, seq<byte>), GraphError>)
    ensures r.Ok? ==> |r.value.1| < |raw|
  {
    match ReadUvarint(raw)
    case Err(_) => Err(Varint)
    case Ok((v, k)) =>
      if prev.None? && (v != first || (before.Some? && v <= before.value)) then Err(FirstSource)
      else
        match Step(prev, v)
        case None => Err(BadDelta)
        case Some(src) =>
          if src > last then Err(PastLast)
          else
            match ReadUvarint(raw[k..])
            case Err(_) => Err(Varint)
            case Ok((deg, m)) =>
              if deg > |raw| - k - m then Err(BadDegree)
              else
                match ReadDsts(raw[k..][m..], deg, None)
                case Err(e) => Err(e)
                case Ok((ds, rest)) => Ok((Source(src, ds), rest))
  }

  /** All of a block: until its raw bytes are used up. */
  function ReadRaw(raw: seq<byte>, prev: Option<nat>, first: nat, before: Option<nat>, last: nat): Result<seq<Source>, GraphError>
    decreases |raw|
  {
    if raw == [] then Ok([])
    else
      match ReadSource(raw, prev, first, before, last)
      case Err(e) => Err(e)
      case Ok((s, rest)) =>
        match ReadRaw(rest, Some(s.id), first, before, last)
        case Err(e) => Err(e)
        case Ok(ss) => Ok([s] + ss)
  }

  /** The sources of one block, behind those of the blocks before it. */
  ghost predicate GoodBlock(b: seq<Source>, prev: Option<nat>, first: nat, before: Option<nat>, last: nat) {
    && ValidSources(b) && last <= MAX_NODE && (forall i :: 0 <= i < |b| ==> b[i].id <= last)
    && (prev.Some? ==> prev.value <= MAX_NODE && (b != [] ==> prev.value < b[0].id))
    && (prev.None? && b != [] ==> b[0].id == first && (before.Some? ==> before.value < first))
  }

  lemma {:induction false} RisingCount(ds: seq<nat>)
    requires Rising(ds)
    ensures ds != [] ==> |ds| <= ds[|ds| - 1] + 1
    ensures |ds| <= MAX_NODE + 1
  {
    if |ds| > 1 {
      RisingCount(ds[..|ds| - 1]);
      assert ds[|ds| - 2] < ds[|ds| - 1];
    }
  }

  lemma SourceRead(s: Source, prev: Option<nat>, rest: seq<byte>, first: nat, before: Option<nat>, last: nat)
    requires GoodBlock([s], prev, first, before, last)
    ensures ReadSource(SourceBytes(s, prev) + rest, prev, first, before, last) == Ok((s, rest))
  {
    hide Uvarint, ReadUvarint, ReadDsts, DstBytes, Rising;
    assert [s][0] == s;
    RisingCount(s.dsts);
    var v := s.id - Base(prev);
    var t2 := DstBytes(s.dsts, None) + rest;
    var t1 := Uvarint(|s.dsts|) + t2;
    Assoc(Uvarint(v) + Uvarint(|s.dsts|), DstBytes(s.dsts, None), rest);
    Assoc(Uvarint(v), Uvarint(|s.dsts|), t2);
    UvarintFront(v, t1);
    UvarintFront(|s.dsts|, t2);
    DstsCost(s.dsts, None);
    DstsRead(s.dsts, None, rest);
  }

  lemma BlockTail(b: seq<Source>, prev: Option<nat>, first: nat, before: Option<nat>, last: nat)
    requires GoodBlock(b, prev, first, before, last) && b != []
    ensures GoodBlock([b[0]], prev, first, before, last) && GoodBlock(b[1..], Some(b[0].id), first, before, last)
  {
    hide Rising;
  }

  /** Whatever sources a block holds, it reads back as them. */
  lemma {:induction false} RawRead(b: seq<Source>, prev: Option<nat>, first: nat, before: Option<nat>, last: nat)
    requires GoodBlock(b, prev, first, before, last)
    ensures ReadRaw(RawBytes(b, prev), prev, first, before, last) == Ok(b)
  {
    hide SourceBytes, ReadSource, GoodBlock;
    if b != [] {
      BlockTail(b, prev, first, before, last);
      SourceRead(b[0], prev, RawBytes(b[1..], Some(b[0].id)), first, before, last);
      SourceNotEmpty(b[0], prev);
      RawRead(b[1..], Some(b[0].id), first, before, last);
      assert [b[0]] + b[1..] == b;
    }
  }

  lemma SourceNotEmpty(s: Source, prev: Option<nat>)
    ensures |SourceBytes(s, prev)| >= 2
  {
  }

  // ----- framing -----

  const COMP_STORED: byte := 0
  const COMP_ZSTD: byte := 1

  /** What is stored of raw: compressed, unless that does not pay. */
  function Payload(raw: seq<byte>, z: Zstd): (byte, seq<byte>) {
    var c := z.encode(raw);
    if |c| >= |raw| then (COMP_STORED, raw) else (COMP_ZSTD, c)
  }

  function FrameHead(rawLen: nat, comp: byte, payload: seq<byte>): seq<byte> {
    LE(4, rawLen % 0x1_0000_0000) + LE(4, |payload| % 0x1_0000_0000) + [comp, 0, 0, 0]
  }

  function Framed(raw: seq<byte>, z: Zstd, crc: Checksum): seq<byte> {
    var (comp, payload) := Payload(raw, z);
    var head := FrameHead(|raw|, comp, payload);
    head + payload + LE(4, crc(head + payload))
  }

  function Deframed(b: seq<byte>, z: Zstd, crc: Checksum): Result<seq<byte>, GraphError> {
    if |b| < 16 then Err(BadBlock)
    else if FromLE(b[|b| - 4..]) != crc(b[..|b| - 4]) then Err(BadBlock)
    else
      var rawLen, storedLen, comp := FromLE(b[..4]), FromLE(b[4..8]), b[8];
      var payload := b[12..|b| - 4];
      if rawLen > 0x4000_0000 then Err(TooLarge)
      else if storedLen != |b| - 16 then Err(BadLength)
      else if comp == COMP_STORED then if rawLen != storedLen then Err(BadLength) else Ok(payload)
      else if comp == 1 || comp == 2 then
        match z.decode(payload)
        case None => Err(BadBlock)
        case Some(raw) => if |raw| != rawLen then Err(BadLength) else Ok(raw)
      else Err(BadBlock)
  }

  lemma FrameSlices(a: seq<byte>, s: seq<byte>, comp: byte, payload: seq<byte>, t: seq<byte>)
    requires |a| == 4 && |s| == 4 && |t| == 4
    ensures var b := a + s + [comp, 0, 0, 0] + payload + t;
            && |b| == 16 + |payload| && b[..4] == a && b[4..8] == s && b[8] == comp && b[12..|b| - 4] == payload
            && b[|b| - 4..] == t && b[..|b| - 4] == a + s + [comp, 0, 0, 0] + payload
  {
  }

  /** A framed block of up to 2^30 raw bytes comes back, stored or compressed. */
  lemma FrameRoundTrip(raw: seq<byte>, z: Zstd, crc: Checksum)
    requires Inverse(z) && |raw| <= 0x4000_0000
    ensures Deframed(Framed(raw, z, crc), z, crc) == Ok(raw)
    ensures |Framed(raw, z, crc)| == 16 + |Payload(raw, z).1| && |Payload(raw, z).1| <= |raw|
  {
    hide LE, FromLE, Inverse;
    var (comp, payload) := Payload(raw, z);
    var head := FrameHead(|raw|, comp, payload);
    FrameSlices(LE(4, |raw|), LE(4, |payload|), comp, payload, LE(4, crc(head + payload)));
    ReadsBack(|raw|);
    ReadsBack(|payload|);
    ReadsBack(crc(head + payload));
    Decodes(z, raw);
  }

  lemma ReadsBack(v: u32)
    ensures FromLE(LE(4, v)) == v
  {
    Widths();
    NumDigits(0x100, 4, v);
  }

  lemma Decodes(z: Zstd, raw: seq<byte>)
    requires Inverse(z)
    ensures z.decode(z.encode(raw)) == Some(raw)
  {
  }
}
