/** The postings band, hotfmt/postings.go: blocks of 128 entries, patched and bit packed, and a varint tail. */
module Postings {
  import opened Bytes
  import opened BitPack

  const BLOCK_LEN := 128
  const HEADER_SIZE := 8
  const MAX_PATCHES := 4
  const MAX_FIELD_MASK: byte := 0x0F

  /** docidWidths: the bit width each 4-bit width index stands for. */
  const WIDTHS: seq<nat> := [0, 1, 2, 3, 4, 5, 6, 7, 8, 10, 12, 16, 20, 24, 28, 32]

  datatype Posting = Posting(docid: u32, tf: byte, mask: byte, impact: byte)

  datatype PostingsError =
    | EmptyList | NotIncreasing | BadPosting
    | Truncated | BadEntryCount | ShortForBlock | UnknownFlag | TailWithWidths
    | BadGapVarint | GapTooWide | TfWidth | TooManyPatches | PatchOrder | TfTooLarge | PatchedSlotNotZero
    | DocidOverflow | LastDocidMismatch | BadMask | ZeroTf

  // ----- what a postings list must satisfy, and the spec of one encoded block -----

  /** Strictly increasing docids, the first one past prev. */
  ghost predicate Increasing(ps: seq<Posting>, prev: int) {
    && (ps != [] ==> prev < ps[0].docid)
    && forall i, j :: 0 <= i < j < |ps| ==> ps[i].docid < ps[j].docid
  }

  predicate GoodPosting(p: Posting) {
    p.tf != 0 && p.mask != 0 && p.mask <= MAX_FIELD_MASK
  }

  ghost predicate ValidList(ps: seq<Posting>) {
    ps != [] && Increasing(ps, -1) && forall i :: 0 <= i < |ps| ==> GoodPosting(ps[i])
  }

  /** One block of a list: up to 128 valid postings past prev. */
  ghost predicate ValidBlock(ps: seq<Posting>, prev: int) {
    && 1 <= |ps| <= BLOCK_LEN && prev >= -1
    && Increasing(ps, prev)
    && forall i :: 0 <= i < |ps| ==> GoodPosting(ps[i])
  }

  function BlockImpact(ps: seq<Posting>): (m: byte)
    ensures forall i :: 0 <= i < |ps| ==> ps[i].impact <= m
    ensures m == 0 || exists i :: 0 <= i < |ps| && ps[i].impact == m
  {
    if ps == [] then 0
    else
      var m := BlockImpact(ps[..|ps| - 1]);
      assert forall i :: 0 <= i < |ps| - 1 ==> ps[i] == ps[..|ps| - 1][i];
      assert ps[|ps| - 1].impact == ps[|ps| - 1].impact;
      if ps[|ps| - 1].impact >= m then ps[|ps| - 1].impact else m
  }

  /** How many docids lie between each posting and the one before it. */
  function Gaps(ps: seq<Posting>, prev: int): (gs: seq<u32>)
    requires Increasing(ps, prev) && prev >= -1
    ensures |gs| == |ps|
  {
    if ps == [] then [] else [ps[0].docid - prev - 1] + Gaps(ps[1..], ps[0].docid)
  }

  predicate Mixed(ps: seq<Posting>) {
    exists i :: 0 <= i < |ps| && ps[i].mask != 1
  }

  function Tfs(ps: seq<Posting>): (s: seq<byte>)
    ensures |s| == |ps| && forall i :: 0 <= i < |ps| ==> s[i] == ps[i].tf
  {
    seq(|ps|, i requires 0 <= i < |ps| => ps[i].tf)
  }

  function Masks(ps: seq<Posting>): (s: seq<byte>)
    ensures |s| == |ps| && forall i :: 0 <= i < |ps| ==> s[i] == ps[i].mask
  {
    seq(|ps|, i requires 0 <= i < |ps| => ps[i].mask)
  }

  function Docids(ps: seq<Posting>): (s: seq<u32>)
    ensures |s| == |ps| && forall i :: 0 <= i < |ps| ==> s[i] == ps[i].docid
  {
    seq(|ps|, i requires 0 <= i < |ps| => ps[i].docid)
  }

  function MaskBytes(ps: seq<Posting>): seq<byte> {
    if Mixed(ps) then Masks(ps) else []
  }

  function Header(last: u32, impact: byte, widths: byte, flags: byte, n: byte): (h: seq<byte>)
    ensures |h| == HEADER_SIZE
  {
    LE(4, last) + [impact, widths, flags, n]
  }

  // ----- width choice -----

  predicate Exceeds(g: nat, w: nat) {
    w < 32 && g >= Pow2(w)
  }

  /** The positions whose gap does not fit in w bits, in order. */
  function Exceptions(gs: seq<nat>, w: nat): (xs: seq<nat>)
    ensures |xs| <= |gs| && (w >= 32 ==> xs == [])
    ensures forall i :: 0 <= i < |xs| ==> xs[i] < |gs| && Exceeds(gs[xs[i]], w)
    ensures forall i, j :: 0 <= i < j < |xs| ==> xs[i] < xs[j]
    ensures forall k :: 0 <= k < |gs| && Exceeds(gs[k], w) ==> k in xs
  {
    if gs == [] then []
    else
      var xs := Exceptions(gs[..|gs| - 1], w);
      assert forall k :: 0 <= k < |gs| - 1 ==> gs[k] == gs[..|gs| - 1][k];
      if Exceeds(gs[|gs| - 1], w) then xs + [|gs| - 1] else xs
  }

  /** The gaps candidate width c cannot hold. */
  function Misfits(gs: seq<nat>, c: nat): (xs: seq<nat>)
    requires c < 16
    ensures c == 15 ==> xs == []
    ensures forall i :: 0 <= i < |xs| ==> xs[i] < |gs|
  {
    Exceptions(gs, WIDTHS[c])
  }

  predicate Feasible(gs: seq<nat>, c: nat)
    requires c < 16
  {
    |Misfits(gs, c)| <= MAX_PATCHES
  }

  function Size(gs: seq<nat>, c: nat): nat
    requires c < 16
  {
    PackedLen(|gs|, WIDTHS[c]) + 5 * |Misfits(gs, c)|
  }

  /** What each candidate would cost, -1 where it needs too many patches. */
  function Costs(gs: seq<nat>): (cs: seq<int>)
    ensures |cs| == 16 && cs[15] >= 0
    ensures forall c :: 0 <= c < 16 ==> cs[c] == if Feasible(gs, c) then Size(gs, c) else -1
  {
    seq(16, c requires 0 <= c < 16 => if Feasible(gs, c) then Size(gs, c) else -1)
  }

  /** c is the cheapest feasible candidate below n, the narrowest among equals. */
  ghost predicate Cheapest(costs: seq<int>, c: nat, n: nat)
    requires n <= |costs|
  {
    && c < n && costs[c] >= 0
    && forall d :: 0 <= d < n && costs[d] >= 0 ==> costs[c] < costs[d] || (costs[c] == costs[d] && c <= d)
  }

  function Best(costs: seq<int>, n: nat): (c: int)
    requires n <= |costs|
    ensures c >= 0 ==> Cheapest(costs, c, n)
    ensures c < 0 ==> forall d :: 0 <= d < n ==> costs[d] < 0
  {
    if n == 0 then -1
    else
      var c := Best(costs, n - 1);
      if costs[n - 1] >= 0 && (c < 0 || costs[n - 1] < costs[c]) then n - 1 else c
  }

  /** The width index the encoder stores: the last candidate, 32 bits, needs no patch, so there is always one. */
  function BestWidth(gs: seq<nat>): (c: nat)
    ensures c < 16 && Cheapest(Costs(gs), c, 16)
    ensures |Misfits(gs, c)| <= MAX_PATCHES
  {
    Best(Costs(gs), 16)
  }

  lemma NoBest(costs: seq<int>)
    ensures Best(costs, 0) == -1
  {
  }

  lemma BestNext(costs: seq<int>, n: nat)
    requires n < |costs|
    ensures var c := Best(costs, n);
            c < |costs| && Best(costs, n + 1) == if costs[n] >= 0 && (c < 0 || costs[n] < costs[c]) then n else c
  {
    assert Best(costs, n) >= 0 ==> Cheapest(costs, Best(costs, n), n);
  }

  /** hotfmt/postings.go chooseWidth. */
  method ChooseWidth(gs: seq<nat>) returns (widx: nat, patches: seq<nat>)
    ensures Cheapest(Costs(gs), widx, 16) && widx == BestWidth(gs)
    ensures patches == Misfits(gs, widx) && |patches| <= MAX_PATCHES
  {
    hide Best, Cheapest, PackedLen, Exceptions;
    var bestSize := -1;
    widx, patches := 0, [];
    NoBest(Costs(gs));
    for cand := 0 to 16
      invariant widx < 16
      invariant bestSize < 0 <==> Best(Costs(gs), cand) < 0
      invariant bestSize >= 0 ==> widx == Best(Costs(gs), cand) && bestSize == Costs(gs)[widx]
      invariant bestSize >= 0 ==> patches == Misfits(gs, widx)
    {
      BestNext(Costs(gs), cand);
      var exc, fits := FindExceptions(gs, WIDTHS[cand]);
      assert fits <==> Feasible(gs, cand);
      if fits {
        assert exc == Misfits(gs, cand);
        var size := PackedLen(|gs|, WIDTHS[cand]) + 5 * |exc|;
        assert size == Size(gs, cand);
        if bestSize < 0 || size < bestSize {
          bestSize, widx, patches := size, cand, exc;
        }
      }
    }
  }

  lemma ExceptionsSnoc(gs: seq<nat>, i: nat, w: nat)
    requires i < |gs|
    ensures Exceptions(gs[..i + 1], w) == Exceptions(gs[..i], w) + if Exceeds(gs[i], w) then [i] else []
  {
    assert gs[..i + 1][..i] == gs[..i];
  }

  /** The inner loop of chooseWidth: it stops at the fifth exception. */
  method FindExceptions(gs: seq<nat>, w: nat) returns (exc: seq<nat>, fits: bool)
    ensures fits <==> |Exceptions(gs, w)| <= MAX_PATCHES
    ensures fits ==> exc == Exceptions(gs, w)
  {
    exc := [];
    var i := 0;
    while i < |gs|
      invariant i <= |gs|
      invariant exc == Exceptions(gs[..i], w) && |exc| <= MAX_PATCHES
    {
      ExceptionsSnoc(gs, i, w);
      if Exceeds(gs[i], w) {
        exc := exc + [i];
      }
      i := i + 1;
      if |exc| > MAX_PATCHES {
        ExceptionsGrow(gs, i, w);
        return exc, false;
      }
    }
    assert gs[..|gs|] == gs;
    fits := true;
  }

  lemma {:induction false} ExceptionsGrow(gs: seq<nat>, i: nat, w: nat)
    requires i <= |gs|
    ensures |Exceptions(gs[..i], w)| <= |Exceptions(gs, w)|
    decreases |gs|
  {
    if i == |gs| {
      assert gs[..i] == gs;
    } else {
      var rest := gs[..|gs| - 1];
      ExceptionsGrow(rest, i, w);
      assert rest[..i] == gs[..i];
    }
  }

  // ----- spec of an encoded block -----

  /** The gaps as they go into the packed stream: patched slots are stored as zero. */
  function Zeroed(gs: seq<nat>, w: nat): (zs: seq<nat>)
    ensures |zs| == |gs|
    ensures forall i :: 0 <= i < |gs| ==> zs[i] == if Exceeds(gs[i], w) then 0 else gs[i]
  {
    seq(|gs|, i requires 0 <= i < |gs| => if Exceeds(gs[i], w) then 0 else gs[i])
  }

  /** The patches: position and true gap. */
  function Patches(gs: seq<nat>, xs: seq<nat>): (ps: seq<(nat, nat)>)
    requires forall i :: 0 <= i < |xs| ==> xs[i] < |gs|
    ensures |ps| == |xs| && forall i :: 0 <= i < |xs| ==> ps[i] == (xs[i], gs[xs[i]])
  {
    seq(|xs|, i requires 0 <= i < |xs| => (xs[i], gs[xs[i]]))
  }

  predicate PatchesInOrder(ps: seq<(nat, nat)>, n: nat) {
    (forall i :: 0 <= i < |ps| ==> ps[i].0 < n) && (forall i, j :: 0 <= i < j < |ps| ==> ps[i].0 < ps[j].0)
  }

  ghost predicate GoodPatches(ps: seq<(nat, nat)>, n: nat) {
    PatchesInOrder(ps, n) && forall i :: 0 <= i < |ps| ==> ps[i].1 <= MAX_U32
  }

  function PatchBytes(ps: seq<(nat, nat)>): (bs: seq<byte>)
    requires forall i :: 0 <= i < |ps| ==> ps[i].0 < 0x100
    ensures |bs| == 5 * |ps|
  {
    if ps == [] then [] else [ps[0].0] + LE(4, ps[0].1) + PatchBytes(ps[1..])
  }

  function BitLen8(v: nat): (n: nat)
    requires v < 0x100
    ensures n <= 8 && v < Pow2(n)
    ensures n > 0 ==> Pow2(n - 1) <= v
  {
    ByteBase();
    if v == 0 then 0
    else
      var n := 1 + BitLen8(v / 2);
      assert Pow2(n) == 2 * Pow2(n - 1);
      BitLenBound(v, n);
      n
  }

  lemma BitLenBound(v: nat, n: nat)
    requires v < 0x100 && n > 0 && Pow2(n - 1) <= v
    ensures n <= 8
  {
    ByteBase();
    if n > 8 {
      Pow2Monotone(8, n - 1);
    }
  }

  function TfMax(ps: seq<Posting>): (m: nat)
    ensures m < 0xFF
    ensures forall i :: 0 <= i < |ps| && ps[i].tf != 0 ==> ps[i].tf - 1 <= m
  {
    if ps == [] then 0
    else
      var m := TfMax(ps[..|ps| - 1]);
      assert forall i :: 0 <= i < |ps| - 1 ==> ps[i] == ps[..|ps| - 1][i];
      if ps[|ps| - 1].tf - 1 > m then ps[|ps| - 1].tf - 1 else m
  }

  /** tf - 1, the stored form. */
  function TfsLess1(ps: seq<Posting>): (s: seq<nat>)
    requires forall i :: 0 <= i < |ps| ==> GoodPosting(ps[i])
    ensures |s| == |ps| && forall i :: 0 <= i < |ps| ==> s[i] == ps[i].tf - 1
  {
    seq(|ps|, i requires 0 <= i < |ps| && GoodPosting(ps[i]) => (ps[i].tf - 1) as nat)
  }

  function ForHeader(ps: seq<Posting>, gs: seq<nat>): (h: seq<byte>)
    requires |ps| == BLOCK_LEN
    ensures |h| == HEADER_SIZE
  {
    var widx := BestWidth(gs);
    Header(ps[|ps| - 1].docid, BlockImpact(ps), widx + 16 * BitLen8(TfMax(ps)),
           4 * |Misfits(gs, widx)| + (if Mixed(ps) then 1 else 0), |ps|)
  }

  function ForBytes(ps: seq<Posting>, prev: int): seq<byte>
    requires ValidBlock(ps, prev) && |ps| == BLOCK_LEN
  {
    var gs := Gaps(ps, prev);
    var w := WIDTHS[BestWidth(gs)];
    ForHeader(ps, gs)
      + PatchBytes(Patches(gs, Misfits(gs, BestWidth(gs))))
      + Packed(Zeroed(gs, w), w)
      + Packed(TfsLess1(ps), BitLen8(TfMax(ps)))
      + MaskBytes(ps)
  }

  function Uvarints(gs: seq<nat>): seq<byte> {
    if gs == [] then [] else Uvarint(gs[0]) + Uvarints(gs[1..])
  }

  function TailBytes(ps: seq<Posting>, prev: int): seq<byte>
    requires ValidBlock(ps, prev)
  {
    Header(ps[|ps| - 1].docid, BlockImpact(ps), 0, 2 + (if Mixed(ps) then 1 else 0), |ps|)
      + Uvarints(Gaps(ps, prev)) + Tfs(ps) + MaskBytes(ps)
  }

  function BlockBytes(ps: seq<Posting>, prev: int): seq<byte>
    requires ValidBlock(ps, prev)
  {
    if |ps| == BLOCK_LEN then ForBytes(ps, prev) else TailBytes(ps, prev)
  }

  // ----- spec of decoding one block -----

  /** The header's fields, as the decoder splits them. */
  datatype Head = Head(last: u32, impact: byte, widths: byte, flags: byte, n: byte) {
    predicate Tail() { flags / 2 % 2 == 1 }
    predicate HasMasks() { flags % 2 == 1 }
    function NPatch(): nat { flags / 4 % 8 }
    function Widx(): (c: nat) ensures c < 16 { widths % 16 }
    function TfWidth(): nat { widths / 16 }
  }

  datatype Block = Block(head: Head, docids: seq<u32>, tfs: seq<byte>, masks: seq<byte>, used: nat)

  /** What the gap and tf part of a block decodes to. */
  datatype Body = Body(gaps: seq<u32>, tfs: seq<byte>, used: nat)

  function ReadHead(data: seq<byte>): Head
    requires |data| >= HEADER_SIZE
  {
    Head(U32(data), data[4], data[5], data[6], data[7])
  }

  function CheckHead(h: Head): Option<PostingsError> {
    if h.n == 0 || h.n > BLOCK_LEN then Some(BadEntryCount)
    else if !h.Tail() && h.n != BLOCK_LEN then Some(ShortForBlock)
    else if h.flags >= 32 then Some(UnknownFlag)
    else None
  }

  /** n varints from the front of data, each a u32. */
  function ReadGaps(data: seq<byte>, n: nat): (r: Result<(seq<u32>, nat), PostingsError>)
    ensures r.Ok? ==> |r.value.0| == n && r.value.1 <= |data|
  {
    if n == 0 then Ok(([], 0))
    else
      match ReadUvarint(data)
      case Err(_) => Err(BadGapVarint)
      case Ok((g, gn)) =>
        if g > MAX_U32 then Err(GapTooWide)
        else
          match ReadGaps(data[gn..], n - 1)
          case Err(e) => Err(e)
          case Ok((gs, used)) => Ok(([g] + gs, gn + used))
  }

  function DecodeTail(data: seq<byte>, h: Head): (r: Result<Body, PostingsError>)
    ensures r.Ok? ==> |r.value.gaps| == h.n == |r.value.tfs| && r.value.used <= |data|
  {
    if h.widths != 0 || h.NPatch() != 0 then Err(TailWithWidths)
    else
      match ReadGaps(data, h.n)
      case Err(e) => Err(e)
      case Ok((gs, used)) =>
        if |data| < used + h.n then Err(Truncated) else Ok(Body(gs, data[used..used + h.n], used + h.n))
  }

  function ReadPatches(data: seq<byte>, np: nat): (ps: seq<(nat, nat)>)
    requires |data| >= 5 * np
    ensures |ps| == np
    ensures forall i :: 0 <= i < np ==> ps[i] == (data[5 * i], U32(data[5 * i + 1..]))
    ensures forall i :: 0 <= i < np ==> ps[i].1 <= MAX_U32
  {
    seq(np, i requires 0 <= i < np => (data[5 * i], U32(data[5 * i + 1..])))
  }

  /** The patches written over their slots; None when a slot is not zero. */
  function ApplyPatches(gs: seq<u32>, ps: seq<(nat, nat)>): (r: Option<seq<u32>>)
    requires forall i :: 0 <= i < |ps| ==> ps[i].0 < |gs| && ps[i].1 <= MAX_U32
    ensures r.Some? ==> |r.value| == |gs|
    decreases |ps|
  {
    if ps == [] then Some(gs)
    else if gs[ps[0].0] != 0 then None
    else ApplyPatches(gs[ps[0].0 := ps[0].1], ps[1..])
  }

  function AddOne(vals: seq<nat>): (s: seq<byte>)
    requires forall i :: 0 <= i < |vals| ==> vals[i] <= 254
    ensures |s| == |vals| && forall i :: 0 <= i < |vals| ==> s[i] == vals[i] + 1
  {
    seq(|vals|, i requires 0 <= i < |vals| => vals[i] + 1)
  }

  function DecodeFor(data: seq<byte>, h: Head): (r: Result<Body, PostingsError>)
    ensures r.Ok? ==> |r.value.gaps| == h.n == |r.value.tfs| && r.value.used <= |data|
  {
    var np, n, tfw := h.NPatch(), h.n, h.TfWidth();
    if tfw > 8 then Err(TfWidth)
    else if np > MAX_PATCHES then Err(TooManyPatches)
    else if |data| < 5 * np then Err(Truncated)
    else if !PatchesInOrder(ReadPatches(data, np), n) then Err(PatchOrder)
    else if |data| < 5 * np + PackedLen(n, WIDTHS[h.Widx()]) + PackedLen(n, tfw) then Err(Truncated)
    else ForBody(data[5 * np..], n, WIDTHS[h.Widx()], tfw, ReadPatches(data, np))
  }

  /** The packed gaps and tfs at the front of data, patched. */
  function ForBody(data: seq<byte>, n: nat, w: nat, tfw: nat, pb: seq<(nat, nat)>): (r: Result<Body, PostingsError>)
    requires w in WIDTHS && tfw <= 8 && |data| >= PackedLen(n, w) + PackedLen(n, tfw)
    requires PatchesInOrder(pb, n) && forall i :: 0 <= i < |pb| ==> pb[i].1 <= MAX_U32
    ensures r.Ok? ==> |r.value.gaps| == n == |r.value.tfs|
    ensures r.Ok? ==> r.value.used == 5 * |pb| + PackedLen(n, w) + PackedLen(n, tfw)
  {
    PatchBody(UnpackedU32(data, n, w), Unpacked(data[PackedLen(n, w)..], n, tfw), pb,
              5 * |pb| + PackedLen(n, w) + PackedLen(n, tfw))
  }

  function PatchBody(gaps: seq<u32>, less: seq<nat>, pb: seq<(nat, nat)>, used: nat): (r: Result<Body, PostingsError>)
    requires PatchesInOrder(pb, |gaps|) && forall i :: 0 <= i < |pb| ==> pb[i].1 <= MAX_U32
    ensures r.Ok? ==> |r.value.gaps| == |gaps| && |r.value.tfs| == |less| && r.value.used == used
  {
    if exists i :: 0 <= i < |less| && less[i] > 254 then Err(TfTooLarge)
    else
      match ApplyPatches(gaps, pb)
      case None => Err(PatchedSlotNotZero)
      case Some(gs) => Ok(Body(gs, AddOne(less), used))
  }

  function UnpackedU32(data: seq<byte>, n: nat, w: nat): (vals: seq<u32>)
    requires PackedLen(n, w) <= |data| && w in WIDTHS
    ensures vals == Unpacked(data, n, w)
  {
    WidthFits(w);
    Unpacked(data, n, w)
  }

  /** The docid chain: each next docid is one past the previous by its gap. */
  function Chain(prev: int, gs: seq<nat>): (ds: seq<int>)
    ensures |ds| == |gs|
    decreases |gs|
  {
    if gs == [] then [] else [prev + gs[0] + 1] + Chain(prev + gs[0] + 1, gs[1..])
  }

  predicate ChainOk(ds: seq<int>) {
    forall i :: 0 <= i < |ds| ==> 0 <= ds[i] <= MAX_U32
  }

  function ReadMasks(data: seq<byte>, h: Head): (r: Result<seq<byte>, PostingsError>)
    ensures r.Ok? ==> |r.value| == h.n && (h.HasMasks() ==> h.n <= |data|)
  {
    if !h.HasMasks() then Ok(seq(h.n, _ => 1))
    else if |data| < h.n then Err(Truncated)
    else if exists i :: 0 <= i < h.n && (data[i] == 0 || data[i] > MAX_FIELD_MASK) then Err(BadMask)
    else Ok(data[..h.n])
  }

  /** Everything past the gaps and tfs: the docid chain, the header's last docid, the masks and the tail's tfs. */
  function Finish(data: seq<byte>, prev: int, h: Head, body: Body): (r: Result<Block, PostingsError>)
    requires |body.gaps| == h.n == |body.tfs| && body.used <= |data| && h.n > 0
  {
    var ds := Chain(prev, body.gaps);
    if !ChainOk(ds) then Err(DocidOverflow)
    else if ds[h.n - 1] != h.last then Err(LastDocidMismatch)
    else
      match ReadMasks(data[body.used..], h)
      case Err(e) => Err(e)
      case Ok(masks) =>
        if h.Tail() && exists i :: 0 <= i < h.n && body.tfs[i] == 0 then Err(ZeroTf)
        else Ok(Block(h, ds, body.tfs, masks, HEADER_SIZE + body.used + (if h.HasMasks() then h.n else 0)))
  }

  function DecodeBlock(data: seq<byte>, prev: int): (r: Result<Block, PostingsError>)
    requires prev >= -1
  {
    if |data| < HEADER_SIZE then Err(Truncated)
    else
      var h := ReadHead(data);
      match CheckHead(h)
      case Some(e) => Err(e)
      case None =>
        var rest := data[HEADER_SIZE..];
        match if h.Tail() then DecodeTail(rest, h) else DecodeFor(rest, h)
        case Err(e) => Err(e)
        case Ok(body) => Finish(rest, prev, h, body)
  }
}
