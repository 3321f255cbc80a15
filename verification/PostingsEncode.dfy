/** EncodePostings of hotfmt/postings.go, and where each block of a list lands in its bytes. */
module PostingsEncode {
  import opened Bytes
  import opened BitPack
  import opened Postings

  /** What the skip region says of block b: where it ends in docids, how much it can score, where its bytes start. */
  datatype SkipL1 = SkipL1(lastDocid: u32, impact: byte, off: nat)

  // ----- the blocks of a list -----

  function NumBlocks(n: nat): nat {
    (n + 127) / 128
  }

  function BlockEnd(n: nat, b: nat): (e: nat)
    ensures e <= n
  {
    if 128 * (b + 1) < n then 128 * (b + 1) else n
  }

  function BlockOf(ps: seq<Posting>, b: nat): (s: seq<Posting>)
    requires b < NumBlocks(|ps|)
    ensures 1 <= |s| <= BLOCK_LEN
  {
    ps[128 * b..BlockEnd(|ps|, b)]
  }

  /** The docid that block b's first gap counts from. */
  function PrevOf(ps: seq<Posting>, b: nat): int
    requires b <= NumBlocks(|ps|)
  {
    if b == 0 then -1 else ps[BlockEnd(|ps|, b - 1) - 1].docid
  }

  lemma BlockValid(ps: seq<Posting>, b: nat)
    requires ValidList(ps) && b < NumBlocks(|ps|)
    ensures ValidBlock(BlockOf(ps, b), PrevOf(ps, b))
  {
    var lo := 128 * b;
    var s := BlockOf(ps, b);
    assert forall i :: 0 <= i < |s| ==> s[i] == ps[lo + i];
  }

  function BytesOf(ps: seq<Posting>, b: nat): seq<byte>
    requires ValidList(ps) && b < NumBlocks(|ps|)
  {
    BlockValid(ps, b);
    BlockBytes(BlockOf(ps, b), PrevOf(ps, b))
  }

  /** The bytes of the first b blocks. */
  function Prefix(ps: seq<Posting>, b: nat): seq<byte>
    requires ValidList(ps) && b <= NumBlocks(|ps|)
  {
    if b == 0 then [] else Prefix(ps, b - 1) + BytesOf(ps, b - 1)
  }

  function SeedOf(ps: seq<Posting>, b: nat): SkipL1
    requires ValidList(ps) && b < NumBlocks(|ps|)
  {
    SkipL1(ps[BlockEnd(|ps|, b) - 1].docid, BlockImpact(BlockOf(ps, b)), |Prefix(ps, b)|)
  }

  function Seeds(ps: seq<Posting>, n: nat): (s: seq<SkipL1>)
    requires ValidList(ps) && n <= NumBlocks(|ps|)
    ensures |s| == n && forall b :: 0 <= b < n ==> s[b] == SeedOf(ps, b)
  {
    seq(n, b requires 0 <= b < n => SeedOf(ps, b))
  }

  function ListBytes(ps: seq<Posting>): seq<byte>
    requires ValidList(ps)
  {
    Prefix(ps, NumBlocks(|ps|))
  }

  lemma {:induction false} PrefixGrows(ps: seq<Posting>, b: nat, c: nat)
    requires ValidList(ps) && b <= c <= NumBlocks(|ps|)
    ensures Prefix(ps, b) <= Prefix(ps, c)
    decreases c
  {
    hide BytesOf, Increasing;
    if b < c {
      PrefixGrows(ps, b, c - 1);
    }
  }

  /** Block b lies between its own offset and the next one. */
  lemma BlockAt(ps: seq<Posting>, b: nat)
    requires ValidList(ps) && b < NumBlocks(|ps|)
    ensures |Prefix(ps, b)| < |Prefix(ps, b + 1)| == |Prefix(ps, b)| + |BytesOf(ps, b)| <= |ListBytes(ps)|
    ensures ListBytes(ps)[|Prefix(ps, b)|..|Prefix(ps, b + 1)|] == BytesOf(ps, b)
  {
    BlockInPrefix(ps, b);
    hide ValidList, NumBlocks, ListBytes, BytesOf, Prefix;
    SliceAfter(ListBytes(ps), Prefix(ps, b), BytesOf(ps, b));
  }

  lemma BlockInPrefix(ps: seq<Posting>, b: nat)
    requires ValidList(ps) && b < NumBlocks(|ps|)
    ensures |BytesOf(ps, b)| > 0
    ensures Prefix(ps, b + 1) == Prefix(ps, b) + BytesOf(ps, b) <= ListBytes(ps)
  {
    hide Increasing, GoodPosting, BlockBytes;
    BlockValid(ps, b);
    NonEmpty(BlockOf(ps, b), PrevOf(ps, b));
    hide BytesOf;
    PrefixGrows(ps, b + 1, NumBlocks(|ps|));
  }

  lemma SliceAfter<T>(all: seq<T>, front: seq<T>, mid: seq<T>)
    requires front + mid <= all
    ensures all[|front|..|front + mid|] == mid
  {
  }

  lemma NonEmpty(ps: seq<Posting>, prev: int)
    requires ValidBlock(ps, prev)
    ensures |BlockBytes(ps, prev)| > 0
  {
    if |ps| == BLOCK_LEN {
      assert |ForHeader(ps, Gaps(ps, prev))| == HEADER_SIZE;
    }
  }

  lemma SeedsIncrease(ps: seq<Posting>, b: nat, c: nat)
    requires ValidList(ps) && b < NumBlocks(|ps|) && c < NumBlocks(|ps|) && b < c
    ensures SeedOf(ps, b).lastDocid < SeedOf(ps, c).lastDocid
    ensures SeedOf(ps, b).off < SeedOf(ps, c).off
  {
    LastsIncrease(ps, b, c);
    OffsIncrease(ps, b, c);
  }

  lemma OffsIncrease(ps: seq<Posting>, b: nat, c: nat)
    requires ValidList(ps) && b < NumBlocks(|ps|) && c < NumBlocks(|ps|) && b < c
    ensures |Prefix(ps, b)| < |Prefix(ps, c)|
  {
    hide ValidList, NumBlocks, BytesOf, Prefix;
    BlockAt(ps, b);
    PrefixGrows(ps, b + 1, c);
  }

  lemma LastsIncrease(ps: seq<Posting>, b: nat, c: nat)
    requires ValidList(ps) && b < NumBlocks(|ps|) && c < NumBlocks(|ps|) && b < c
    ensures ps[BlockEnd(|ps|, b) - 1].docid < ps[BlockEnd(|ps|, c) - 1].docid
  {
    assert BlockEnd(|ps|, b) - 1 < BlockEnd(|ps|, c) - 1;
  }

  // ----- the encoder -----

  /** blockGaps. */
  method BlockGaps(ps: seq<Posting>, prev0: int) returns (gs: seq<u32>)
    requires ValidBlock(ps, prev0)
    ensures gs == Gaps(ps, prev0)
  {
    gs := [];
    var prev := prev0;
    for i := 0 to |ps|
      invariant prev >= -1 && Increasing(ps[i..], prev)
      invariant gs + Gaps(ps[i..], prev) == Gaps(ps, prev0)
    {
      assert ps[i..][0] == ps[i] && ps[i..][1..] == ps[i + 1..];
      GapsStep(ps[i..], prev);
      ghost var before := gs;
      gs := gs + [ps[i].docid - prev - 1];
      prev := ps[i].docid;
      assert before + ([gs[|before|]] + Gaps(ps[i + 1..], prev)) == gs + Gaps(ps[i + 1..], prev);
    }
  }

  lemma GapsStep(ps: seq<Posting>, prev: int)
    requires ps != [] && prev >= -1 && Increasing(ps, prev)
    ensures Increasing(ps[1..], ps[0].docid)
    ensures Gaps(ps, prev) == [ps[0].docid - prev - 1] + Gaps(ps[1..], ps[0].docid)
  {
    assert forall i :: 0 <= i < |ps| - 1 ==> ps[1..][i] == ps[i + 1];
  }

  /** The loops of appendFORBlock that take the largest tf - 1. */
  method LargestTf(ps: seq<Posting>) returns (tfmax: nat)
    requires forall i :: 0 <= i < |ps| ==> GoodPosting(ps[i])
    ensures tfmax == TfMax(ps) && tfmax < 0xFF
  {
    tfmax := 0;
    for i := 0 to |ps|
      invariant tfmax == TfMax(ps[..i])
    {
      assert ps[..i + 1][..i] == ps[..i] && ps[..i + 1][i] == ps[i];
      if ps[i].tf - 1 > tfmax {
        tfmax := ps[i].tf - 1;
      }
    }
    assert ps[..|ps|] == ps;
  }

  lemma ImpactMore(ps: seq<Posting>, i: nat)
    requires i < |ps|
    ensures var m := BlockImpact(ps[..i]); BlockImpact(ps[..i + 1]) == if ps[i].impact >= m then ps[i].impact else m
  {
    assert ps[..i + 1][..i] == ps[..i] && ps[..i + 1][i] == ps[i];
  }

  method LargestImpact(ps: seq<Posting>) returns (m: byte)
    ensures m == BlockImpact(ps)
  {
    m := 0;
    for i := 0 to |ps|
      invariant m == BlockImpact(ps[..i])
    {
      ImpactMore(ps, i);
      hide BlockImpact;
      if ps[i].impact >= m {
        m := ps[i].impact;
      }
    }
    assert ps[..|ps|] == ps;
  }

  method AnyMixed(ps: seq<Posting>) returns (mixed: bool)
    ensures mixed == Mixed(ps)
  {
    for i := 0 to |ps|
      invariant forall j :: 0 <= j < i ==> ps[j].mask == 1
    {
      if ps[i].mask != 1 {
        return true;
      }
    }
    mixed := false;
  }

  /** packed is gs with the slots of xs cleared. */
  ghost predicate Clears(packed: seq<nat>, gs: seq<nat>, xs: seq<nat>) {
    |packed| == |gs| && forall k :: 0 <= k < |gs| ==> packed[k] == if k in xs then 0 else gs[k]
  }

  lemma ClearsMore(packed: seq<nat>, gs: seq<nat>, xs: seq<nat>, i: nat)
    requires i < |xs| && xs[i] < |gs| && Clears(packed, gs, xs[..i])
    ensures Clears(packed[xs[i] := 0], gs, xs[..i + 1])
  {
    assert xs[..i + 1] == xs[..i] + [xs[i]];
  }

  lemma PatchMore(out: seq<byte>, pb: seq<(nat, nat)>, i: nat)
    requires i < |pb| && forall j :: 0 <= j < |pb| ==> pb[j].0 < 0x100
    ensures out + PatchBytes(pb[i..]) == (out + ([pb[i].0] + LE(4, pb[i].1))) + PatchBytes(pb[i + 1..])
  {
    hide LE;
    assert pb[i..][0] == pb[i] && pb[i..][1..] == pb[i + 1..];
  }

  /** The patches written out, and the packed copy with their slots cleared. */
  method WritePatches(dst: seq<byte>, gs: seq<nat>, xs: seq<nat>) returns (out: seq<byte>, packed: seq<nat>)
    requires forall i :: 0 <= i < |xs| ==> xs[i] < |gs| && xs[i] < 0x100
    ensures out == dst + PatchBytes(Patches(gs, xs)) && Clears(packed, gs, xs)
  {
    hide LE, Patches;
    out, packed := dst, gs;
    var pb := Patches(gs, xs);
    for i := 0 to |xs|
      invariant out + PatchBytes(pb[i..]) == dst + PatchBytes(pb)
      invariant Clears(packed, gs, xs[..i])
    {
      hide PatchBytes, Clears;
      PatchMore(out, pb, i);
      ClearsSize(packed, gs, xs[..i]);
      ClearsMore(packed, gs, xs, i);
      out := out + ([xs[i]] + LE(4, gs[xs[i]]));
      packed := packed[xs[i] := 0];
    }
    assert xs[..|xs|] == xs;
  }

  lemma ClearsSize(packed: seq<nat>, gs: seq<nat>, xs: seq<nat>)
    requires Clears(packed, gs, xs)
    ensures |packed| == |gs|
  {
  }

  lemma ClearedIsZeroed(gs: seq<nat>, w: nat, packed: seq<nat>)
    requires Clears(packed, gs, Exceptions(gs, w))
    ensures packed == Zeroed(gs, w)
  {
    var xs := Exceptions(gs, w);
    forall k | 0 <= k < |gs| ensures packed[k] == Zeroed(gs, w)[k] {
      if k in xs {
        var i :| 0 <= i < |xs| && xs[i] == k;
      }
    }
  }

  method AppendForBlock(dst: seq<byte>, ps: seq<Posting>, prev: int) returns (out: seq<byte>)
    requires ValidBlock(ps, prev) && |ps| == BLOCK_LEN
    ensures out == dst + ForBytes(ps, prev)
  {
    hide Gaps, Exceptions, Increasing, PatchBytes, Packed, ForHeader, Header, BitLen8, TfMax, BlockImpact, Cheapest, Costs,
      BestWidth, Misfits, Zeroed, Mixed, GoodPosting, Fits, PackedLen, Pow2, Clears, TfsLess1, Patches;
    var gs := BlockGaps(ps, prev);
    var widx, xs := ChooseWidth(gs);
    WidthBelow(gs, widx);
    var w := WIDTHS[widx];
    var tfmax := LargestTf(ps);
    var tfw := BitLen8(tfmax);
    var mixed := AnyMixed(ps);
    var impact := LargestImpact(ps);
    var flags: byte := 4 * |xs| + (if mixed then 1 else 0);
    HeaderIs(ps, gs, widx, tfw, flags);
    out := dst + Header(ps[|ps| - 1].docid, impact, widx + 16 * tfw, flags, |ps|);
    var packed;
    out, packed := WritePatches(out, gs, xs);
    PatchesFit(gs, widx, xs, packed);
    PostingsFit(gs, w, ps);
    out := AppendPacked(out, packed, w);
    out := AppendPacked(out, TfsLess1(ps), tfw);
    if mixed {
      out := out + Masks(ps);
    }
    ConcatAll(dst, ForHeader(ps, gs), PatchBytes(Patches(gs, xs)), Packed(packed, w), Packed(TfsLess1(ps), tfw),
              MaskBytes(ps));
  }

  lemma WidthBelow(gs: seq<nat>, widx: nat)
    requires Cheapest(Costs(gs), widx, 16)
    ensures widx < 16 && WIDTHS[widx] <= 32
  {
    hide Costs;
  }

  lemma HeaderIs(ps: seq<Posting>, gs: seq<nat>, widx: nat, tfw: nat, flags: byte)
    requires |ps| == BLOCK_LEN && widx == BestWidth(gs) && widx < 16 && tfw == BitLen8(TfMax(ps)) && tfw <= 8
    requires flags == 4 * |Misfits(gs, widx)| + (if Mixed(ps) then 1 else 0)
    ensures Header(ps[|ps| - 1].docid, BlockImpact(ps), widx + 16 * tfw, flags, |ps|) == ForHeader(ps, gs)
  {
    hide Header, BlockImpact, BestWidth, BitLen8, TfMax, Misfits, Mixed;
  }

  lemma PatchesFit(gs: seq<nat>, widx: nat, xs: seq<nat>, packed: seq<nat>)
    requires widx < 16 && xs == Misfits(gs, widx) && Clears(packed, gs, xs)
    ensures packed == Zeroed(gs, WIDTHS[widx])
  {
    ClearedIsZeroed(gs, WIDTHS[widx], packed);
  }

  lemma PostingsFit(gs: seq<u32>, w: nat, ps: seq<Posting>)
    requires w <= 32 && forall i :: 0 <= i < |ps| ==> GoodPosting(ps[i])
    ensures Fits(Pow2(w), Zeroed(gs, w)) && Fits(Pow2(BitLen8(TfMax(ps))), TfsLess1(ps))
  {
    ZeroedFits(gs, w);
    hide Pow2, BitLen8;
  }

  lemma ZeroedFits(gs: seq<u32>, w: nat)
    requires w <= 32
    ensures Fits(Pow2(w), Zeroed(gs, w))
  {
    Pow2Of32();
    hide Pow2, Zeroed;
  }

  lemma ConcatAll<T>(z: seq<T>, a: seq<T>, b: seq<T>, c: seq<T>, d: seq<T>, e: seq<T>)
    ensures z + a + b + c + d + e == z + (a + b + c + d + e)
    ensures e == [] ==> z + a + b + c + d == z + (a + b + c + d + e)
  {
  }

  method AppendVbyteBlock(dst: seq<byte>, ps: seq<Posting>, prev: int) returns (out: seq<byte>)
    requires ValidBlock(ps, prev) && |ps| < BLOCK_LEN
    ensures out == dst + TailBytes(ps, prev)
  {
    hide Gaps, Increasing, Header, BlockImpact;
    var gs := BlockGaps(ps, prev);
    var mixed := AnyMixed(ps);
    var impact := LargestImpact(ps);
    var head := Header(ps[|ps| - 1].docid, impact, 0, 2 + (if mixed then 1 else 0), |ps|);
    out := AppendUvarints(dst + head, gs);
    out := out + Tfs(ps);
    if mixed {
      out := out + Masks(ps);
    }
    ConcatAll(dst, head, Uvarints(gs), Tfs(ps), MaskBytes(ps), []);
    assert head + Uvarints(gs) + Tfs(ps) + MaskBytes(ps) + [] == head + Uvarints(gs) + Tfs(ps) + MaskBytes(ps);
  }

  method AppendUvarints(dst: seq<byte>, gs: seq<nat>) returns (out: seq<byte>)
    ensures out == dst + Uvarints(gs)
  {
    out := dst;
    for i := 0 to |gs|
      invariant out + Uvarints(gs[i..]) == dst + Uvarints(gs)
    {
      assert gs[i..][0] == gs[i] && gs[i..][1..] == gs[i + 1..];
      ghost var before := out;
      out := out + Uvarint(gs[i]);
      assert before + (Uvarint(gs[i]) + Uvarints(gs[i + 1..])) == out + Uvarints(gs[i + 1..]);
    }
  }

  /** hotfmt/postings.go EncodePostings: accepts exactly the valid lists. */
  method EncodePostings(ps: seq<Posting>) returns (r: Result<(seq<byte>, seq<SkipL1>), PostingsError>)
    ensures r.Ok? <==> ValidList(ps)
    ensures r.Ok? ==> r.value == (ListBytes(ps), Seeds(ps, NumBlocks(|ps|)))
  {
    var bad := CheckPostings(ps);
    if bad.Some? {
      return Err(bad.value);
    }
    var out, l1 := EncodeBlocks(ps);
    return Ok((out, l1));
  }

  /** EncodePostings' loop over the blocks. */
  method EncodeBlocks(ps: seq<Posting>) returns (out: seq<byte>, l1: seq<SkipL1>)
    requires ValidList(ps)
    ensures out == ListBytes(ps) && l1 == Seeds(ps, NumBlocks(|ps|))
  {
    NoBlocks(ps);
    hide *;
    out, l1 := [], [];
    var prev: int := -1;
    var start := 0;
    ghost var b := 0;
    while start < |ps|
      invariant start == 128 * b
      invariant Written(ps, b, out, l1, prev)
    {
      BlockCount(|ps|, b);
      out, l1, prev := AppendBlock(ps, b, start, prev, out, l1);
      start := start + BLOCK_LEN;
      b := b + 1;
    }
    AllWritten(ps, b, out, l1, prev);
  }

  /** The first b blocks are out. */
  ghost predicate Written(ps: seq<Posting>, b: nat, out: seq<byte>, l1: seq<SkipL1>, prev: int)
    requires ValidList(ps)
  {
    b <= NumBlocks(|ps|) && out == Prefix(ps, b) && l1 == Seeds(ps, b) && prev == PrevOf(ps, b)
  }

  lemma AllWritten(ps: seq<Posting>, b: nat, out: seq<byte>, l1: seq<SkipL1>, prev: int)
    requires ValidList(ps) && 128 * b >= |ps| && Written(ps, b, out, l1, prev)
    ensures out == ListBytes(ps) && l1 == Seeds(ps, NumBlocks(|ps|))
  {
    assert b == NumBlocks(|ps|);
  }

  lemma BlockCount(n: nat, b: nat)
    ensures 128 * b < n <==> b < NumBlocks(n)
  {
  }

  lemma NoBlocks(ps: seq<Posting>)
    requires ValidList(ps)
    ensures Written(ps, 0, [], [], -1)
  {
  }

  /** EncodePostings' checks on its input. */
  method CheckPostings(ps: seq<Posting>) returns (bad: Option<PostingsError>)
    ensures bad == None <==> ValidList(ps)
  {
    if ps == [] {
      return Some(EmptyList);
    }
    for i := 0 to |ps|
      invariant forall j, k :: 0 <= j < k < i ==> ps[j].docid < ps[k].docid
      invariant forall j :: 0 <= j < i ==> GoodPosting(ps[j])
    {
      if i > 0 && ps[i].docid <= ps[i - 1].docid {
        return Some(NotIncreasing);
      }
      if ps[i].tf == 0 || ps[i].mask == 0 || ps[i].mask > MAX_FIELD_MASK {
        return Some(BadPosting);
      }
    }
    bad := None;
  }

  lemma WrittenValid(ps: seq<Posting>, b: nat, out: seq<byte>, l1: seq<SkipL1>, prev: int)
    requires ValidList(ps) && b < NumBlocks(|ps|) && Written(ps, b, out, l1, prev)
    ensures ValidBlock(BlockOf(ps, b), prev)
  {
    hide ValidList, ValidBlock;
    BlockValid(ps, b);
  }

  lemma SeedsNext(ps: seq<Posting>, b: nat)
    requires ValidList(ps) && b < NumBlocks(|ps|)
    ensures Seeds(ps, b + 1) == Seeds(ps, b) + [SeedOf(ps, b)]
  {
    hide ValidList, SeedOf, NumBlocks;
  }

  /** Block b behind the blocks before it. */
  lemma WrittenNext(ps: seq<Posting>, b: nat, out: seq<byte>, l1: seq<SkipL1>, prev: int)
    requires ValidList(ps) && b < NumBlocks(|ps|) && Written(ps, b, out, l1, prev) && ValidBlock(BlockOf(ps, b), prev)
    ensures var s := BlockOf(ps, b);
            var last := s[|s| - 1].docid;
            Written(ps, b + 1, out + BlockBytes(s, prev), l1 + [SkipL1(last, BlockImpact(s), |out|)], last)
  {
    hide ValidList, ValidBlock, BlockBytes, BlockImpact, Seeds;
    SeedsNext(ps, b);
  }

  /** One turn of EncodePostings' loop. */
  method AppendBlock(ps: seq<Posting>, ghost b: nat, start: nat, prev: int, out0: seq<byte>, l10: seq<SkipL1>)
    returns (out: seq<byte>, l1: seq<SkipL1>, last: int)
    requires ValidList(ps) && b < NumBlocks(|ps|) && start == 128 * b
    requires Written(ps, b, out0, l10, prev)
    ensures Written(ps, b + 1, out, l1, last)
  {
    hide ForBytes, TailBytes, BlockImpact, ValidList, ValidBlock, Written;
    BlockCount(|ps|, b);
    var end := if start + BLOCK_LEN < |ps| then start + BLOCK_LEN else |ps|;
    var block := ps[start..end];
    assert block == BlockOf(ps, b);
    WrittenValid(ps, b, out0, l10, prev);
    WrittenNext(ps, b, out0, l10, prev);
    if |block| == BLOCK_LEN {
      out := AppendForBlock(out0, block, prev);
    } else {
      out := AppendVbyteBlock(out0, block, prev);
    }
    var impact := LargestImpact(block);
    l1 := l10 + [SkipL1(block[|block| - 1].docid, impact, |out0|)];
    last := block[|block| - 1].docid;
  }
}
