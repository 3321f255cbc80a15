/** Whatever decodes as a postings block, hotfmt/postings.go: written again, it decodes to the same. */
module PostingsReEncoding {
  import opened Bytes
  import opened Postings
  import opened PostingsRoundTrip

  /** The postings of a decoded block, under the block's impact. */
  function PostingsOf(b: Block): (ps: seq<Posting>)
    requires |b.docids| == |b.tfs| == |b.masks|
    ensures |ps| == |b.docids|
    ensures forall i :: 0 <= i < |ps| ==> ps[i] == Posting(b.docids[i], b.tfs[i], b.masks[i], b.head.impact)
  {
    seq(|b.docids|, i requires 0 <= i < |b.docids| => Posting(b.docids[i], b.tfs[i], b.masks[i], b.head.impact))
  }

  /** Written by the encoder for its kind of block, whatever widths and patches it was read with. */
  function Again(ps: seq<Posting>, prev: int, tail: bool): seq<byte>
    requires ValidBlock(ps, prev) && (!tail ==> |ps| == BLOCK_LEN)
  {
    if tail then TailBytes(ps, prev) else ForBytes(ps, prev)
  }

  lemma DecodedValid(data: seq<byte>, prev: int)
    requires prev >= -1 && DecodeBlock(data, prev).Ok?
    ensures var b := DecodeBlock(data, prev).value;
            && |b.docids| == |b.tfs| == |b.masks| == b.head.n && ValidBlock(PostingsOf(b), prev)
            && (!b.head.Tail() ==> |PostingsOf(b)| == BLOCK_LEN)
  {
    DecodeSound(data, prev);
    HeadOf(data, prev);
    hide DecodeBlock;
  }

  lemma HeadOf(data: seq<byte>, prev: int)
    requires prev >= -1 && DecodeBlock(data, prev).Ok?
    ensures CheckHead(DecodeBlock(data, prev).value.head) == None
  {
    hide DecodeTail, DecodeFor, ReadHead, Chain, ChainOk;
  }

  lemma ListsOf(b: Block)
    requires |b.docids| == |b.tfs| == |b.masks|
    ensures Docids(PostingsOf(b)) == b.docids && Tfs(PostingsOf(b)) == b.tfs && Masks(PostingsOf(b)) == b.masks
  {
  }

  lemma OneImpact(ps: seq<Posting>, impact: byte)
    requires ps != [] && forall i :: 0 <= i < |ps| ==> ps[i].impact == impact
    ensures BlockImpact(ps) == impact
  {
    assert ps[0].impact <= BlockImpact(ps);
  }

  /** Either kind of block, written for any valid postings, decodes to them. */
  lemma ReDecodes(ps: seq<Posting>, prev: int, tail: bool) returns (h: Head)
    requires ValidBlock(ps, prev) && (!tail ==> |ps| == BLOCK_LEN)
    ensures DecodeBlock(Again(ps, prev, tail), prev) == Ok(Decoded(ps, h, |Again(ps, prev, tail)|))
    ensures h.n == |ps| && h.last == ps[|ps| - 1].docid && h.impact == BlockImpact(ps)
  {
    hide DecodeBlock, TailBytes, ForBytes, Increasing, GoodPosting, BlockImpact, Misfits, Mixed, BestWidth, BitLen8, TfMax, Gaps, Decoded;
    var again := Again(ps, prev, tail);
    assert again + [] == again;
    if tail {
      h := TailHead(ps);
      TailRoundTrip(ps, prev, []);
    } else {
      h := ForHead(ps, prev);
      ForRoundTrip(ps, prev, []);
    }
  }

  lemma LastOf(data: seq<byte>, prev: int)
    requires prev >= -1 && DecodeBlock(data, prev).Ok?
    ensures var b := DecodeBlock(data, prev).value; b.head.n >= 1 && |b.docids| == b.head.n && b.docids[b.head.n - 1] == b.head.last
  {
    DecodeSound(data, prev);
    hide DecodeBlock;
  }

  /** Whatever decodes: its postings are a valid block, and written again they decode alike, to the last byte written. */
  lemma ReEncodes(data: seq<byte>, prev: int)
    requires prev >= -1 && DecodeBlock(data, prev).Ok?
    ensures var b := DecodeBlock(data, prev).value;
            && |b.docids| == |b.tfs| == |b.masks| == b.head.n && ValidBlock(PostingsOf(b), prev)
            && (!b.head.Tail() ==> |PostingsOf(b)| == BLOCK_LEN)
            && var again := Again(PostingsOf(b), prev, b.head.Tail());
               var r := DecodeBlock(again, prev);
               && r.Ok? && r.value.docids == b.docids && r.value.tfs == b.tfs && r.value.masks == b.masks
               && r.value.used == |again|
               && r.value.head.n == b.head.n && r.value.head.last == b.head.last && r.value.head.impact == b.head.impact
  {
    DecodedValid(data, prev);
    LastOf(data, prev);
    hide DecodeBlock, Increasing, GoodPosting, BlockImpact, Again, ValidBlock, Docids, Tfs, Masks;
    var b := DecodeBlock(data, prev).value;
    var ps := PostingsOf(b);
    ListsOf(b);
    OneImpact(ps, b.head.impact);
    var h := ReDecodes(ps, prev, b.head.Tail());
  }
}
