/** The eight bytes in front of a postings block, hotfmt/postings.go: what they say, byte by byte, on both sides. */
module PostingsHeads {
  import BitPack
  import opened Bytes
  import opened Postings
  import opened PostingsRoundTrip

  /** Last docid, impact, widths, flags, count; flag 1 for masks, 2 for a short block, the number of patches above. */
  ghost predicate Says(data: seq<byte>, docids: seq<u32>, masks: seq<byte>)
    requires |data| >= 8
  {
    var widths, flags, n := data[5], data[6], data[7];
    && |docids| == |masks| == n && 1 <= n <= 128 && docids[n - 1] == FromLE(data[..4]) && flags < 32
    && (flags % 2 == 0 ==> forall i :: 0 <= i < n ==> masks[i] == 1)
    && (flags / 2 % 2 == 1 ==> widths == 0 && flags < 4)
    && (flags / 2 % 2 == 0 ==> n == 128 && widths / 16 <= 8)
  }

  /** Every block that decodes. */
  lemma DecodedSays(data: seq<byte>, prev: int)
    requires prev >= -1 && DecodeBlock(data, prev).Ok?
    ensures |data| >= 8 && Says(data, DecodeBlock(data, prev).value.docids, DecodeBlock(data, prev).value.masks)
  {
    hide DecodeTail, DecodeFor, Finish;
    DecodeSound(data, prev);
    var h, rest := ReadHead(data), data[8..];
    if h.Tail() {
      TailSays(rest, h);
    } else {
      ForSays(rest, h);
    }
    FinishSays(rest, prev, h, (if h.Tail() then DecodeTail(rest, h) else DecodeFor(rest, h)).value);
  }

  lemma TailSays(rest: seq<byte>, h: Head)
    requires DecodeTail(rest, h).Ok?
    ensures h.widths == 0 && h.NPatch() == 0
  {
  }

  lemma ForSays(rest: seq<byte>, h: Head)
    requires DecodeFor(rest, h).Ok?
    ensures h.TfWidth() <= 8
  {
  }

  lemma FinishSays(rest: seq<byte>, prev: int, h: Head, body: Body)
    requires |body.gaps| == h.n == |body.tfs| && body.used <= |rest| && h.n > 0 && Finish(rest, prev, h, body).Ok?
    ensures var b := Finish(rest, prev, h, body).value;
            b.head == h && (!h.HasMasks() ==> forall i :: 0 <= i < |b.masks| ==> b.masks[i] == 1)
  {
    hide Chain, ChainOk;
  }

  /** And every block that is written, with the largest impact of its postings in byte 4. */
  lemma WrittenSays(ps: seq<Posting>, prev: int)
    requires ValidBlock(ps, prev)
    ensures var data := BlockBytes(ps, prev);
            && |data| >= 8 && Says(data, Docids(ps), Masks(ps))
            && (forall i :: 0 <= i < |ps| ==> ps[i].impact <= data[4])
            && (data[4] == 0 || exists i :: 0 <= i < |ps| && ps[i].impact == data[4])
  {
    hide DecodeBlock, BlockBytes, BlockImpact;
    var data := BlockBytes(ps, prev);
    BlockRoundTrip(ps, prev, []);
    assert data + [] == data;
    DecodedSays(data, prev);
    ImpactByte(ps, prev);
  }

  lemma ImpactByte(ps: seq<Posting>, prev: int)
    requires ValidBlock(ps, prev)
    ensures |BlockBytes(ps, prev)| >= 8 && BlockBytes(ps, prev)[4] == BlockImpact(ps)
  {
    hide TailBytes, ForBytes, Increasing, BlockImpact;
    if |ps| == BLOCK_LEN {
      ForImpact(ps, prev);
    } else {
      TailImpact(ps, prev);
    }
  }

  lemma InHeader(h: seq<byte>, a: seq<byte>, b: seq<byte>, c: seq<byte>, d: seq<byte>)
    requires |h| == 8
    ensures (h + a + b + c + d)[4] == h[4] && (h + a + b + c)[4] == h[4]
  {
  }

  lemma HeaderByte(last: u32, impact: byte, widths: byte, flags: byte, n: byte)
    ensures Header(last, impact, widths, flags, n)[4] == impact
  {
  }

  lemma TailImpact(ps: seq<Posting>, prev: int)
    requires ValidBlock(ps, prev)
    ensures |TailBytes(ps, prev)| >= 8 && TailBytes(ps, prev)[4] == BlockImpact(ps)
  {
    hide Increasing, Header, Uvarints, Gaps, Tfs, MaskBytes, BlockImpact, Mixed;
    var flags := 2 + (if Mixed(ps) then 1 else 0);
    HeaderByte(ps[|ps| - 1].docid, BlockImpact(ps), 0, flags, |ps|);
    InHeader(Header(ps[|ps| - 1].docid, BlockImpact(ps), 0, flags, |ps|), Uvarints(Gaps(ps, prev)), Tfs(ps), MaskBytes(ps), []);
  }

  lemma ForImpact(ps: seq<Posting>, prev: int)
    requires ValidBlock(ps, prev) && |ps| == BLOCK_LEN
    ensures |ForBytes(ps, prev)| >= 8 && ForBytes(ps, prev)[4] == BlockImpact(ps)
  {
    hide Increasing, Header, Gaps, MaskBytes, BlockImpact, Mixed, ForHeader, PatchBytes, Patches, Misfits, Zeroed, TfsLess1;
    hide BitPack.Packed, TfMax, BitLen8, BestWidth;
    var gs := Gaps(ps, prev);
    var w := WIDTHS[BestWidth(gs)];
    ForHeaderByte(ps, gs);
    InHeader(ForHeader(ps, gs), PatchBytes(Patches(gs, Misfits(gs, BestWidth(gs)))), BitPack.Packed(Zeroed(gs, w), w),
             BitPack.Packed(TfsLess1(ps), BitLen8(TfMax(ps))), MaskBytes(ps));
  }

  lemma ForHeaderByte(ps: seq<Posting>, gs: seq<nat>)
    requires |ps| == BLOCK_LEN
    ensures ForHeader(ps, gs)[4] == BlockImpact(ps)
  {
    hide BlockImpact, Misfits, Mixed, BitLen8, TfMax, BestWidth, LE;
  }
}
