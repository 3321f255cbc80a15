/** Decoding a postings block gives back the block that was encoded, whatever bytes follow it. */
module PostingsRoundTrip {
  import opened Bytes
  import opened BitPack
  import opened Postings

  lemma Concat3<T>(a: seq<T>, b: seq<T>, c: seq<T>)
    ensures a + b + c == a + (b + c)
    ensures (a + b + c)[|a|..] == b + c
  {
  }

  lemma Concat4<T>(a: seq<T>, b: seq<T>, c: seq<T>, d: seq<T>)
    ensures a + b + c + d == a + (b + c + d) == a + b + (c + d)
  {
  }

  lemma ConcatNested<T>(a: seq<T>, b: seq<T>, c: seq<T>, d: seq<T>)
    ensures a + b + c + d == a + (b + (c + d))
    ensures (a + (b + (c + d)))[|a|..] == b + (c + d)
  {
  }

  lemma Concat5<T>(a: seq<T>, b: seq<T>, c: seq<T>, d: seq<T>, e: seq<T>)
    ensures a + b + c + d + e == a + (b + c + d) + e
  {
  }

  lemma HeadReads(last: u32, impact: byte, widths: byte, flags: byte, n: byte, rest: seq<byte>)
    ensures ReadHead(Header(last, impact, widths, flags, n) + rest) == Head(last, impact, widths, flags, n)
    ensures (Header(last, impact, widths, flags, n) + rest)[HEADER_SIZE..] == rest
  {
    U32RoundTrip(last, [impact, widths, flags, n] + rest);
    assert Header(last, impact, widths, flags, n) + rest == LE(4, last) + ([impact, widths, flags, n] + rest);
  }

  lemma {:induction false} PatchBytesAt(ps: seq<(nat, nat)>, i: nat)
    requires forall j :: 0 <= j < |ps| ==> ps[j].0 < 0x100
    requires i < |ps|
    ensures PatchBytes(ps)[5 * i] == ps[i].0
    ensures PatchBytes(ps)[5 * i + 1..5 * i + 5] == LE(4, ps[i].1)
  {
    var bs := PatchBytes(ps);
    assert bs == ([ps[0].0] + LE(4, ps[0].1)) + PatchBytes(ps[1..]);
    if i == 0 {
      assert bs[1..5] == LE(4, ps[0].1);
    } else {
      PatchBytesAt(ps[1..], i - 1);
      assert bs[5..] == PatchBytes(ps[1..]);
      assert bs[5 * i + 1..5 * i + 5] == bs[5..][5 * (i - 1) + 1..5 * (i - 1) + 5];
    }
  }

  lemma PatchReadAt(ps: seq<(nat, nat)>, rest: seq<byte>, i: nat)
    requires forall j :: 0 <= j < |ps| ==> ps[j].0 < 0x100
    requires i < |ps| && ps[i].1 <= MAX_U32
    ensures var data := PatchBytes(ps) + rest;
            data[5 * i] == ps[i].0 && U32(data[5 * i + 1..]) == ps[i].1
  {
    hide PatchBytes, LE, FromLE;
    var data := PatchBytes(ps) + rest;
    PatchBytesAt(ps, i);
    assert data[5 * i + 1..][..4] == PatchBytes(ps)[5 * i + 1..5 * i + 5];
    U32RoundTrip(ps[i].1, []);
    assert (LE(4, ps[i].1) + [])[..4] == LE(4, ps[i].1);
  }

  lemma PatchesRead(ps: seq<(nat, nat)>, rest: seq<byte>)
    requires forall i :: 0 <= i < |ps| ==> ps[i].0 < 0x100
    requires forall i :: 0 <= i < |ps| ==> ps[i].1 <= MAX_U32
    ensures ReadPatches(PatchBytes(ps) + rest, |ps|) == ps
  {
    hide PatchBytes, U32, ReadPatches;
    var got := ReadPatches(PatchBytes(ps) + rest, |ps|);
    forall i | 0 <= i < |ps| ensures got[i] == ps[i] {
      PatchReadAt(ps, rest, i);
    }
  }

  lemma {:induction false} PatchesApply(gs: seq<u32>, ps: seq<(nat, nat)>)
    requires GoodPatches(ps, |gs|)
    requires forall i :: 0 <= i < |ps| ==> gs[ps[i].0] == 0
    ensures ApplyPatches(gs, ps).Some?
    ensures var r := ApplyPatches(gs, ps).value;
            && (forall i :: 0 <= i < |ps| ==> r[ps[i].0] == ps[i].1)
            && (forall k :: 0 <= k < |gs| && (forall i :: 0 <= i < |ps| ==> ps[i].0 != k) ==> r[k] == gs[k])
    decreases |ps|
  {
    if ps != [] {
      var rest := ps[1..];
      var gs' := gs[ps[0].0 := ps[0].1];
      assert forall i :: 0 <= i < |rest| ==> rest[i] == ps[i + 1];
      PatchesApply(gs', rest);
      var r := ApplyPatches(gs, ps).value;
      assert r[ps[0].0] == ps[0].1;
      forall i | 0 <= i < |ps| ensures r[ps[i].0] == ps[i].1 {
        if i > 0 { assert rest[i - 1] == ps[i]; }
      }
    }
  }

  lemma PatchesRestore(gs: seq<nat>, w: nat, zs: seq<u32>)
    requires forall i :: 0 <= i < |gs| ==> gs[i] <= MAX_U32
    requires zs == Zeroed(gs, w)
    ensures GoodPatches(Patches(gs, Exceptions(gs, w)), |gs|)
    ensures ApplyPatches(zs, Patches(gs, Exceptions(gs, w))) == Some(gs)
  {
    hide Exceptions, Patches, Zeroed, ApplyPatches, Exceeds;
    var xs := Exceptions(gs, w);
    var ps := Patches(gs, xs);
    assert forall i :: 0 <= i < |ps| ==> ps[i].0 == xs[i] && zs[xs[i]] == 0;
    PatchesApply(zs, ps);
    var r := ApplyPatches(zs, ps).value;
    forall k | 0 <= k < |gs| ensures r[k] == gs[k] {
      if Exceeds(gs[k], w) {
        var i :| 0 <= i < |xs| && xs[i] == k;
        assert ps[i] == (k, gs[k]) && r[ps[i].0] == ps[i].1;
      } else {
        assert forall i :: 0 <= i < |ps| ==> ps[i].0 == xs[i] && Exceeds(gs[xs[i]], w);
      }
    }
    assert r == gs;
  }

  lemma {:induction false} ChainOfGaps(ps: seq<Posting>, prev: int)
    requires Increasing(ps, prev) && prev >= -1
    ensures Chain(prev, Gaps(ps, prev)) == Docids(ps)
  {
    if ps != [] {
      ChainOfGaps(ps[1..], ps[0].docid);
      assert Docids(ps) == [ps[0].docid] + Docids(ps[1..]);
    }
  }

  lemma {:induction false} ChainIncreases(prev: int, gs: seq<nat>, ds: seq<int>)
    requires ds == Chain(prev, gs)
    ensures forall i :: 0 <= i < |ds| ==> prev < ds[i]
    ensures forall i, j :: 0 <= i < j < |ds| ==> ds[i] < ds[j]
    decreases |gs|
  {
    if gs != [] {
      ChainIncreases(prev + gs[0] + 1, gs[1..], ds[1..]);
    }
  }

  lemma MasksRead(ps: seq<Posting>, h: Head, rest: seq<byte>)
    requires h.n == |ps| && (h.HasMasks() <==> Mixed(ps))
    requires forall i :: 0 <= i < |ps| ==> GoodPosting(ps[i])
    ensures ReadMasks(MaskBytes(ps) + rest, h) == Ok(Masks(ps))
  {
    var data := MaskBytes(ps) + rest;
    if Mixed(ps) {
      assert data[..h.n] == Masks(ps);
      assert forall i :: 0 <= i < h.n ==> data[i] == ps[i].mask && GoodPosting(ps[i]);
    } else {
      assert seq(h.n, _ => 1) == Masks(ps);
    }
  }

  lemma GapsCons(data: seq<byte>, gs: seq<u32>, tail: seq<byte>, rest: nat, used: nat)
    requires gs != [] && data == Uvarint(gs[0]) + tail && used == |Uvarint(gs[0])| + rest
    requires ReadGaps(tail, |gs[1..]|) == Ok((gs[1..], rest))
    ensures ReadGaps(data, |gs|) == Ok((gs, used))
  {
    hide Uvarint, ReadUvarint;
    UvarintRoundTrip(gs[0], tail);
    assert data[|Uvarint(gs[0])|..] == tail && [gs[0]] + gs[1..] == gs;
  }

  lemma {:induction false} GapsRead(gs: seq<u32>, rest: seq<byte>)
    ensures ReadGaps(Uvarints(gs) + rest, |gs|) == Ok((gs, |Uvarints(gs)|))
  {
    hide Uvarint;
    if gs != [] {
      hide ReadGaps;
      GapsRead(gs[1..], rest);
      Concat3(Uvarint(gs[0]), Uvarints(gs[1..]), rest);
      GapsCons(Uvarints(gs) + rest, gs, Uvarints(gs[1..]) + rest, |Uvarints(gs[1..])|, |Uvarints(gs)|);
    }
  }

  /** What decoding an encoded block must give. */
  function Decoded(ps: seq<Posting>, h: Head, used: nat): Block {
    Block(h, Docids(ps), Tfs(ps), Masks(ps), used)
  }

  lemma FinishFrom(data: seq<byte>, prev: int, h: Head, body: Body, ds: seq<u32>, masks: seq<byte>)
    requires |body.gaps| == h.n == |body.tfs| && body.used <= |data| && h.n > 0
    requires Chain(prev, body.gaps) == ds && ds[h.n - 1] == h.last
    requires ReadMasks(data[body.used..], h) == Ok(masks)
    requires forall i :: 0 <= i < h.n ==> body.tfs[i] != 0
    ensures Finish(data, prev, h, body)
         == Ok(Block(h, ds, body.tfs, masks, HEADER_SIZE + body.used + (if h.HasMasks() then h.n else 0)))
  {
  }

  lemma FinishReads(ps: seq<Posting>, prev: int, h: Head, body: Body, front: seq<byte>, rest: seq<byte>)
    requires ValidBlock(ps, prev)
    requires h.n == |ps| && h.last == ps[|ps| - 1].docid && (h.HasMasks() <==> Mixed(ps))
    requires body == Body(Gaps(ps, prev), Tfs(ps), |front|)
    ensures Finish(front + MaskBytes(ps) + rest, prev, h, body)
         == Ok(Decoded(ps, h, HEADER_SIZE + |front| + |MaskBytes(ps)|))
  {
    hide Finish, Chain, ReadMasks, Masks, Mixed, Gaps, Increasing, Docids, Tfs;
    ChainOfGaps(ps, prev);
    var data := front + MaskBytes(ps) + rest;
    Concat3(front, MaskBytes(ps), rest);
    MasksRead(ps, h, rest);
    assert forall i :: 0 <= i < |ps| ==> GoodPosting(ps[i]);
    FinishFrom(data, prev, h, body, Docids(ps), Masks(ps));
  }

  function TailHead(ps: seq<Posting>): Head
    requires 1 <= |ps| <= BLOCK_LEN
  {
    Head(ps[|ps| - 1].docid, BlockImpact(ps), 0, 2 + (if Mixed(ps) then 1 else 0), |ps|)
  }

  lemma BlockFrom(data: seq<byte>, prev: int, h: Head, payload: seq<byte>, body: Body, b: Block)
    requires |data| >= HEADER_SIZE && ReadHead(data) == h && data[HEADER_SIZE..] == payload && prev >= -1
    requires CheckHead(h) == None
    requires (if h.Tail() then DecodeTail(payload, h) else DecodeFor(payload, h)) == Ok(body)
    requires Finish(payload, prev, h, body) == Ok(b)
    ensures DecodeBlock(data, prev) == Ok(b)
  {
  }

  lemma TailReads(gs: seq<u32>, tfs: seq<byte>, h: Head, rest: seq<byte>)
    requires h.n == |gs| == |tfs| && h.widths == 0 && h.NPatch() == 0
    ensures DecodeTail(Uvarints(gs) + tfs + rest, h) == Ok(Body(gs, tfs, |Uvarints(gs)| + |tfs|))
  {
    hide Uvarints, ReadGaps;
    GapsRead(gs, tfs + rest);
    var data := Uvarints(gs) + tfs + rest;
    assert data == Uvarints(gs) + (tfs + rest);
    assert data[|Uvarints(gs)|..|Uvarints(gs)| + h.n] == tfs;
  }

  /** A block laid out as header, front and masks, which decode as given, decodes as a whole. */
  lemma BlockReads(ps: seq<Posting>, prev: int, h: Head, front: seq<byte>, rest: seq<byte>)
    requires ValidBlock(ps, prev) && CheckHead(h) == None
    requires h.n == |ps| && h.last == ps[|ps| - 1].docid && (h.HasMasks() <==> Mixed(ps))
    requires var payload := front + (MaskBytes(ps) + rest);
             (if h.Tail() then DecodeTail(payload, h) else DecodeFor(payload, h))
               == Ok(Body(Gaps(ps, prev), Tfs(ps), |front|))
    ensures var bytes := Header(h.last, h.impact, h.widths, h.flags, h.n) + front + MaskBytes(ps);
            DecodeBlock(bytes + rest, prev) == Ok(Decoded(ps, h, |bytes|))
  {
    hide Header, DecodeTail, DecodeFor, DecodeBlock, Finish, Increasing, CheckHead, ReadHead;
    var head, masks := Header(h.last, h.impact, h.widths, h.flags, h.n), MaskBytes(ps);
    var payload := front + masks + rest;
    Concat3(front, masks, rest);
    Concat4(head, front, masks, rest);
    HeadReads(h.last, h.impact, h.widths, h.flags, h.n, payload);
    var body := Body(Gaps(ps, prev), Tfs(ps), |front|);
    FinishReads(ps, prev, h, body, front, rest);
    BlockFrom(head + payload, prev, h, payload, body, Decoded(ps, h, HEADER_SIZE + |front| + |masks|));
  }

  lemma TailRoundTrip(ps: seq<Posting>, prev: int, rest: seq<byte>)
    requires ValidBlock(ps, prev)
    ensures DecodeBlock(TailBytes(ps, prev) + rest, prev)
         == Ok(Decoded(ps, TailHead(ps), |TailBytes(ps, prev)|))
  {
    hide Header, DecodeTail, DecodeFor, DecodeBlock, Finish, Increasing, ReadHead, Uvarints, Gaps, Mixed, MaskBytes, BlockImpact;
    var h := TailHead(ps);
    var front := Uvarints(Gaps(ps, prev)) + Tfs(ps);
    TailReads(Gaps(ps, prev), Tfs(ps), h, MaskBytes(ps) + rest);
    Concat4(Uvarints(Gaps(ps, prev)), Tfs(ps), MaskBytes(ps), rest);
    BlockReads(ps, prev, h, front, rest);
    Concat4(Header(h.last, h.impact, h.widths, h.flags, h.n), Uvarints(Gaps(ps, prev)), Tfs(ps), MaskBytes(ps));
    Concat3(Header(h.last, h.impact, h.widths, h.flags, h.n), front, MaskBytes(ps));
    Concat3(Uvarints(Gaps(ps, prev)), Tfs(ps), MaskBytes(ps));
  }

  function ForHead(ps: seq<Posting>, prev: int): Head
    requires ValidBlock(ps, prev) && |ps| == BLOCK_LEN
  {
    var gs := Gaps(ps, prev);
    var c := BestWidth(gs);
    Head(ps[|ps| - 1].docid, BlockImpact(ps), c + 16 * BitLen8(TfMax(ps)),
         4 * |Misfits(gs, c)| + (if Mixed(ps) then 1 else 0), |ps|)
  }

  lemma ZeroedFit(gs: seq<nat>, w: nat)
    requires forall i :: 0 <= i < |gs| ==> gs[i] <= MAX_U32
    requires w <= 32
    ensures Fits(Pow2(w), Zeroed(gs, w))
  {
    Pow2Of32();
  }

  lemma TfsFit(ps: seq<Posting>)
    requires forall i :: 0 <= i < |ps| ==> GoodPosting(ps[i])
    ensures Fits(Pow2(BitLen8(TfMax(ps))), TfsLess1(ps))
  {
  }

  lemma ForBodyFrom(data: seq<byte>, n: nat, w: nat, tfw: nat, pb: seq<(nat, nat)>, zs: seq<u32>, less: seq<nat>, body: Body)
    requires w in WIDTHS && tfw <= 8 && |data| >= PackedLen(n, w) + PackedLen(n, tfw)
    requires n == |zs| == |less| && GoodPatches(pb, n)
    requires Unpacked(data, n, w) == zs && Unpacked(data[PackedLen(n, w)..], n, tfw) == less
    requires body.used == 5 * |pb| + PackedLen(n, w) + PackedLen(n, tfw) && PatchBody(zs, less, pb, body.used) == Ok(body)
    ensures ForBody(data, n, w, tfw, pb) == Ok(body)
  {
    hide PatchBody, Unpacked, PackedLen, PatchesInOrder;
  }

  lemma PatchBodyFrom(zs: seq<u32>, less: seq<nat>, pb: seq<(nat, nat)>, gs: seq<u32>, tfs: seq<byte>, used: nat)
    requires |less| == |tfs| && forall i :: 0 <= i < |tfs| ==> less[i] + 1 == tfs[i]
    requires GoodPatches(pb, |zs|) && ApplyPatches(zs, pb) == Some(gs)
    ensures PatchBody(zs, less, pb, used) == Ok(Body(gs, tfs, used))
  {
    assert forall i :: 0 <= i < |tfs| ==> less[i] + 1 == tfs[i] <= 255;
    assert AddOne(less) == tfs;
  }

  lemma PackedPartsRead(zs: seq<nat>, w: nat, tfw: nat, less: seq<nat>, rest: seq<byte>)
    requires |less| == |zs| && Fits(Pow2(w), zs) && Fits(Pow2(tfw), less)
    ensures var G, T := Packed(zs, w), Packed(less, tfw);
            && Unpacked(G + (T + rest), |zs|, w) == zs
            && Unpacked((G + (T + rest))[PackedLen(|zs|, w)..], |zs|, tfw) == less
  {
    var G, T := Packed(zs, w), Packed(less, tfw);
    PackRoundTrip(zs, w, T + rest);
    PackRoundTrip(less, tfw, rest);
    assert (G + (T + rest))[|G|..] == T + rest;
  }

  /** The packed part of a block: patches, gaps and tfs. */
  function ForFront(gs: seq<u32>, c: nat, less: seq<nat>, tfw: nat): (bs: seq<byte>)
    requires c < 16 && forall i :: 0 <= i < |Misfits(gs, c)| ==> Misfits(gs, c)[i] < 0x100
    ensures |bs| == 5 * |Misfits(gs, c)| + PackedLen(|gs|, WIDTHS[c]) + PackedLen(|less|, tfw)
  {
    PatchBytes(Patches(gs, Misfits(gs, c))) + Packed(Zeroed(gs, WIDTHS[c]), WIDTHS[c]) + Packed(less, tfw)
  }

  lemma DecodeForFrom(data: seq<byte>, h: Head, pb: seq<(nat, nat)>, payload: seq<byte>, body: Body)
    requires h.TfWidth() <= 8 && h.NPatch() == |pb| <= MAX_PATCHES && |data| >= 5 * |pb|
    requires ReadPatches(data, |pb|) == pb && PatchesInOrder(pb, h.n)
    requires data[5 * |pb|..] == payload
    requires |payload| >= PackedLen(h.n, WIDTHS[h.Widx()]) + PackedLen(h.n, h.TfWidth())
    requires forall i :: 0 <= i < |pb| ==> pb[i].1 <= MAX_U32
    requires ForBody(payload, h.n, WIDTHS[h.Widx()], h.TfWidth(), pb) == Ok(body)
    ensures DecodeFor(data, h) == Ok(body)
  {
    hide ForBody, ReadPatches;
  }

  lemma BodyReads(gs: seq<u32>, h: Head, tfs: seq<byte>, less: seq<nat>, rest: seq<byte>)
    requires h.n == |gs| == |tfs| == |less| && h.TfWidth() <= 8
    requires h.NPatch() == |Misfits(gs, h.Widx())| <= MAX_PATCHES
    requires Fits(Pow2(h.TfWidth()), less)
    requires forall i :: 0 <= i < |tfs| ==> less[i] + 1 == tfs[i]
    ensures var front := ForFront(gs, h.Widx(), less, h.TfWidth());
            DecodeFor(front + rest, h) == Ok(Body(gs, tfs, |front|))
  {
    var w, tfw := WIDTHS[h.Widx()], h.TfWidth();
    var pb := Patches(gs, Misfits(gs, h.Widx()));
    var zs: seq<u32> := Zeroed(gs, w);
    ZeroedFit(gs, w);
    PatchesRestore(gs, w, zs);
    assert forall i :: 0 <= i < |pb| ==> pb[i].0 < h.n;
    PartsRead(h, pb, zs, gs, less, tfs, rest);
  }

  lemma PartsRead(h: Head, pb: seq<(nat, nat)>, zs: seq<u32>, gs: seq<u32>, less: seq<nat>, tfs: seq<byte>,
                  rest: seq<byte>)
    requires h.n == |gs| == |tfs| == |less| == |zs| && h.TfWidth() <= 8 && h.NPatch() == |pb| <= MAX_PATCHES
    requires GoodPatches(pb, |zs|) && ApplyPatches(zs, pb) == Some(gs)
    requires forall i :: 0 <= i < |pb| ==> pb[i].0 < 0x100
    requires Fits(Pow2(h.TfWidth()), less) && Fits(Pow2(WIDTHS[h.Widx()]), zs)
    requires forall i :: 0 <= i < |tfs| ==> less[i] + 1 == tfs[i]
    ensures var front := PatchBytes(pb) + Packed(zs, WIDTHS[h.Widx()]) + Packed(less, h.TfWidth());
            DecodeFor(front + rest, h) == Ok(Body(gs, tfs, |front|))
  {
    hide Packed, PatchBytes, ApplyPatches, PackedLen, ReadPatches, ForBody, DecodeFor, PatchesInOrder, Fits, Pow2;
    var w, tfw := WIDTHS[h.Widx()], h.TfWidth();
    var P, G, T := PatchBytes(pb), Packed(zs, w), Packed(less, tfw);
    var payload := G + (T + rest);
    ConcatNested(P, G, T, rest);
    PatchesRead(pb, payload);
    var body := Body(gs, tfs, |P + G + T|);
    PayloadReads(zs, w, tfw, less, pb, rest, body);
    DecodeForFrom(P + payload, h, pb, payload, body);
  }

  lemma PayloadReads(zs: seq<u32>, w: nat, tfw: nat, less: seq<nat>, pb: seq<(nat, nat)>, rest: seq<byte>, body: Body)
    requires w in WIDTHS && tfw <= 8 && |less| == |zs| == |body.tfs| && GoodPatches(pb, |zs|)
    requires ApplyPatches(zs, pb) == Some(body.gaps) && forall i :: 0 <= i < |less| ==> less[i] + 1 == body.tfs[i]
    requires Fits(Pow2(w), zs) && Fits(Pow2(tfw), less)
    requires body.used == 5 * |pb| + PackedLen(|zs|, w) + PackedLen(|zs|, tfw)
    ensures ForBody(Packed(zs, w) + (Packed(less, tfw) + rest), |zs|, w, tfw, pb) == Ok(body)
  {
    hide Packed, Unpacked, ApplyPatches, PackedLen, ForBody, PatchesInOrder, Fits, Pow2, PatchBody;
    PackedPartsRead(zs, w, tfw, less, rest);
    PatchBodyFrom(zs, less, pb, body.gaps, body.tfs, body.used);
    ForBodyFrom(Packed(zs, w) + (Packed(less, tfw) + rest), |zs|, w, tfw, pb, zs, less, body);
  }

  lemma ForBytesLayout(ps: seq<Posting>, prev: int)
    requires ValidBlock(ps, prev) && |ps| == BLOCK_LEN
    ensures var gs: seq<u32> := Gaps(ps, prev);
            var h := ForHead(ps, prev);
            var front := ForFront(gs, BestWidth(gs), TfsLess1(ps), BitLen8(TfMax(ps)));
            ForBytes(ps, prev) == Header(h.last, h.impact, h.widths, h.flags, h.n) + front + MaskBytes(ps)
  {
    hide Packed, PatchBytes, PackedLen, Header, Misfits, Zeroed, BestWidth, BitLen8, TfMax, MaskBytes, Gaps, Increasing;
    var gs: seq<u32> := Gaps(ps, prev);
    var c, tfw := BestWidth(gs), BitLen8(TfMax(ps));
    var w := WIDTHS[c];
    Concat5(ForHeader(ps, gs), PatchBytes(Patches(gs, Misfits(gs, c))), Packed(Zeroed(gs, w), w),
            Packed(TfsLess1(ps), tfw), MaskBytes(ps));
  }

  lemma ForHeadChecks(ps: seq<Posting>, prev: int)
    requires ValidBlock(ps, prev) && |ps| == BLOCK_LEN
    ensures CheckHead(ForHead(ps, prev)) == None && !ForHead(ps, prev).Tail()
    ensures ForHead(ps, prev).HasMasks() <==> Mixed(ps)
  {
    hide BestWidth, BitLen8, TfMax, Misfits, BlockImpact, Gaps, Mixed, Increasing, GoodPosting;
  }

  lemma ForHeadParts(ps: seq<Posting>, prev: int)
    requires ValidBlock(ps, prev) && |ps| == BLOCK_LEN
    ensures var h, gs := ForHead(ps, prev), Gaps(ps, prev);
            && h.Widx() == BestWidth(gs) && h.TfWidth() == BitLen8(TfMax(ps)) && h.NPatch() == |Misfits(gs, BestWidth(gs))|
            && h.n == |ps| && h.last == ps[|ps| - 1].docid
  {
    hide BestWidth, BitLen8, TfMax, Misfits, BlockImpact, Gaps, Mixed, Increasing, GoodPosting;
  }

  lemma ForRoundTrip(ps: seq<Posting>, prev: int, rest: seq<byte>)
    requires ValidBlock(ps, prev) && |ps| == BLOCK_LEN
    ensures DecodeBlock(ForBytes(ps, prev) + rest, prev)
         == Ok(Decoded(ps, ForHead(ps, prev), |ForBytes(ps, prev)|))
  {
    hide Header, DecodeTail, DecodeFor, DecodeBlock, Increasing, Gaps, Mixed, MaskBytes, BestWidth, BitLen8, TfMax, Misfits,
      ForFront, ForBytes, ForHead, CheckHead, GoodPosting, Fits, Pow2;
    var h := ForHead(ps, prev);
    var gs: seq<u32> := Gaps(ps, prev);
    var c, tfw := BestWidth(gs), BitLen8(TfMax(ps));
    TfsFit(ps);
    ForHeadParts(ps, prev);
    ForHeadChecks(ps, prev);
    BodyReads(gs, h, Tfs(ps), TfsLess1(ps), MaskBytes(ps) + rest);
    BlockReads(ps, prev, h, ForFront(gs, c, TfsLess1(ps), tfw), rest);
    ForBytesLayout(ps, prev);
  }

  /** The codec's round trip, for either block form. */
  lemma BlockRoundTrip(ps: seq<Posting>, prev: int, rest: seq<byte>)
    requires ValidBlock(ps, prev)
    ensures var r := DecodeBlock(BlockBytes(ps, prev) + rest, prev);
            && r.Ok? && r.value.used == |BlockBytes(ps, prev)|
            && r.value.docids == Docids(ps) && r.value.tfs == Tfs(ps) && r.value.masks == Masks(ps)
            && r.value.head.n == |ps| && r.value.head.last == ps[|ps| - 1].docid
            && r.value.head.impact == BlockImpact(ps)
  {
    if |ps| == BLOCK_LEN {
      ForRoundTrip(ps, prev, rest);
    } else {
      TailRoundTrip(ps, prev, rest);
    }
  }

  lemma ForTfs(data: seq<byte>, h: Head)
    requires CheckHead(h) == None && !h.Tail() && DecodeFor(data, h).Ok?
    ensures var tfs := DecodeFor(data, h).value.tfs; forall i :: 0 <= i < |tfs| ==> tfs[i] != 0
  {
    hide Unpacked, UnpackedU32, ApplyPatches, PackedLen, ReadPatches, PatchesInOrder;
  }

  /** What Finish accepts: increasing docids past prev up to the header's, masks of known fields, no tf of 0 in a tail. */
  lemma FinishSound(data: seq<byte>, prev: int, h: Head, body: Body)
    requires |body.gaps| == h.n == |body.tfs| && body.used <= |data| && h.n > 0 && prev >= -1
    requires Finish(data, prev, h, body).Ok?
    ensures var b := Finish(data, prev, h, body).value;
            && b.head == h && |b.docids| == |b.masks| == h.n && b.tfs == body.tfs && b.used <= HEADER_SIZE + |data|
            && prev < b.docids[0] && b.docids[h.n - 1] == h.last
            && (forall i, j :: 0 <= i < j < |b.docids| ==> b.docids[i] < b.docids[j])
            && (forall i :: 0 <= i < |b.docids| ==> 1 <= b.masks[i] <= MAX_FIELD_MASK)
            && (h.Tail() ==> forall i :: 0 <= i < h.n ==> b.tfs[i] != 0)
  {
    hide Chain;
    ChainIncreases(prev, body.gaps, Chain(prev, body.gaps));
  }

  /** Whatever the bytes, what the decoder accepts is a valid run of postings past prev. */
  lemma DecodeSound(data: seq<byte>, prev: int)
    requires prev >= -1 && DecodeBlock(data, prev).Ok?
    ensures var b := DecodeBlock(data, prev).value;
            && 1 <= b.head.n <= BLOCK_LEN && |b.docids| == |b.tfs| == |b.masks| == b.head.n
            && b.used <= |data|
            && prev < b.docids[0] && b.docids[b.head.n - 1] == b.head.last
            && (forall i, j :: 0 <= i < j < |b.docids| ==> b.docids[i] < b.docids[j])
            && (forall i :: 0 <= i < |b.docids| ==> b.tfs[i] != 0 && 1 <= b.masks[i] <= MAX_FIELD_MASK)
  {
    hide ReadHead, DecodeTail, DecodeFor, Finish;
    var rest := data[HEADER_SIZE..];
    var h := ReadHead(data);
    var body := (if h.Tail() then DecodeTail(rest, h) else DecodeFor(rest, h)).value;
    if !h.Tail() {
      ForTfs(rest, h);
    }
    FinishSound(rest, prev, h, body);
  }

  // ----- block size -----

  lemma {:induction false} UvarintAtMost5(v: nat)
    requires v <= MAX_U32
    ensures |Uvarint(v)| <= 5
  {
    assert v / 0x80 / 0x80 / 0x80 / 0x80 < 0x80;
    assert |Uvarint(v / 0x80 / 0x80 / 0x80 / 0x80)| == 1;
    assert |Uvarint(v / 0x80 / 0x80 / 0x80)| <= 2;
    assert |Uvarint(v / 0x80 / 0x80)| <= 3;
    assert |Uvarint(v / 0x80)| <= 4;
  }

  lemma {:induction false} UvarintsAtMost(gs: seq<nat>)
    requires forall i :: 0 <= i < |gs| ==> gs[i] <= MAX_U32
    ensures |Uvarints(gs)| <= 5 * |gs|
  {
    if gs != [] {
      UvarintAtMost5(gs[0]);
      UvarintsAtMost(gs[1..]);
    }
  }

  lemma ForSize(ps: seq<Posting>, prev: int)
    requires ValidBlock(ps, prev) && |ps| == BLOCK_LEN
    ensures HEADER_SIZE <= |ForBytes(ps, prev)| <= 776
  {
    var gs := Gaps(ps, prev);
    var c, tfw := BestWidth(gs), BitLen8(TfMax(ps));
    CheapestIsSmall(gs);
    assert Times(128, tfw) <= 1024;
    assert |Packed(TfsLess1(ps), tfw)| == PackedLen(128, tfw) <= 128;
    assert |MaskBytes(ps)| <= 128;
    assert |ForBytes(ps, prev)| == 8 + Size(gs, c) + PackedLen(128, tfw) + |MaskBytes(ps)|;
  }

  lemma CheapestIsSmall(gs: seq<nat>)
    requires |gs| == 128
    ensures Size(gs, BestWidth(gs)) <= 512
  {
    assert Costs(gs)[BestWidth(gs)] <= Costs(gs)[15];
    assert Times(128, 32) == 4096;
  }

  lemma TailSize(ps: seq<Posting>, prev: int)
    requires ValidBlock(ps, prev) && |ps| < BLOCK_LEN
    ensures HEADER_SIZE < |TailBytes(ps, prev)| <= 8 + 7 * |ps|
  {
    UvarintsAtMost(Gaps(ps, prev));
    assert |MaskBytes(ps)| <= |ps|;
    assert |Tfs(ps)| == |ps|;
  }

  /** No block is over 897 bytes: a varint tail of 127 entries at 5 + 1 + 1 bytes each, and the header. */
  lemma BlockSize(ps: seq<Posting>, prev: int)
    requires ValidBlock(ps, prev)
    ensures HEADER_SIZE <= |BlockBytes(ps, prev)| <= 897
  {
    if |ps| == BLOCK_LEN {
      ForSize(ps, prev);
    } else {
      TailSize(ps, prev);
    }
  }
}
