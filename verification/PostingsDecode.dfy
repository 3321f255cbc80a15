/** DecodePostingsBlock of hotfmt/postings.go: it fills the caller's three arrays in place. */
module PostingsDecode {
  import opened Bytes
  import opened BitPack
  import opened Postings

  /** The gap loop of a varint tail block. */
  method ReadGapsInto(data: seq<byte>, n: nat, docids: array<u32>) returns (r: Result<nat, PostingsError>)
    requires n <= docids.Length
    modifies docids
    ensures match ReadGaps(data, n)
            case Err(e) => r == Err(e)
            case Ok((gs, used)) => r == Ok(used) && docids[..n] == gs
  {
    var pos := 0;
    hide ReadGaps, ReadUvarint;
    assert data[0..] == data && docids[..0] == [];
    PrependNothing(data, n);
    for i := 0 to n
      invariant pos <= |data|
      invariant ReadGaps(data, n) == Prepend(docids[..i], pos, ReadGaps(data[pos..], n - i))
    {
      ReadGapsStep(data[pos..], n - i);
      match ReadUvarint(data[pos..]) {
        case Err(_) => return Err(BadGapVarint);
        case Ok((g, gn)) =>
          if g > MAX_U32 {
            return Err(GapTooWide);
          }
          PrependStep(docids[..i], pos, data, n - i);
          docids[i] := g;
          assert docids[..i + 1] == docids[..i] + [g];
          pos := pos + gn;
      }
    }
    ReadNoGaps(data[pos..]);
    assert docids[..n] + [] == docids[..n];
    return Ok(pos);
  }

  lemma PrependNothing(data: seq<byte>, n: nat)
    ensures ReadGaps(data, n) == Prepend([], 0, ReadGaps(data, n))
  {
    match ReadGaps(data, n) {
      case Err(_) =>
      case Ok((gs, _)) => assert [] + gs == gs;
    }
  }

  lemma ReadNoGaps(data: seq<byte>)
    ensures ReadGaps(data, 0) == Ok(([], 0))
  {
  }

  lemma ReadGapsStep(data: seq<byte>, n: nat)
    requires n > 0
    ensures match ReadUvarint(data)
            case Err(_) => ReadGaps(data, n) == Err(BadGapVarint)
            case Ok((g, gn)) => g > MAX_U32 ==> ReadGaps(data, n) == Err(GapTooWide)
  {
  }

  function Prepend(gs: seq<u32>, pos: nat, r: Result<(seq<u32>, nat), PostingsError>)
    : Result<(seq<u32>, nat), PostingsError>
  {
    match r
    case Err(e) => Err(e)
    case Ok((rest, used)) => Ok((gs + rest, pos + used))
  }

  lemma GapsOne(data: seq<byte>, n: nat)
    requires n > 0 && ReadUvarint(data).Ok? && ReadUvarint(data).value.0 <= MAX_U32
    ensures var (g, gn) := ReadUvarint(data).value;
            gn <= |data| && ReadGaps(data, n) == Prepend([g], gn, ReadGaps(data[gn..], n - 1))
  {
    hide ReadUvarint;
  }

  lemma PrependTwice(a: seq<u32>, i: nat, b: seq<u32>, j: nat, r: Result<(seq<u32>, nat), PostingsError>)
    ensures Prepend(a, i, Prepend(b, j, r)) == Prepend(a + b, i + j, r)
  {
    if r.Ok? {
      assert a + (b + r.value.0) == (a + b) + r.value.0;
    }
  }

  lemma PrependStep(gs: seq<u32>, pos: nat, data: seq<byte>, n: nat)
    requires n > 0 && pos <= |data| && ReadUvarint(data[pos..]).Ok?
    requires ReadUvarint(data[pos..]).value.0 <= MAX_U32
    ensures var (g, gn) := ReadUvarint(data[pos..]).value;
            Prepend(gs, pos, ReadGaps(data[pos..], n)) == Prepend(gs + [g], pos + gn, ReadGaps(data[pos + gn..], n - 1))
  {
    hide ReadUvarint, ReadGaps, Prepend;
    var (g, gn) := ReadUvarint(data[pos..]).value;
    GapsOne(data[pos..], n);
    assert data[pos..][gn..] == data[pos + gn..];
    PrependTwice(gs, pos, [g], gn, ReadGaps(data[pos + gn..], n - 1));
  }

  /** copy(tfs, rest[:n]) */
  method CopyInto(data: seq<byte>, pos: nat, n: nat, tfs: array<byte>)
    requires pos + n <= |data| && n <= tfs.Length
    modifies tfs
    ensures tfs[..n] == data[pos..pos + n]
  {
    for i := 0 to n
      invariant tfs[..i] == data[pos..pos + i]
    {
      tfs[i] := data[pos + i];
    }
  }

  method DecodeTailInto(data: seq<byte>, h: Head, docids: array<u32>, tfs: array<byte>)
    returns (r: Result<nat, PostingsError>)
    requires h.n <= docids.Length && h.n <= tfs.Length
    modifies docids, tfs
    ensures match DecodeTail(data, h)
            case Err(e) => r == Err(e)
            case Ok(b) => r == Ok(b.used) && docids[..h.n] == b.gaps && tfs[..h.n] == b.tfs
  {
    hide ReadGaps;
    if h.widths != 0 || h.NPatch() != 0 {
      return Err(TailWithWidths);
    }
    var gaps := ReadGapsInto(data, h.n, docids);
    label Gaps:
    if gaps.Err? {
      return Err(gaps.error);
    }
    var pos := gaps.value;
    if |data| < pos + h.n {
      return Err(Truncated);
    }
    CopyInto(data, pos, h.n, tfs);
    assert docids[..h.n] == old@Gaps(docids[..h.n]);
    return Ok(pos + h.n);
  }

  /** The patch-parsing loop: position, value, and the strictly increasing check. */
  method ParsePatches(data: seq<byte>, np: nat, n: nat) returns (r: Result<seq<(nat, nat)>, PostingsError>)
    requires |data| >= 5 * np
    ensures r == if PatchesInOrder(ReadPatches(data, np), n) then Ok(ReadPatches(data, np)) else Err(PatchOrder)
  {
    hide U32;
    var ps: seq<(nat, nat)> := [];
    ghost var all := ReadPatches(data, np);
    for i := 0 to np
      invariant ps == all[..i] && PatchesInOrder(ps, n)
    {
      var p: (nat, nat) := (data[5 * i], U32(data[5 * i + 1..]));
      assert all[i] == p && all[..i + 1] == all[..i] + [p];
      if p.0 >= n || (i > 0 && p.0 <= ps[i - 1].0) {
        assert i > 0 && p.0 < n ==> all[i].0 <= all[i - 1].0;
        return Err(PatchOrder);
      }
      ps := ps + [p];
    }
    assert all[..np] == all;
    return Ok(ps);
  }

  /** The patch-applying loop. */
  method ApplyInto(ps: seq<(nat, nat)>, n: nat, docids: array<u32>) returns (r: Result<(), PostingsError>)
    requires n <= docids.Length && PatchesInOrder(ps, n) && forall i :: 0 <= i < |ps| ==> ps[i].1 <= MAX_U32
    modifies docids
    ensures match ApplyPatches(old(docids[..n]), ps)
            case None => r == Err(PatchedSlotNotZero)
            case Some(gs) => r == Ok(()) && docids[..n] == gs
  {
    for i := 0 to |ps|
      invariant ApplyPatches(docids[..n], ps[i..]) == ApplyPatches(old(docids[..n]), ps)
    {
      assert ps[i..][0] == ps[i] && ps[i..][1..] == ps[i + 1..];
      if docids[ps[i].0] != 0 {
        return Err(PatchedSlotNotZero);
      }
      ghost var before: seq<nat> := docids[..n];
      docids[ps[i].0] := ps[i].1;
      assert docids[..n] == before[ps[i].0 := ps[i].1];
    }
    return Ok(());
  }

  /** The tf loop of a packed block. */
  method TfsInto(less: array<u32>, n: nat, tfs: array<byte>) returns (r: Result<(), PostingsError>)
    requires n <= less.Length && n <= tfs.Length
    modifies tfs
    ensures if forall i :: 0 <= i < n ==> less[i] <= 254 then r == Ok(()) && tfs[..n] == AddOne(less[..n])
            else r == Err(TfTooLarge)
  {
    for i := 0 to n
      invariant forall j :: 0 <= j < i ==> less[j] <= 254 && tfs[j] == less[j] + 1
    {
      if less[i] > 254 {
        return Err(TfTooLarge);
      }
      tfs[i] := less[i] + 1;
    }
    return Ok(());
  }

  /** The packed gaps and tfs into the arrays, and the patches over them. */
  method ForBodyInto(data: seq<byte>, n: nat, w: nat, tfw: nat, pb: seq<(nat, nat)>, docids: array<u32>, tfs: array<byte>)
    returns (r: Result<nat, PostingsError>)
    requires w in WIDTHS && tfw <= 8 && |data| >= PackedLen(n, w) + PackedLen(n, tfw)
    requires n <= BLOCK_LEN && n <= docids.Length && n <= tfs.Length
    requires PatchesInOrder(pb, n) && forall i :: 0 <= i < |pb| ==> pb[i].1 <= MAX_U32
    modifies docids, tfs
    ensures match ForBody(data, n, w, tfw, pb)
            case Err(e) => r == Err(e)
            case Ok(b) => r == Ok(b.used) && docids[..n] == b.gaps && tfs[..n] == b.tfs
  {
    hide Unpacked, ApplyPatches, PackedLen, PatchesInOrder;
    Unpack(data, docids, n, w);
    var less := new u32[BLOCK_LEN];
    Unpack(data[PackedLen(n, w)..], less, n, tfw);
    ghost var gaps := docids[..n];
    ghost var lessVals := less[..n];
    assert gaps == UnpackedU32(data, n, w);
    assert lessVals == Unpacked(data[PackedLen(n, w)..], n, tfw);
    assert forall i :: 0 <= i < n ==> less[i] == lessVals[i];
    var tf := TfsInto(less, n, tfs);
    if tf.Err? {
      return Err(tf.error);
    }
    assert docids[..n] == gaps;
    ghost var tfVals := tfs[..n];
    var p := ApplyInto(pb, n, docids);
    assert tfs[..n] == tfVals;
    if p.Err? {
      return Err(p.error);
    }
    return Ok(5 * |pb| + PackedLen(n, w) + PackedLen(n, tfw));
  }

  method DecodeForInto(data: seq<byte>, h: Head, docids: array<u32>, tfs: array<byte>)
    returns (r: Result<nat, PostingsError>)
    requires h.n <= BLOCK_LEN && h.n <= docids.Length && h.n <= tfs.Length
    modifies docids, tfs
    ensures match DecodeFor(data, h)
            case Err(e) => r == Err(e)
            case Ok(b) => r == Ok(b.used) && docids[..h.n] == b.gaps && tfs[..h.n] == b.tfs
  {
    hide ReadPatches, ForBody, PackedLen, PatchesInOrder;
    var np, tfw, w := h.NPatch(), h.TfWidth(), WIDTHS[h.Widx()];
    if tfw > 8 {
      return Err(TfWidth);
    }
    if np > MAX_PATCHES {
      return Err(TooManyPatches);
    }
    if |data| < 5 * np {
      return Err(Truncated);
    }
    var pb := ParsePatches(data, np, h.n);
    if pb.Err? {
      return Err(pb.error);
    }
    if |data| < 5 * np + PackedLen(h.n, w) + PackedLen(h.n, tfw) {
      return Err(Truncated);
    }
    r := ForBodyInto(data[5 * np..], h.n, w, tfw, pb.value, docids, tfs);
  }

  /** The loop that turns gaps into docids in place. */
  method ChainInto(prev0: int, n: nat, docids: array<u32>) returns (r: Result<(), PostingsError>)
    requires prev0 >= -1 && n <= docids.Length
    modifies docids
    ensures var ds := Chain(prev0, old(docids[..n]));
            if ChainOk(ds) then r == Ok(()) && docids[..n] == ds else r == Err(DocidOverflow)
  {
    hide Chain;
    var prev := prev0;
    ghost var gaps := docids[..n];
    ghost var ds := Chain(prev0, gaps);
    assert docids[0..n] == docids[..n];
    for i := 0 to n
      invariant prev >= -1
      invariant docids[i..n] == gaps[i..]
      invariant ds == docids[..i] + Chain(prev, gaps[i..])
    {
      ChainStep(prev, gaps[i..]);
      assert gaps[i..][0] == gaps[i] == docids[i] && gaps[i..][1..] == gaps[i + 1..];
      var next := prev + docids[i] + 1;
      assert ds[i] == next;
      if next > MAX_U32 {
        return Err(DocidOverflow);
      }
      ghost var before := docids[..i];
      docids[i] := next;
      assert docids[..i + 1] == before + [next];
      assert before + ([next] + Chain(next, gaps[i + 1..])) == docids[..i + 1] + Chain(next, gaps[i + 1..]);
      assert forall k :: i + 1 <= k < n ==> docids[k] == gaps[k];
      prev := next;
    }
    assert Chain(prev, []) == [] && ds == docids[..n];
    return Ok(());
  }

  lemma ChainStep(prev: int, gs: seq<nat>)
    requires gs != []
    ensures Chain(prev, gs) == [prev + gs[0] + 1] + Chain(prev + gs[0] + 1, gs[1..])
  {
  }

  /** The mask part. */
  method MasksInto(data: seq<byte>, h: Head, masks: array<byte>) returns (r: Result<(), PostingsError>)
    requires h.n <= masks.Length
    modifies masks
    ensures match ReadMasks(data, h)
            case Err(e) => r == Err(e)
            case Ok(ms) => r == Ok(()) && masks[..h.n] == ms
  {
    if h.HasMasks() {
      if |data| < h.n {
        return Err(Truncated);
      }
      for i := 0 to h.n
        invariant forall j :: 0 <= j < i ==> data[j] != 0 && data[j] <= MAX_FIELD_MASK && masks[j] == data[j]
      {
        if data[i] == 0 || data[i] > MAX_FIELD_MASK {
          return Err(BadMask);
        }
        masks[i] := data[i];
      }
    } else {
      for i := 0 to h.n
        invariant forall j :: 0 <= j < i ==> masks[j] == 1
      {
        masks[i] := 1;
      }
    }
    return Ok(());
  }

  method AnyZero(tfs: array<byte>, n: nat) returns (zero: bool)
    requires n <= tfs.Length
    ensures zero <==> exists i :: 0 <= i < n && tfs[i] == 0
  {
    for i := 0 to n
      invariant forall j :: 0 <= j < i ==> tfs[j] != 0
    {
      if tfs[i] == 0 {
        return true;
      }
    }
    zero := false;
  }

  /** DecodePostingsBlock: the header and the bytes consumed, and the block's columns in the three arrays. */
  method DecodePostingsBlock(data: seq<byte>, prev: int, docids: array<u32>, tfs: array<byte>, masks: array<byte>)
    returns (r: Result<(Head, nat), PostingsError>)
    requires prev >= -1 && docids.Length == tfs.Length == masks.Length == BLOCK_LEN && tfs != masks
    modifies docids, tfs, masks
    ensures match DecodeBlock(data, prev)
            case Err(e) => r == Err(e)
            case Ok(b) => && r == Ok((b.head, b.used)) && 1 <= b.head.n <= BLOCK_LEN
                          && |b.docids| == |b.tfs| == |b.masks| == b.head.n
                          && docids[..b.head.n] == b.docids
                          && tfs[..b.head.n] == b.tfs && masks[..b.head.n] == b.masks
  {
    hide DecodeTail, DecodeFor, Chain, ReadMasks, ChainOk;
    if |data| < HEADER_SIZE {
      return Err(Truncated);
    }
    var h := ReadHead(data);
    if h.n == 0 || h.n > BLOCK_LEN {
      return Err(BadEntryCount);
    }
    if !h.Tail() && h.n != BLOCK_LEN {
      return Err(ShortForBlock);
    }
    if h.flags >= 32 {
      return Err(UnknownFlag);
    }
    var rest := data[HEADER_SIZE..];
    var body;
    if h.Tail() {
      body := DecodeTailInto(rest, h, docids, tfs);
    } else {
      body := DecodeForInto(rest, h, docids, tfs);
    }
    if body.Err? {
      return Err(body.error);
    }
    ghost var spec := Body(docids[..h.n], tfs[..h.n], body.value);
    var chain := ChainInto(prev, h.n, docids);
    if chain.Err? {
      return Err(chain.error);
    }
    ghost var ds := docids[..h.n];
    assert ds[h.n - 1] == docids[h.n - 1];
    if docids[h.n - 1] != h.last {
      return Err(LastDocidMismatch);
    }
    var ms := MasksInto(rest[body.value..], h, masks);
    if ms.Err? {
      return Err(ms.error);
    }
    assert docids[..h.n] == ds && tfs[..h.n] == spec.tfs;
    if h.Tail() {
      var zero := AnyZero(tfs, h.n);
      assert forall i :: 0 <= i < h.n ==> tfs[i] == spec.tfs[i];
      if zero {
        return Err(ZeroTf);
      }
    }
    return Ok((h, HEADER_SIZE + body.value + (if h.HasMasks() then h.n else 0)));
  }
}
