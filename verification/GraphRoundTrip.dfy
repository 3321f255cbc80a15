/** Add, Seal, OpenGraphSegment and Walk as one: the sources that went in come out. */
module GraphRoundTrip {
  import opened Bytes
  import opened Format
  import opened GraphBlocks
  import opened GraphSegments
  import opened GraphReading
  import opened GraphLaws

  /** More than a source can take in a block: ten bytes for each number. */
  function Cost(s: Source): nat {
    20 + 10 * |s.dsts|
  }

  /** Sources in order, and no block that grows past the raw cap before it closes. */
  ghost predicate Roomy(v: seq<Source>, target: int) {
    && v != [] && ValidSources(v)
    && forall i :: 0 <= i < |v| ==> Cost(v[i]) <= 0x4000_0000 && target + Cost(v[i]) <= 0x4000_0000
  }

  // ----- how large a block gets -----

  /** A number below the nth power of 128 takes at most n bytes. */
  lemma {:induction false} UvarintWithin(v: nat, n: nat)
    requires n >= 1 && v < Pow(128, n)
    ensures |Uvarint(v)| <= n
    decreases n
  {
    if v >= 0x80 {
      assert n > 1 by {
        assert Pow(128, 1) == Times(128, Pow(128, 0));
      }
      QuotientBound(v, 128, Pow(128, n - 1));
      UvarintWithin(v / 0x80, n - 1);
    }
  }

  lemma NodeWithin(v: nat)
    requires v <= MAX_NODE + 1
    ensures |Uvarint(v)| <= 10
  {
    assert Pow(128, 2) == 0x4000 by {
      assert Pow(128, 1) == 128;
    }
    assert Pow(128, 4) == 0x1000_0000 by {
      assert Pow(128, 3) == 0x20_0000;
    }
    assert Pow(128, 6) == 0x400_0000_0000 by {
      assert Pow(128, 5) == 0x8_0000_0000;
    }
    UvarintWithin(v, 6);
  }

  lemma {:induction false} DstsWithin(ds: seq<nat>, prev: Option<nat>)
    requires forall i :: 0 <= i < |ds| ==> ds[i] <= MAX_NODE
    ensures |DstBytes(ds, prev)| <= 10 * |ds|
    decreases |ds|
  {
    if ds != [] {
      NodeWithin(if ds[0] >= Base(prev) then ds[0] - Base(prev) else 0);
      DstsWithin(ds[1..], Some(ds[0]));
    }
  }

  lemma SourceWithin(s: Source, prev: Option<nat>)
    requires s.id <= MAX_NODE && Rising(s.dsts)
    ensures |SourceBytes(s, prev)| <= Cost(s)
  {
    NodeWithin(if s.id >= Base(prev) then s.id - Base(prev) else 0);
    RisingCount(s.dsts);
    NodeWithin(|s.dsts|);
    DstsWithin(s.dsts, None);
  }

  lemma RawLast(b: seq<Source>)
    requires b != []
    ensures var init, prev := b[..|b| - 1], if |b| == 1 then None else Some(b[|b| - 2].id);
            |RawBytes(b, None)| == |RawBytes(init, None)| + |SourceBytes(b[|b| - 1], prev)|
  {
    hide SourceBytes, RawBytes;
    var init := b[..|b| - 1];
    assert b == init + [b[|b| - 1]];
    RawGrows(init, b[|b| - 1], None);
  }

  lemma BlockWithin(b: seq<Source>, target: int, cap: nat)
    requires Tight(b, target) && forall i :: 0 <= i < |b| ==> b[i].id <= MAX_NODE && Rising(b[i].dsts)
    requires forall i :: 0 <= i < |b| ==> Cost(b[i]) <= cap && target + Cost(b[i]) <= cap
    ensures |RawBytes(b, None)| <= cap
  {
    hide SourceBytes, RawBytes, Rising, Cost;
    RawLast(b);
    SourceWithin(b[|b| - 1], if |b| == 1 then None else Some(b[|b| - 2].id));
    RawOfNothing();
    assert |b| == 1 ==> b[..0] == [];
  }

  lemma RawOfNothing()
    ensures RawBytes([], None) == []
  {
  }

  lemma {:induction false} AreaWithin(bs: seq<seq<Source>>, n: nat, z: Zstd, crc: Checksum)
    requires n <= |bs| && Inverse(z) && forall i :: 0 <= i < n ==> |RawBytes(bs[i], None)| <= 0x4000_0000
    ensures |Area(bs, n, z, crc)| <= 0x4000_0010 * n
  {
    hide Framed, RawBytes, Inverse;
    if n > 0 {
      AreaWithin(bs, n - 1, z, crc);
      FrameRoundTrip(RawBytes(bs[n - 1], None), z, crc);
    }
  }

  /** Every edge takes a byte. */
  lemma {:induction false} EdgesInRaw(b: seq<Source>, prev: Option<nat>)
    ensures Edges(b) <= |RawBytes(b, prev)|
    decreases |b|
  {
    hide Uvarint, DstBytes;
    if b != [] {
      EdgesInRaw(b[1..], Some(b[0].id));
      DstsCost(b[0].dsts, None);
      assert b == [b[0]] + b[1..];
      EdgesConcat([b[0]], b[1..]);
      EdgesOfOne(b[0]);
    }
  }

  lemma EdgesOfOne(s: Source)
    ensures Edges([s]) == |s.dsts|
  {
    assert [s][..0] == [];
  }

  lemma {:induction false} EdgesWithin(bs: seq<seq<Source>>)
    requires forall i :: 0 <= i < |bs| ==> |RawBytes(bs[i], None)| <= 0x4000_0000
    ensures Edges(Flat(bs)) <= 0x4000_0000 * |bs|
  {
    hide RawBytes, Edges;
    if bs == [] {
      NoEdges();
    } else {
      var n := |bs| - 1;
      EdgesWithin(bs[..n]);
      EdgesConcat(Flat(bs[..n]), bs[n]);
      EdgesInRaw(bs[n], None);
    }
  }

  lemma NoEdges()
    ensures Edges([]) == 0
  {
  }

  lemma {:induction false} FewBlocks(bs: seq<seq<Source>>)
    requires Cut(bs)
    ensures |bs| <= |Flat(bs)|
  {
    if bs != [] {
      FewBlocks(bs[..|bs| - 1]);
    }
  }

  /** Any cut at the target into few enough blocks for the 32-bit footer length stays within the segment's format. */
  lemma CutIsSealable(bs: seq<seq<Source>>, v: seq<Source>, target: int, z: Zstd, crc: Checksum)
    requires CutOf(bs, v, target) && Roomy(v, target) && Inverse(z) && 25 * |bs| + 40 < 0x1_0000_0000
    ensures Sealable(bs, z, crc)
  {
    hide Flat, RawBytes, Area, Edges, Rising, Tight, Inverse, Cost;
    forall i | 0 <= i < |bs| ensures |RawBytes(bs[i], None)| <= 0x4000_0000 {
      var b, p := bs[i], |Flat(bs[..i])|;
      Places(bs, i, b, p);
      forall j | 0 <= j < |b|
        ensures b[j].id <= MAX_NODE && Rising(b[j].dsts)
        ensures Cost(b[j]) <= 0x4000_0000 && target + Cost(b[j]) <= 0x4000_0000
      {
        assert b[j] == v[p + j];
      }
      BlockWithin(b, target, 0x4000_0000);
    }
    SourceCount(v);
    AreaWithin(bs, |bs|, z, crc);
    EdgesWithin(bs);
  }

  /** At most 171,798,690 sources always make few enough blocks. */
  lemma FewSourcesSealable(v: seq<Source>, target: int, z: Zstd, crc: Checksum)
    requires Roomy(v, target) && Inverse(z) && |v| <= 171_798_690
    ensures forall bs :: CutOf(bs, v, target) ==> Sealable(bs, z, crc)
  {
    hide Flat, RawBytes, Edges, Rising, Tight, Inverse, Cost, Sealable, Roomy;
    forall bs | CutOf(bs, v, target) ensures Sealable(bs, z, crc) {
      FewBlocks(bs);
      CutIsSealable(bs, v, target, z, crc);
    }
  }

  /** A prefix of valid sources is valid, so every Add is taken. */
  lemma PrefixValid(v: seq<Source>, i: nat)
    requires ValidSources(v) && i < |v|
    ensures v[..i] + [v[i]] == v[..i + 1] && ValidSources(v[..i + 1])
  {
    hide Rising;
    assert forall j :: 0 <= j <= i ==> v[..i + 1][j] == v[j];
  }

  /**
   * Any valid sources, at any block target that cuts them into a segment within its format: adding them one by one, sealing,
   * opening and walking yields exactly them, in order.
   */
  method WriteAndWalk(v: seq<Source>, meta: Meta, target: int, z: Zstd, crc: Checksum)
    returns (r: Result<seq<Source>, GraphError>)
    requires v != [] && ValidSources(v) && Inverse(z)
    requires forall bs :: CutOf(bs, v, Effective(target)) ==> Sealable(bs, z, crc)
    ensures r == Ok(v)
  {
    hide ValidSources, SegmentBytes, OpenOf, WalkOf, Inverse, Sealable, Cut, Flat, Edges;
    var w := new GraphSegmentWriter(meta, target);
    for i := 0 to |v|
      invariant w.Valid() && w.Sources() == v[..i] && w.meta == meta && w.target == target
      invariant fresh(w)
    {
      PrefixValid(v, i);
      var bad := w.Add(v[i].id, v[i].dsts);
      assert Source(v[i].id, v[i].dsts) == v[i];
    }
    assert v[..|v|] == v;
    var sealed := w.Seal(z, crc);
    ghost var bs :| CutOf(bs, v, Effective(target)) && sealed.value == SegmentBytes(meta, bs, z, crc);
    SealedWalks(meta, bs, z, crc);
    var s := OpenGraphSegment(sealed.value, crc);
    r := Walk(s.value, z, crc);
  }

  /** The destinations of all sources, one source after the other. */
  function Targets(v: seq<Source>): seq<nat> {
    if v == [] then [] else v[0].dsts + Targets(v[1..])
  }

  /** The edge count that a segment stores, and that a walk is checked against. */
  lemma {:induction false} EdgesCount(v: seq<Source>)
    ensures Edges(v) == |Targets(v)|
  {
    if v != [] {
      EdgesCount(v[1..]);
      assert v == [v[0]] + v[1..] && [v[0]][..0] == [];
      EdgesConcat([v[0]], v[1..]);
      assert Edges([v[0]]) == Edges([]) + |v[0].dsts|;
    }
  }
}
