/** ParseSkips of hotfmt/skips.go: a region parses exactly when it is one that EncodeSkips writes. */
module SkipsParse {
  import opened Bytes
  import opened PostingsEncode
  import opened Skips

  datatype SkipL2 = SkipL2(lastDocid: u32, impact: byte, l1Index: u32)

  datatype ParseError = NoBlocks | WrongSize | OutOfOrder | NonzeroPadding | Disagrees

  /** data is the region of these entries, for a term with df postings. */
  ghost predicate IsRegion(data: seq<byte>, df: nat, l1: seq<SkipL1>, pos: seq<nat>) {
    |l1| == NumBlocks(df) && GoodSkips(l1, pos) && data == Region(l1, pos)
  }

  ghost predicate Encodable(data: seq<byte>, df: nat) {
    exists l1, pos :: IsRegion(data, df, l1, pos)
  }

  // ----- bytes read and written -----

  lemma WrittenBack(bs: seq<byte>, n: nat)
    requires |bs| == n
    ensures LE(n, FromLE(bs)) == bs
  {
    DigitsNum(0x100, bs, 0);
    assert Times(Pow(0x100, n), 0) == 0;
  }

  lemma L1WrittenBack(data: seq<byte>, i: nat)
    requires 10 * i + 10 <= |data|
    ensures L1Bytes(L1At(data, i)) == data[10 * i..10 * i + 10] && L1At(data, i).off <= MAX_U40
  {
    var e := data[10 * i..];
    WrittenBack(e[..4], 4);
    WrittenBack(e[5..][..5], 5);
    assert data[10 * i..10 * i + 10] == e[..4] + [e[4]] + e[5..][..5];
  }

  function PosAt(data: seq<byte>, nb: nat, i: nat): nat
    requires 10 * nb + 5 * i + 5 <= |data|
  {
    U40(data[10 * nb + 5 * i..])
  }

  lemma PosWrittenBack(data: seq<byte>, nb: nat, i: nat)
    requires 10 * nb + 5 * i + 5 <= |data|
    ensures LE(5, PosAt(data, nb, i)) == data[10 * nb + 5 * i..10 * nb + 5 * i + 5] && PosAt(data, nb, i) <= MAX_U40
  {
    var e := data[10 * nb + 5 * i..];
    WrittenBack(e[..5], 5);
    assert e[..5] == data[10 * nb + 5 * i..10 * nb + 5 * i + 5];
  }

  /** The second-level entry at the front of e. */
  function L2At(e: seq<byte>): SkipL2
    requires |e| >= 12
  {
    SkipL2(U32(e), e[4], U32(e[5..]))
  }

  predicate L2Matches(e: seq<byte>, l1: seq<SkipL1>, g: nat)
    requires |e| >= 12 && g < NumGroups(|l1|)
  {
    var s := Group(l1, g);
    L2At(e) == SkipL2(s[|s| - 1].lastDocid, MaxImpact(s), 32 * g % 0x1_0000_0000) && e[9] == 0 && e[10] == 0 && e[11] == 0
  }

  /** A 32-bit field holds v exactly when its bytes are v's. */
  lemma FieldIs(e: seq<byte>, v: u32)
    requires |e| >= 4
    ensures U32(e) == v <==> e[..4] == LE(4, v)
  {
    ByteBase();
    WrittenBack(e[..4], 4);
    NumDigits(0x100, 4, v);
  }

  /** The entry's fields and padding are right exactly when its bytes are. */
  lemma L2MatchesBytes(e: seq<byte>, l1: seq<SkipL1>, g: nat)
    requires |e| >= 12 && g < NumGroups(|l1|) && 32 * g < 0x1_0000_0000
    ensures L2Matches(e, l1, g) <==> e[..12] == L2Bytes(l1, g)
  {
    hide MaxImpact, Group, U32, LE;
    var s := Group(l1, g);
    var a, c, f := e[..4], e[5..][..4], e[9..12];
    var x, m := s[|s| - 1].lastDocid, MaxImpact(s);
    FieldIs(e, x);
    FieldIs(e[5..], 32 * g);
    assert e[..12] == a + [e[4]] + c + f;
    FourParts(a, e[4], c, f, LE(4, x), m, LE(4, 32 * g), [0, 0, 0]);
    assert f == [e[9], e[10], e[11]];
  }

  lemma FourParts(a: seq<byte>, b: byte, c: seq<byte>, f: seq<byte>, a': seq<byte>, b': byte, c': seq<byte>, f': seq<byte>)
    requires |a| == |a'| == 4 && |c| == |c'| == 4 && |f| == |f'| == 3
    ensures a + [b] + c + f == a' + [b'] + c' + f' <==> a == a' && b == b' && c == c' && f == f'
  {
    var s, s' := a + [b] + c + f, a' + [b'] + c' + f';
    assert s[..4] == a && s[4] == b && s[5..9] == c && s[9..12] == f;
    assert s'[..4] == a' && s'[4] == b' && s'[5..9] == c' && s'[9..12] == f';
  }

  lemma FrontSlice<T>(a: seq<T>, b: seq<T>, i: nat, j: nat)
    requires i <= j <= |a|
    ensures (a + b)[i..j] == a[i..j]
  {
  }

  lemma BackSlice<T>(a: seq<T>, b: seq<T>, i: nat, j: nat)
    requires i == |a| && j == |a + b|
    ensures (a + b)[i..j] == b
  {
  }

  lemma L2Last(l1: seq<SkipL1>, n: nat)
    requires n < NumGroups(|l1|)
    ensures L2Array(l1, n + 1) == L2Array(l1, n) + L2Bytes(l1, n)
    ensures L2Array(l1, n + 1)[12 * n..12 * n + 12] == L2Bytes(l1, n)
  {
    hide L2Bytes, NumGroups;
    BackSlice(L2Array(l1, n), L2Bytes(l1, n), 12 * n, 12 * n + 12);
  }

  lemma {:induction false} L2ArraySlice(l1: seq<SkipL1>, n: nat, g: nat)
    requires g < n <= NumGroups(|l1|)
    ensures L2Array(l1, n)[12 * g..12 * g + 12] == L2Bytes(l1, g)
  {
    hide L2Bytes, L2Array, NumGroups;
    L2Last(l1, n - 1);
    if g < n - 1 {
      L2ArraySlice(l1, n - 1, g);
      FrontSlice(L2Array(l1, n - 1), L2Bytes(l1, n - 1), 12 * g, 12 * g + 12);
    }
  }

  /** Whatever region data is, these are its entries. */
  lemma RegionEntries(data: seq<byte>, df: nat, l1: seq<SkipL1>, pos: seq<nat>)
    requires IsRegion(data, df, l1, pos)
    ensures |data| == RegionSize(df)
    ensures forall i :: 0 <= i < |l1| ==> L1At(data, i) == l1[i]
    ensures forall g :: 0 <= g < NumGroups(|l1|) ==> data[15 * |l1| + 12 * g..15 * |l1| + 12 * g + 12] == L2Bytes(l1, g)
  {
    hide L1At, L2Bytes, L1Array, PosArray, L2Array;
    forall i | 0 <= i < |l1| ensures L1At(data, i) == l1[i] {
      L1Reads(l1, pos, i);
    }
    forall g | 0 <= g < NumGroups(|l1|)
      ensures data[15 * |l1| + 12 * g..15 * |l1| + 12 * g + 12] == L2Bytes(l1, g)
    {
      L2ArraySlice(l1, NumGroups(|l1|), g);
      L2InRegion(l1, pos, g);
    }
  }

  lemma L2InRegion(l1: seq<SkipL1>, pos: seq<nat>, g: nat)
    requires |pos| == |l1| && g < NumGroups(|l1|)
    ensures Region(l1, pos)[15 * |l1| + 12 * g..15 * |l1| + 12 * g + 12] == L2Array(l1, NumGroups(|l1|))[12 * g..12 * g + 12]
  {
    hide L1Array, PosArray, L2Array;
  }

  // ----- the parser -----

  method ReadL1(data: seq<byte>, df: nat) returns (r: Result<seq<SkipL1>, ParseError>)
    requires |data| == RegionSize(df)
    ensures r.Ok? ==> |r.value| == NumBlocks(df) && GoodL1(r.value) && L1Array(r.value) == data[..10 * NumBlocks(df)]
    ensures r.Ok? ==> forall i :: 0 <= i < NumBlocks(df) ==> r.value[i] == L1At(data, i)
    ensures r.Err? ==> !Encodable(data, df)
  {
    hide L1At, L1Bytes, L1Array, NumBlocks, Encodable;
    var nb := NumBlocks(df);
    L1None();
    var l1: seq<SkipL1> := [];
    for i := 0 to nb
      invariant |l1| == i && L1Array(l1) == data[..10 * i]
      invariant forall j :: 0 <= j < i ==> l1[j] == L1At(data, j) && l1[j].off <= MAX_U40
      invariant forall j, k :: 0 <= j < k < i ==> l1[j].lastDocid < l1[k].lastDocid && l1[j].off < l1[k].off
    {
      L1WrittenBack(data, i);
      var e := L1At(data, i);
      if i > 0 && (e.lastDocid <= l1[i - 1].lastDocid || e.off <= l1[i - 1].off) {
        Disordered(data, df, i - 1, i);
        return Err(OutOfOrder);
      }
      L1Grows(data, l1, e);
      l1 := l1 + [e];
    }
    return Ok(l1);
  }

  lemma L1None()
    ensures L1Array([]) == []
  {
  }

  lemma L1Last(l1: seq<SkipL1>, e: SkipL1)
    ensures L1Array(l1 + [e]) == L1Array(l1) + L1Bytes(e)
  {
    hide L1Bytes;
    assert (l1 + [e])[..|l1|] == l1;
  }

  lemma L1Grows(data: seq<byte>, l1: seq<SkipL1>, e: SkipL1)
    requires 10 * |l1| + 10 <= |data| && L1Array(l1) == data[..10 * |l1|]
    requires L1Bytes(e) == data[10 * |l1|..10 * |l1| + 10]
    ensures L1Array(l1 + [e]) == data[..10 * |l1| + 10]
  {
    hide L1Bytes, L1Array;
    L1Last(l1, e);
    JustBefore(data, 10 * |l1|, 10 * |l1| + 10);
  }

  lemma JustBefore(data: seq<byte>, i: nat, j: nat)
    requires i <= j <= |data|
    ensures data[..j] == data[..i] + data[i..j]
  {
  }

  lemma Disordered(data: seq<byte>, df: nat, i: nat, j: nat)
    requires |data| == RegionSize(df) && i < j < NumBlocks(df)
    requires L1At(data, j).lastDocid <= L1At(data, i).lastDocid || L1At(data, j).off <= L1At(data, i).off
    ensures !Encodable(data, df)
  {
    hide L1At, Region;
    forall l1, pos ensures !IsRegion(data, df, l1, pos) {
      if IsRegion(data, df, l1, pos) {
        RegionEntries(data, df, l1, pos);
      }
    }
  }

  method ReadPos(data: seq<byte>, nb: nat) returns (pos: seq<nat>)
    requires 15 * nb <= |data|
    ensures |pos| == nb && PosArray(pos) == data[10 * nb..15 * nb]
    ensures forall i :: 0 <= i < nb ==> pos[i] <= MAX_U40
  {
    hide LE, PosAt;
    pos := [];
    for i := 0 to nb
      invariant |pos| == i && PosArray(pos) == data[10 * nb..10 * nb + 5 * i]
      invariant forall j :: 0 <= j < i ==> pos[j] <= MAX_U40
    {
      PosWrittenBack(data, nb, i);
      var p := PosAt(data, nb, i);
      assert (pos + [p])[..i] == pos;
      assert data[10 * nb..10 * nb + 5 * i + 5]
          == data[10 * nb..10 * nb + 5 * i] + data[10 * nb + 5 * i..10 * nb + 5 * i + 5];
      pos := pos + [p];
    }
  }

  /** The second level must be what the first level determines. */
  method ReadL2(data: seq<byte>, df: nat, l1: seq<SkipL1>) returns (r: Result<seq<SkipL2>, ParseError>)
    requires |data| == RegionSize(df) && |l1| == NumBlocks(df) && 32 * NumGroups(|l1|) < 0x1_0000_0000
    requires forall i :: 0 <= i < |l1| ==> l1[i] == L1At(data, i)
    ensures r.Ok? ==> L2Array(l1, NumGroups(|l1|)) == data[15 * |l1|..] && |r.value| == NumGroups(|l1|)
    ensures r.Ok? ==> forall g :: 0 <= g < NumGroups(|l1|) ==>
              r.value[g] == SkipL2(Group(l1, g)[|Group(l1, g)| - 1].lastDocid, MaxImpact(Group(l1, g)), 32 * g)
    ensures r.Err? ==> !Encodable(data, df)
  {
    hide L1At, MaxImpact, Group, L2Bytes, NumGroups, NumBlocks, RegionSize, Encodable;
    var nb := |l1|;
    var l2: seq<SkipL2> := [];
    RegionGroups(df);
    NoGroups(data, l1);
    hide L2SoFar, L2Matches;
    for g := 0 to NumGroups(nb)
      invariant |l2| == g && L2SoFar(data, l1, l2)
    {
      var bad := CheckL2(data, df, l1, g);
      if bad.Some? {
        return Err(bad.value);
      }
      L2Next(data, l1, l2, g);
      l2 := l2 + [L2At(data[15 * nb + 12 * g..])];
    }
    L2Done(data, l1, l2);
    return Ok(l2);
  }

  lemma L2Done(data: seq<byte>, l1: seq<SkipL1>, l2: seq<SkipL2>)
    requires L2SoFar(data, l1, l2) && |l2| == NumGroups(|l1|) && 32 * NumGroups(|l1|) < 0x1_0000_0000
    requires |data| == 15 * |l1| + 12 * NumGroups(|l1|)
    ensures L2Array(l1, NumGroups(|l1|)) == data[15 * |l1|..]
    ensures forall g :: 0 <= g < NumGroups(|l1|) ==>
              l2[g] == SkipL2(Group(l1, g)[|Group(l1, g)| - 1].lastDocid, MaxImpact(Group(l1, g)), 32 * g)
  {
    hide L2Array, MaxImpact, Group, NumGroups;
  }

  /** The checks on one second-level entry. */
  method CheckL2(data: seq<byte>, df: nat, l1: seq<SkipL1>, g: nat) returns (bad: Option<ParseError>)
    requires |data| == RegionSize(df) && |l1| == NumBlocks(df) && 32 * NumGroups(|l1|) < 0x1_0000_0000
    requires forall i :: 0 <= i < |l1| ==> l1[i] == L1At(data, i)
    requires g < NumGroups(|l1|) && 15 * |l1| + 12 * g + 12 <= |data|
    ensures bad.Some? ==> !Encodable(data, df)
    ensures bad.None? ==> var e := data[15 * |l1| + 12 * g..]; L2Matches(e, l1, g) && e[..12] == L2Bytes(l1, g)
  {
    hide L1At, L2Bytes, NumGroups, NumBlocks, RegionSize, Encodable, L2Matches;
    var e := data[15 * |l1| + 12 * g..];
    L2MatchesBytes(e, l1, g);
    PaddingMatters(e, l1, g);
    assert e[..12] == data[15 * |l1| + 12 * g..15 * |l1| + 12 * g + 12];
    if e[9] != 0 || e[10] != 0 || e[11] != 0 {
      Mismatch(data, df, l1, g);
      return Some(NonzeroPadding);
    }
    if !L2Matches(e, l1, g) {
      Mismatch(data, df, l1, g);
      return Some(Disagrees);
    }
    bad := None;
  }

  lemma RegionGroups(df: nat)
    ensures RegionSize(df) == 15 * NumBlocks(df) + 12 * NumGroups(NumBlocks(df))
  {
  }

  /** The second-level entries read so far are those of the groups, and so are their bytes. */
  ghost predicate L2SoFar(data: seq<byte>, l1: seq<SkipL1>, l2: seq<SkipL2>) {
    var nb, g := |l1|, |l2|;
    && g <= NumGroups(nb) && 15 * nb + 12 * g <= |data| && L2Array(l1, g) == data[15 * nb..15 * nb + 12 * g]
    && forall h :: 0 <= h < g ==>
         l2[h] == SkipL2(Group(l1, h)[|Group(l1, h)| - 1].lastDocid, MaxImpact(Group(l1, h)), 32 * h % 0x1_0000_0000)
  }

  lemma NoGroups(data: seq<byte>, l1: seq<SkipL1>)
    requires 15 * |l1| <= |data|
    ensures L2SoFar(data, l1, [])
  {
  }

  lemma PaddingMatters(e: seq<byte>, l1: seq<SkipL1>, g: nat)
    requires |e| >= 12 && g < NumGroups(|l1|)
    ensures L2Matches(e, l1, g) ==> e[9] == 0 && e[10] == 0 && e[11] == 0
  {
  }

  lemma L2Next(data: seq<byte>, l1: seq<SkipL1>, l2: seq<SkipL2>, g: nat)
    requires L2SoFar(data, l1, l2) && g == |l2| < NumGroups(|l1|) && 15 * |l1| + 12 * g + 12 <= |data|
    requires var e := data[15 * |l1| + 12 * g..]; L2Matches(e, l1, g) && e[..12] == L2Bytes(l1, g)
    ensures L2SoFar(data, l1, l2 + [L2At(data[15 * |l1| + 12 * g..])])
  {
    hide L2Bytes, L2Array, MaxImpact, Group, NumGroups;
    L2Last(l1, g);
    var at := 15 * |l1| + 12 * g;
    assert data[15 * |l1|..at + 12] == data[15 * |l1|..at] + data[at..][..12];
  }

  lemma Mismatch(data: seq<byte>, df: nat, l1: seq<SkipL1>, g: nat)
    requires |data| == RegionSize(df) && |l1| == NumBlocks(df) && g < NumGroups(|l1|)
    requires forall i :: 0 <= i < |l1| ==> l1[i] == L1At(data, i)
    requires data[15 * |l1| + 12 * g..15 * |l1| + 12 * g + 12] != L2Bytes(l1, g)
    ensures !Encodable(data, df)
  {
    hide L1At, Region, L2Bytes;
    forall l1', pos ensures !IsRegion(data, df, l1', pos) {
      RegionIs(data, df, l1, l1', pos, g);
    }
  }

  lemma RegionIs(data: seq<byte>, df: nat, l1: seq<SkipL1>, l1': seq<SkipL1>, pos: seq<nat>, g: nat)
    requires |data| == RegionSize(df) && |l1| == NumBlocks(df) && g < NumGroups(|l1|)
    requires forall i :: 0 <= i < |l1| ==> l1[i] == L1At(data, i)
    ensures IsRegion(data, df, l1', pos) ==> data[15 * |l1| + 12 * g..15 * |l1| + 12 * g + 12] == L2Bytes(l1, g)
  {
    hide L1At, Region, L2Bytes;
    if IsRegion(data, df, l1', pos) {
      RegionEntries(data, df, l1', pos);
      assert l1' == l1;
    }
  }

  /**
   * ParseSkips accepts exactly the regions that EncodeSkips can have written for that df, and returns what they were
   * written from, with the second level it checked.
   */
  method ParseSkips(data: seq<byte>, df: u32) returns (r: Result<(seq<SkipL1>, seq<nat>, seq<SkipL2>), ParseError>)
    ensures r.Ok? <==> Encodable(data, df)
    ensures r.Ok? ==> IsRegion(data, df, r.value.0, r.value.1)
    ensures r.Ok? ==> |r.value.2| == NumGroups(NumBlocks(df)) && forall g :: 0 <= g < |r.value.2| ==>
              r.value.2[g] == SkipL2(Group(r.value.0, g)[|Group(r.value.0, g)| - 1].lastDocid,
                                     MaxImpact(Group(r.value.0, g)), 32 * g)
  {
    hide L1At, MaxImpact, Group, L1Array, PosArray, L2Array;
    var nb := NumBlocks(df);
    if nb == 0 {
      return Err(NoBlocks);
    }
    if |data| != RegionSize(df) {
      SizeOf(data, df);
      return Err(WrongSize);
    }
    var a := ReadL1(data, df);
    if a.Err? {
      return Err(a.error);
    }
    var l1 := a.value;
    var pos := ReadPos(data, nb);
    var b := ReadL2(data, df, l1);
    if b.Err? {
      return Err(b.error);
    }
    assert data == data[..10 * nb] + data[10 * nb..15 * nb] + data[15 * nb..];
    assert IsRegion(data, df, l1, pos);
    return Ok((l1, pos, b.value));
  }

  lemma SizeOf(data: seq<byte>, df: nat)
    ensures Encodable(data, df) ==> |data| == RegionSize(df)
  {
    hide Region;
    if Encodable(data, df) {
      var l1, pos :| IsRegion(data, df, l1, pos);
      RegionEntries(data, df, l1, pos);
    }
  }
}
