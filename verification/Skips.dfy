/** The skips band, hotfmt/skips.go: one fixed-shape region per term, read in place by the cursors. */
module Skips {
  import opened Bytes
  import opened PostingsEncode

  // An L1 entry is 10 bytes, a positions offset 5, an L2 entry 12 over 32 L1 entries. The sizes stand as
  // literals below: a product with a named constant would be nonlinear to the solver.

  datatype SkipError = Mismatched | OffsetTooWide | SkipsNotIncreasing

  function NumGroups(nb: nat): nat {
    (nb + 31) / 32
  }

  function RegionSize(df: nat): nat {
    NumBlocks(df) * 15 + NumGroups(NumBlocks(df)) * 12
  }

  // ----- spec of the region's three arrays -----

  function L1Bytes(e: SkipL1): (bs: seq<byte>)
    ensures |bs| == 10
  {
    LE(4, e.lastDocid) + [e.impact] + LE(5, e.off)
  }

  function L1Array(l1: seq<SkipL1>): (bs: seq<byte>)
    ensures |bs| == 10 * |l1|
  {
    if l1 == [] then [] else L1Array(l1[..|l1| - 1]) + L1Bytes(l1[|l1| - 1])
  }

  function PosArray(pos: seq<nat>): (bs: seq<byte>)
    ensures |bs| == 5 * |pos|
  {
    if pos == [] then [] else PosArray(pos[..|pos| - 1]) + LE(5, pos[|pos| - 1])
  }

  function MaxImpact(l1: seq<SkipL1>): (m: byte)
    ensures forall i :: 0 <= i < |l1| ==> l1[i].impact <= m
    ensures m == 0 || exists i :: 0 <= i < |l1| && l1[i].impact == m
  {
    if l1 == [] then 0
    else
      var m := MaxImpact(l1[..|l1| - 1]);
      assert forall i :: 0 <= i < |l1| - 1 ==> l1[i] == l1[..|l1| - 1][i];
      assert l1[|l1| - 1].impact == l1[|l1| - 1].impact;
      if l1[|l1| - 1].impact >= m then l1[|l1| - 1].impact else m
  }

  /** Group g of the L1 entries. */
  function Group(l1: seq<SkipL1>, g: nat): (s: seq<SkipL1>)
    requires g < NumGroups(|l1|)
    ensures |s| > 0
  {
    l1[32 * g..if 32 * (g + 1) < |l1| then 32 * (g + 1) else |l1|]
  }

  function L2Bytes(l1: seq<SkipL1>, g: nat): (bs: seq<byte>)
    requires g < NumGroups(|l1|)
    ensures |bs| == 12 && bs[4] == MaxImpact(Group(l1, g))
  {
    var s := Group(l1, g);
    LE(4, s[|s| - 1].lastDocid) + [MaxImpact(s)] + LE(4, 32 * g) + [0, 0, 0]
  }

  function L2Array(l1: seq<SkipL1>, n: nat): (bs: seq<byte>)
    requires n <= NumGroups(|l1|)
    ensures |bs| == 12 * n
  {
    if n == 0 then [] else L2Array(l1, n - 1) + L2Bytes(l1, n - 1)
  }

  function Region(l1: seq<SkipL1>, pos: seq<nat>): (bs: seq<byte>)
    ensures |bs| == 10 * |l1| + 5 * |pos| + 12 * NumGroups(|l1|)
  {
    L1Array(l1) + PosArray(pos) + L2Array(l1, NumGroups(|l1|))
  }

  ghost predicate GoodSkips(l1: seq<SkipL1>, pos: seq<nat>) {
    l1 != [] && |pos| == |l1| && GoodL1(l1) && forall i :: 0 <= i < |pos| ==> pos[i] <= MAX_U40
  }

  // ----- the encoder -----

  /** EncodeSkips appends Region, or says why there is none. */
  method EncodeSkips(dst: seq<byte>, l1: seq<SkipL1>, posOffs: seq<nat>) returns (r: Result<seq<byte>, SkipError>)
    ensures r.Ok? <==> GoodSkips(l1, posOffs)
    ensures r.Ok? ==> r.value == dst + Region(l1, posOffs)
  {
    hide L1Array, PosArray, L2Array, NumGroups;
    if l1 == [] || |posOffs| != |l1| {
      return Err(Mismatched);
    }
    var a := AppendL1(dst, l1);
    if a.Err? {
      return Err(a.error);
    }
    var b := AppendPos(a.value, posOffs);
    if b.Err? {
      return Err(b.error);
    }
    var out := AppendL2(b.value, l1);
    Regroup4(dst, L1Array(l1), PosArray(posOffs), L2Array(l1, NumGroups(|l1|)));
    return Ok(out);
  }

  lemma Regroup4<T>(a: seq<T>, b: seq<T>, c: seq<T>, d: seq<T>)
    ensures a + b + c + d == a + (b + c + d)
  {
  }

  ghost predicate GoodL1(l1: seq<SkipL1>) {
    && (forall i :: 0 <= i < |l1| ==> l1[i].off <= MAX_U40)
    && (forall i, j :: 0 <= i < j < |l1| ==> l1[i].lastDocid < l1[j].lastDocid && l1[i].off < l1[j].off)
  }

  method AppendL1(dst: seq<byte>, l1: seq<SkipL1>) returns (r: Result<seq<byte>, SkipError>)
    ensures r.Ok? <==> GoodL1(l1)
    ensures r.Ok? ==> r.value == dst + L1Array(l1)
  {
    hide LE, L1Bytes;
    var out := dst;
    for i := 0 to |l1|
      invariant out == dst + L1Array(l1[..i])
      invariant forall j :: 0 <= j < i ==> l1[j].off <= MAX_U40
      invariant forall j, k :: 0 <= j < k < i ==> l1[j].lastDocid < l1[k].lastDocid && l1[j].off < l1[k].off
    {
      var e := l1[i];
      if e.off > MAX_U40 {
        return Err(OffsetTooWide);
      }
      if i > 0 && (e.lastDocid <= l1[i - 1].lastDocid || e.off <= l1[i - 1].off) {
        return Err(SkipsNotIncreasing);
      }
      assert l1[..i + 1][..i] == l1[..i];
      out := out + L1Bytes(e);
    }
    assert l1[..|l1|] == l1;
    return Ok(out);
  }

  method AppendPos(dst: seq<byte>, pos: seq<nat>) returns (r: Result<seq<byte>, SkipError>)
    ensures r.Ok? <==> forall i :: 0 <= i < |pos| ==> pos[i] <= MAX_U40
    ensures r.Ok? ==> r.value == dst + PosArray(pos)
  {
    hide LE;
    var out := dst;
    for i := 0 to |pos|
      invariant out == dst + PosArray(pos[..i])
      invariant forall j :: 0 <= j < i ==> pos[j] <= MAX_U40
    {
      if pos[i] > MAX_U40 {
        return Err(OffsetTooWide);
      }
      assert pos[..i + 1][..i] == pos[..i];
      out := out + LE(5, pos[i]);
    }
    assert pos[..|pos|] == pos;
    return Ok(out);
  }

  lemma L2More(dst: seq<byte>, l1: seq<SkipL1>, g: nat)
    requires g < NumGroups(|l1|)
    ensures dst + L2Array(l1, g + 1) == (dst + L2Array(l1, g)) + L2Bytes(l1, g)
  {
    hide L2Bytes;
  }

  lemma LastGroup(n: nat, g: nat)
    requires g <= NumGroups(n) && 32 * g >= n
    ensures g == NumGroups(n)
  {
  }

  /** The second level behind what is written so far. */
  method AppendL2(dst: seq<byte>, l1: seq<SkipL1>) returns (out: seq<byte>)
    ensures out == dst + L2Array(l1, NumGroups(|l1|))
  {
    hide L2Bytes;
    out := dst;
    var g := 0;
    while 32 * g < |l1|
      invariant g <= NumGroups(|l1|)
      invariant out == dst + L2Array(l1, g)
    {
      hide L2Array;
      var bytes := L2Entry(l1, g);
      L2More(dst, l1, g);
      out := out + bytes;
      g := g + 1;
    }
    LastGroup(|l1|, g);
  }

  method L2Entry(l1: seq<SkipL1>, g: nat) returns (bs: seq<byte>)
    requires 32 * g < |l1|
    ensures g < NumGroups(|l1|) && bs == L2Bytes(l1, g)
  {
    hide LE, MaxImpact;
    var end := if 32 * (g + 1) < |l1| then 32 * (g + 1) else |l1|;
    var group := l1[32 * g..end];
    assert group == Group(l1, g);
    var impact := LargestOf(group);
    bs := LE(4, l1[end - 1].lastDocid) + [impact] + LE(4, 32 * g) + [0, 0, 0];
  }

  lemma LargestMore(l1: seq<SkipL1>, i: nat)
    requires i < |l1|
    ensures var m := MaxImpact(l1[..i]); MaxImpact(l1[..i + 1]) == if l1[i].impact >= m then l1[i].impact else m
  {
    assert l1[..i + 1][..i] == l1[..i] && l1[..i + 1][i] == l1[i];
  }

  method LargestOf(l1: seq<SkipL1>) returns (m: byte)
    ensures m == MaxImpact(l1)
  {
    m := 0;
    for i := 0 to |l1|
      invariant m == MaxImpact(l1[..i])
    {
      LargestMore(l1, i);
      hide MaxImpact;
      if l1[i].impact >= m {
        m := l1[i].impact;
      }
    }
    assert l1[..|l1|] == l1;
  }

  // ----- reading in place -----

  /** hotfmt/skips.go SkipL1At. */
  function L1At(region: seq<byte>, i: nat): SkipL1
    requires 10 * (i + 1) <= |region|
  {
    var e := region[10 * i..];
    SkipL1(U32(e), e[4], U40(e[5..]))
  }

  lemma L1BytesRead(e: SkipL1, rest: seq<byte>)
    requires e.off <= MAX_U40
    ensures var bs := L1Bytes(e) + rest;
            U32(bs) == e.lastDocid && bs[4] == e.impact && U40(bs[5..]) == e.off
  {
    var bs := L1Bytes(e) + rest;
    assert bs == LE(4, e.lastDocid) + ([e.impact] + LE(5, e.off) + rest);
    U32RoundTrip(e.lastDocid, [e.impact] + LE(5, e.off) + rest);
    assert bs[5..] == LE(5, e.off) + rest;
    U40RoundTrip(e.off, rest);
  }

  lemma {:induction false} L1ArrayAt(l1: seq<SkipL1>, i: nat)
    requires i < |l1|
    ensures L1Array(l1)[10 * i..10 * i + 10] == L1Bytes(l1[i])
  {
    var n := |l1| - 1;
    if i < n {
      L1ArrayAt(l1[..n], i);
      assert L1Array(l1)[10 * i..10 * i + 10] == L1Array(l1[..n])[10 * i..10 * i + 10];
    }
  }

  /** In an encoded region, entry i is where the reader looks for it. */
  lemma L1Reads(l1: seq<SkipL1>, pos: seq<nat>, i: nat)
    requires GoodSkips(l1, pos) && i < |l1|
    ensures L1At(Region(l1, pos), i) == l1[i]
  {
    hide L1Bytes, PosArray, L2Array;
    var bs := Region(l1, pos);
    var rest := bs[10 * i + 10..];
    L1ArrayAt(l1, i);
    L1BytesRead(l1[i], rest);
    hide L1Array, U32, U40;
    assert bs[10 * i..10 * i + 10] == L1Array(l1)[10 * i..10 * i + 10];
    assert bs[10 * i..] == bs[10 * i..10 * i + 10] + rest;
  }

  /** The L2 entry of group g, as SkipBound reads its impact byte. */
  lemma {:induction false} L2ArrayAt(l1: seq<SkipL1>, n: nat, g: nat)
    requires g < n <= NumGroups(|l1|)
    ensures L2Array(l1, n)[12 * g + 4] == MaxImpact(Group(l1, g))
  {
    hide MaxImpact, Group;
    if g < n - 1 {
      L2ArrayAt(l1, n - 1, g);
    }
  }

  /** hotfmt/skips.go SkipBound: the maximum over the L2 impact bytes. */
  method SkipBound(region: seq<byte>, df: nat) returns (m: byte)
    requires |region| == RegionSize(df)
    ensures forall g :: 0 <= g < NumGroups(NumBlocks(df)) ==> region[15 * NumBlocks(df) + 12 * g + 4] <= m
    ensures m == 0 || exists g :: 0 <= g < NumGroups(NumBlocks(df)) && region[15 * NumBlocks(df) + 12 * g + 4] == m
  {
    var nb := NumBlocks(df);
    m := 0;
    for g := 0 to NumGroups(nb)
      invariant forall k :: 0 <= k < g ==> region[15 * nb + 12 * k + 4] <= m
      invariant m == 0 || exists k :: 0 <= k < g && region[15 * nb + 12 * k + 4] == m
    {
      if region[15 * nb + 12 * g + 4] >= m {
        m := region[15 * nb + 12 * g + 4];
      }
    }
  }

  /** On an encoded region, what SkipBound returns is the largest impact of any block. */
  lemma BoundIsMax(l1: seq<SkipL1>, pos: seq<nat>, m: byte)
    requires |pos| == |l1|
    requires forall g :: 0 <= g < NumGroups(|l1|) ==> Region(l1, pos)[15 * |l1| + 12 * g + 4] <= m
    requires m == 0 || exists g :: 0 <= g < NumGroups(|l1|) && Region(l1, pos)[15 * |l1| + 12 * g + 4] == m
    ensures m == MaxImpact(l1)
  {
    hide Region, MaxImpact, Group;
    var n := NumGroups(|l1|);
    forall g | 0 <= g < n ensures Region(l1, pos)[15 * |l1| + 12 * g + 4] == MaxImpact(Group(l1, g)) {
      L2Reads(l1, pos, g);
    }
    GroupsCover(l1, m);
    if m > 0 {
      var g :| 0 <= g < n && Region(l1, pos)[15 * |l1| + 12 * g + 4] == m;
      GroupReached(l1, g, m);
    }
  }

  lemma L2Reads(l1: seq<SkipL1>, pos: seq<nat>, g: nat)
    requires |pos| == |l1| && g < NumGroups(|l1|)
    ensures Region(l1, pos)[15 * |l1| + 12 * g + 4] == MaxImpact(Group(l1, g))
  {
    hide L1Array, PosArray, L2Array, MaxImpact, Group;
    L2ArrayAt(l1, NumGroups(|l1|), g);
  }

  /** Every entry lies in a group, under that group's maximum. */
  lemma GroupsCover(l1: seq<SkipL1>, m: byte)
    requires forall g :: 0 <= g < NumGroups(|l1|) ==> MaxImpact(Group(l1, g)) <= m
    ensures forall i :: 0 <= i < |l1| ==> l1[i].impact <= m
  {
    hide MaxImpact;
    forall i | 0 <= i < |l1| ensures l1[i].impact <= m {
      var g := i / 32;
      assert Group(l1, g)[i - 32 * g] == l1[i];
      assert MaxImpact(Group(l1, g)) <= m;
    }
  }

  lemma GroupReached(l1: seq<SkipL1>, g: nat, m: byte)
    requires g < NumGroups(|l1|) && MaxImpact(Group(l1, g)) == m > 0
    ensures exists i :: 0 <= i < |l1| && l1[i].impact == m
  {
    var k :| 0 <= k < |Group(l1, g)| && Group(l1, g)[k].impact == m;
    assert l1[32 * g + k].impact == m;
  }
}
