/** The bit packing of hotfmt/postings.go: fixed-width values, least significant bit first. */
module BitPack {
  import opened Bytes

  /** Bytes taken by n values of w bits. */
  function PackedLen(n: nat, w: nat): (len: nat)
    ensures 8 * len >= Times(n, w) && 8 * len < Times(n, w) + 8
  {
    (Times(n, w) + 7) / 8
  }

  /** The packed form: the values' digit string of base 2^w, written as bytes. */
  function Packed(vals: seq<nat>, w: nat): (bs: seq<byte>)
    ensures |bs| == PackedLen(|vals|, w)
  {
    LE(PackedLen(|vals|, w), Num(Pow2(w), vals))
  }

  /** The n values of w bits at the front of data. */
  function Unpacked(data: seq<byte>, n: nat, w: nat): (vals: seq<nat>)
    requires PackedLen(n, w) <= |data|
    ensures |vals| == n
    ensures forall i :: 0 <= i < n ==> vals[i] < Pow2(w)
  {
    Digits(Pow2(w), n, FromLE(data[..PackedLen(n, w)]))
  }

  lemma PowSnoc(b: nat, n: nat)
    ensures Pow(b, n + 1) == Times(Pow(b, n), b)
  {
    TimesLaws(b, Pow(b, n), 0);
  }

  lemma Pow2Of32()
    ensures Pow2(32) == 0x1_0000_0000 && Pow2(40) == 0x100_0000_0000
  {
    ByteBase();
    Pow2Add(8, 8);
    Pow2Add(16, 16);
    Pow2Add(8, 32);
  }

  lemma WidthFits(w: nat)
    requires w <= 32
    ensures Pow2(w) <= 0x1_0000_0000
  {
    Pow2Of32();
    Pow2Monotone(w, 32);
  }

  // ----- packing -----

  // After the values vs: the bytes bs are out, and acc holds the nbits bits above them.
  ghost predicate Packing(w: nat, vs: seq<nat>, bs: seq<byte>, nbits: nat, acc: nat) {
    && Times(|vs|, w) == 8 * |bs| + nbits
    && Pow(Pow2(w), |vs|) == Times(Pow(0x100, |bs|), Pow2(nbits))
    && acc < Pow2(nbits)
    && Num(Pow2(w), vs) == FromLE(bs) + Times(Pow(0x100, |bs|), acc)
  }

  lemma PackingStart(w: nat)
    ensures Packing(w, [], [], 0, 0)
  {
    assert Times(0, w) == 0 && Times(1, 1) == 1 && Times(1, 0) == 0;
  }

  // Shifting a value in above nbits bits: the two do not overlap, so Go's OR is a sum.
  lemma PackValue(w: nat, vs: seq<nat>, v: nat, bs: seq<byte>, nbits: nat, acc: nat)
    requires Packing(w, vs, bs, nbits, acc) && v < Pow2(w)
    ensures Packing(w, vs + [v], bs, nbits + w, acc + Times(Pow2(nbits), v))
  {
    var q := Pow(0x100, |bs|);
    TimesLaws(|vs|, 1, w);
    assert Times(|vs| + 1, w) == Times(|vs|, w) + w by { assert Times(1, w) == w; }
    Pow2Add(nbits, w);
    TimesLaws(q, Pow2(nbits), Pow2(w));
    PowSnoc(Pow2(w), |vs|);
    MulBound(acc, Pow2(nbits), v, Pow2(w));
    NumSnoc(Pow2(w), vs, v);
    TimesLaws(q, Pow2(nbits), v);
    TimesLaws(q, acc, Times(Pow2(nbits), v));
  }

  lemma PackByte(w: nat, vs: seq<nat>, bs: seq<byte>, nbits: nat, acc: nat)
    requires Packing(w, vs, bs, nbits, acc) && nbits >= 8
    ensures Packing(w, vs, bs + [acc % 0x100], nbits - 8, acc / 0x100)
  {
    ByteMove(bs, acc);
    Pow2Add(8, nbits - 8);
    ByteBase();
    PowSnoc(0x100, |bs|);
    TimesLaws(Pow(0x100, |bs|), 0x100, Pow2(nbits - 8));
    QuotientBound(acc, 0x100, Pow2(nbits - 8));
  }

  lemma LowAndHigh(p: nat, acc: nat)
    ensures Times(p, acc) == Times(p, acc % 0x100) + Times(Times(p, 0x100), acc / 0x100)
  {
    assert acc == acc % 0x100 + Times(0x100, acc / 0x100);
    hide Times;
    TimesLaws(p, 0x100, acc / 0x100);
    TimesLaws(p, acc % 0x100, Times(0x100, acc / 0x100));
  }

  // Moving the low byte of acc behind the bytes already there keeps the number they spell together.
  lemma ByteMove(bs: seq<byte>, acc: nat)
    ensures FromLE(bs) + Times(Pow(0x100, |bs|), acc)
         == FromLE(bs + [acc % 0x100]) + Times(Pow(0x100, |bs| + 1), acc / 0x100)
  {
    hide Times, Pow, Num;
    NumSnoc(0x100, bs, acc % 0x100);
    PowSnoc(0x100, |bs|);
    LowAndHigh(Pow(0x100, |bs|), acc);
  }

  lemma PackEnd(w: nat, vs: seq<nat>, bs: seq<byte>, nbits: nat, acc: nat)
    requires Packing(w, vs, bs, nbits, acc) && nbits < 8
    ensures nbits == 0 ==> bs == Packed(vs, w)
    ensures nbits > 0 ==> acc < 0x100 && bs + [acc % 0x100] == Packed(vs, w)
  {
    var p := Pow(0x100, |bs|);
    Pow2Monotone(nbits, 8);
    ByteBase();
    assert Times(p, 0) == 0;
    var out := if nbits == 0 then bs else bs + [acc % 0x100];
    if nbits > 0 {
      ByteMove(bs, acc);
      assert Times(Pow(0x100, |bs| + 1), 0) == 0;
    }
    assert FromLE(out) == Num(Pow2(w), vs);
    DigitsNum(0x100, out, 0);
    assert Times(Pow(0x100, |out|), 0) == 0;
    assert |out| == PackedLen(|vs|, w);
  }

  /** hotfmt/postings.go appendPacked. */
  method AppendPacked(dst: seq<byte>, vals: seq<nat>, w: nat) returns (out: seq<byte>)
    requires w <= 32 && Fits(Pow2(w), vals)
    ensures out == dst + Packed(vals, w)
  {
    if w == 0 {
      assert Times(|vals|, 0) == 0;
      return dst;
    }
    hide Packing, Packed;
    ghost var bs: seq<byte> := [];
    out := dst;
    var acc: nat, nbits: nat := 0, 0;
    PackingStart(w);
    for i := 0 to |vals|
      invariant nbits < 8
      invariant out == dst + bs && Packing(w, vals[..i], bs, nbits, acc)
    {
      PackValue(w, vals[..i], vals[i], bs, nbits, acc);
      assert vals[..i + 1] == vals[..i] + [vals[i]];
      acc := acc + Times(Pow2(nbits), vals[i]);
      nbits := nbits + w;
      while nbits >= 8
        invariant out == dst + bs && Packing(w, vals[..i + 1], bs, nbits, acc)
      {
        PackByte(w, vals[..i + 1], bs, nbits, acc);
        out := out + [acc % 0x100];
        bs := bs + [acc % 0x100];
        acc := acc / 0x100;
        nbits := nbits - 8;
      }
    }
    assert vals[..|vals|] == vals;
    PackEnd(w, vals, bs, nbits, acc);
    if nbits > 0 {
      out := out + [acc % 0x100];
    }
  }

  /** The accumulator never leaves its 64 bits: at most 7 bits wait when a value of at most 32 comes in. */
  lemma AccumulatorFits(w: nat, vs: seq<nat>, v: nat, bs: seq<byte>, nbits: nat, acc: nat)
    requires w <= 32 && nbits < 8 && v < Pow2(w)
    requires Packing(w, vs, bs, nbits, acc)
    ensures acc + Times(Pow2(nbits), v) < 0x1_0000_0000_0000_0000
  {
    PackValue(w, vs, v, bs, nbits, acc);
    Pow2Monotone(nbits + w, 40);
    Pow2Of32();
  }

  // ----- unpacking -----

  // pos bytes are in: they hold the values vs, and above them the nbits bits of acc.
  ghost predicate Unpacking(w: nat, data: seq<byte>, vs: seq<nat>, pos: nat, nbits: nat, acc: nat) {
    && pos <= |data|
    && Times(|vs|, w) + nbits == 8 * pos
    && Times(Pow(Pow2(w), |vs|), Pow2(nbits)) == Pow(0x100, pos)
    && acc < Pow2(nbits)
    && Fits(Pow2(w), vs)
    && FromLE(data[..pos]) == Num(Pow2(w), vs) + Times(Pow(Pow2(w), |vs|), acc)
  }

  lemma UnpackingStart(w: nat, data: seq<byte>)
    ensures Unpacking(w, data, [], 0, 0, 0)
  {
    assert Times(0, w) == 0 && Times(1, 1) == 1 && Times(1, 0) == 0;
  }

  lemma UnpackByte(w: nat, data: seq<byte>, vs: seq<nat>, pos: nat, nbits: nat, acc: nat)
    requires Unpacking(w, data, vs, pos, nbits, acc) && pos < |data|
    ensures Unpacking(w, data, vs, pos + 1, nbits + 8, acc + Times(Pow2(nbits), data[pos]))
  {
    hide Times, Num, Pow, Pow2;
    var q := Pow(Pow2(w), |vs|);
    ByteBase();
    Pow2Add(nbits, 8);
    PowSnoc(0x100, pos);
    TimesLaws(q, Pow2(nbits), 0x100);
    assert data[..pos + 1] == data[..pos] + [data[pos]];
    NumSnoc(0x100, data[..pos], data[pos]);
    TimesLaws(q, Pow2(nbits), data[pos]);
    TimesLaws(q, acc, Times(Pow2(nbits), data[pos]));
    MulBound(acc, Pow2(nbits), data[pos], 0x100);
  }

  /** acc & (1<<w - 1) and acc >> w. */
  function LowBits(acc: nat, w: nat): (r: nat)
    ensures r < Pow2(w)
  {
    Mod(acc, Pow2(w))
  }

  function HighBits(acc: nat, w: nat): nat {
    Div(acc, Pow2(w))
  }

  lemma SplitBits(acc: nat, w: nat, nbits: nat)
    requires w <= nbits && acc < Pow2(nbits)
    ensures acc == LowBits(acc, w) + Times(Pow2(w), HighBits(acc, w))
    ensures HighBits(acc, w) < Pow2(nbits - w)
  {
    Pow2Add(w, nbits - w);
    QuotientBound(acc, Pow2(w), Pow2(nbits - w));
  }

  lemma UnpackValue(w: nat, data: seq<byte>, vs: seq<nat>, pos: nat, nbits: nat, acc: nat)
    requires Unpacking(w, data, vs, pos, nbits, acc) && nbits >= w
    ensures Unpacking(w, data, vs + [LowBits(acc, w)], pos, nbits - w, HighBits(acc, w))
  {
    var q, b, low, high := Pow(Pow2(w), |vs|), Pow2(w), LowBits(acc, w), HighBits(acc, w);
    SplitBits(acc, w, nbits);
    TimesLaws(|vs|, 1, w);
    assert Times(|vs| + 1, w) == Times(|vs|, w) + w by { assert Times(1, w) == w; }
    PowSnoc(b, |vs|);
    assert Times(Pow(b, |vs| + 1), Pow2(nbits - w)) == Pow(0x100, pos) by {
      Pow2Add(w, nbits - w);
      TimesLaws(q, b, Pow2(nbits - w));
    }
    assert FromLE(data[..pos]) == Num(b, vs + [low]) + Times(Pow(b, |vs| + 1), high) by {
      NumSnoc(b, vs, low);
      TimesLaws(q, b, high);
      TimesLaws(q, low, Times(b, high));
    }
  }

  lemma UnpackEnd(w: nat, data: seq<byte>, vs: seq<nat>, pos: nat, nbits: nat, acc: nat)
    requires Unpacking(w, data, vs, pos, nbits, acc) && nbits < 8
    ensures pos == PackedLen(|vs|, w) && vs == Unpacked(data, |vs|, w)
  {
    DigitsNum(Pow2(w), vs, acc);
  }

  lemma RoomForByte(w: nat, i: nat, n: nat, pos: nat, nbits: nat)
    requires i < n && nbits < w && Times(i, w) + nbits == 8 * pos
    ensures pos < PackedLen(n, w)
  {
    TimesLaws(i + 1, n - i - 1, w);
    TimesLaws(i, 1, w);
    assert Times(1, w) == w;
  }

  method ClearAll(vals: array<u32>, n: nat)
    requires n <= vals.Length
    modifies vals
    ensures forall j :: 0 <= j < n ==> vals[j] == 0
    ensures forall j :: n <= j < vals.Length ==> vals[j] == old(vals[j])
  {
    for i := 0 to n
      invariant forall j :: 0 <= j < i ==> vals[j] == 0
      invariant forall j :: n <= j < vals.Length ==> vals[j] == old(vals[j])
    {
      vals[i] := 0;
    }
  }

  /** The inner loop of unpack: whole bytes come in until a value's w bits are there. */
  method Refill(data: seq<byte>, w: nat, acc0: nat, nbits0: nat, pos0: nat, ghost vs: seq<nat>, ghost n: nat)
    returns (acc: nat, nbits: nat, pos: nat)
    requires |vs| < n && PackedLen(n, w) <= |data|
    requires nbits0 < 8 && Unpacking(w, data, vs, pos0, nbits0, acc0)
    ensures w <= nbits < w + 8 && Unpacking(w, data, vs, pos, nbits, acc)
  {
    acc, nbits, pos := acc0, nbits0, pos0;
    while nbits < w
      invariant nbits < w + 8
      invariant Unpacking(w, data, vs, pos, nbits, acc)
    {
      RoomForByte(w, |vs|, n, pos, nbits);
      UnpackByte(w, data, vs, pos, nbits, acc);
      acc := acc + Times(Pow2(nbits), data[pos]);
      pos := pos + 1;
      nbits := nbits + 8;
    }
  }

  /** hotfmt/postings.go unpack, into the first n slots of vals. */
  method Unpack(data: seq<byte>, vals: array<u32>, n: nat, w: nat)
    requires w <= 32 && n <= vals.Length && PackedLen(n, w) <= |data|
    modifies vals
    ensures vals[..n] == Unpacked(data, n, w)
    ensures forall j :: n <= j < vals.Length ==> vals[j] == old(vals[j])
  {
    if w == 0 {
      ClearAll(vals, n);
      assert Pow2(w) == 1;
      assert forall i :: 0 <= i < n ==> Unpacked(data, n, w)[i] == 0;
      return;
    }
    var acc: nat, nbits: nat, pos := 0, 0, 0;
    ghost var vs: seq<nat> := [];
    UnpackingStart(w, data);
    for i := 0 to n
      invariant nbits < 8 && |vs| == i
      invariant forall j :: 0 <= j < i ==> vals[j] == vs[j]
      invariant forall j :: n <= j < vals.Length ==> vals[j] == old(vals[j])
      invariant Unpacking(w, data, vs, pos, nbits, acc)
    {
      acc, nbits, pos := Refill(data, w, acc, nbits, pos, vs, n);
      UnpackValue(w, data, vs, pos, nbits, acc);
      WidthFits(w);
      vals[i] := LowBits(acc, w);
      vs := vs + [LowBits(acc, w)];
      acc := HighBits(acc, w);
      nbits := nbits - w;
    }
    UnpackEnd(w, data, vs, pos, nbits, acc);
  }

  /** Unpacking what was packed gives the values back, whatever bytes follow. */
  lemma PackRoundTrip(vals: seq<nat>, w: nat, rest: seq<byte>)
    requires Fits(Pow2(w), vals)
    ensures Unpacked(Packed(vals, w) + rest, |vals|, w) == vals
  {
    var n := |vals|;
    var len := PackedLen(n, w);
    assert (Packed(vals, w) + rest)[..len] == Packed(vals, w);
    NumBound(Pow2(w), vals);
    LengthHolds(n, w);
    NumDigits(0x100, len, Num(Pow2(w), vals));
    DigitsNum(Pow2(w), vals, 0);
    assert Times(Pow(Pow2(w), n), 0) == 0;
  }

  lemma {:induction false} PowIsPow2(w: nat, n: nat)
    ensures Pow(Pow2(w), n) == Pow2(Times(n, w))
  {
    if n == 0 {
      assert Times(0, w) == 0;
    } else {
      PowIsPow2(w, n - 1);
      TimesLaws(n - 1, 1, w);
      assert Times(1, w) == w;
      Pow2Add(w, Times(n - 1, w));
    }
  }

  lemma LengthHolds(n: nat, w: nat)
    ensures Pow(Pow2(w), n) <= Pow(0x100, PackedLen(n, w))
  {
    PowIsPow2(w, n);
    PowIsPow2(8, PackedLen(n, w));
    ByteBase();
    assert Times(PackedLen(n, w), 8) == 8 * PackedLen(n, w);
    Pow2Monotone(Times(n, w), 8 * PackedLen(n, w));
  }
}
