/** Byte sequences, little-endian integers and the varint of hotfmt/format.go and coldfmt/primitives.go. */
module Bytes {

  type byte = x: int | 0 <= x < 0x100
  type u32 = x: int | 0 <= x < 0x1_0000_0000
  type u64 = x: int | 0 <= x < 0x1_0000_0000_0000_0000

  const MAX_U32: int := 0xFFFF_FFFF
  const MAX_U40: int := 0xFF_FFFF_FFFF

  datatype Result<+T, +E> = Ok(value: T) | Err(error: E)
  datatype Option<+T> = None | Some(value: T)

  /** 64-bit unsigned arithmetic wraps. */
  function Wrap64(x: int): u64 {
    x % 0x1_0000_0000_0000_0000
  }

  // ----- powers -----

  function Pow(b: nat, n: nat): (p: nat)
    ensures b >= 1 ==> p >= 1
  {
    if n == 0 then 1 else Times(b, Pow(b, n - 1))
  }

  function Pow2(n: nat): (p: nat)
    ensures p >= 1
  {
    if n == 0 then 1 else 2 * Pow2(n - 1)
  }

  /** A product, named so that the solver multiplies only where a lemma asks for it. */
  function Times(a: nat, b: nat): (p: nat)
    ensures a >= 1 && b >= 1 ==> p >= 1
  {
    a * b
  }

  lemma TimesLaws(a: nat, b: nat, c: nat)
    ensures Times(a, Times(b, c)) == Times(Times(a, b), c)
    ensures Times(a, b + c) == Times(a, b) + Times(a, c)
    ensures Times(a + b, c) == Times(a, c) + Times(b, c)
    ensures Times(a, b) == Times(b, a)
  {
    assert a * (b * c) == (a * b) * c;
  }

  lemma {:induction false} Pow2Add(a: nat, b: nat)
    ensures Pow2(a + b) == Times(Pow2(a), Pow2(b))
  {
    if a > 0 {
      Pow2Add(a - 1, b);
      assert Pow2(a + b) == 2 * Pow2(a - 1 + b);
      TimesLaws(2, Pow2(a - 1), Pow2(b));
    }
  }

  lemma {:induction false} Pow2Monotone(a: nat, b: nat)
    requires a <= b
    ensures Pow2(a) <= Pow2(b)
  {
    if a < b {
      Pow2Monotone(a, b - 1);
    }
  }

  lemma ByteBase()
    ensures Pow2(8) == 0x100
    ensures Pow(0x100, 1) == 0x100
    ensures Pow(0x100, 4) == 0x1_0000_0000 && Pow(0x100, 5) == 0x100_0000_0000
  {
    assert Pow(0x100, 2) == 0x1_0000;
    assert Pow(0x100, 4) == 0x1_0000_0000;
  }

  function Div(x: nat, b: nat): nat
    requires b >= 1
  {
    x / b
  }

  function Mod(x: nat, b: nat): (r: nat)
    requires b >= 1
    ensures r < b
  {
    x % b
  }

  // ----- numbers as little-endian digit strings -----

  function Num(b: nat, ds: seq<nat>): nat {
    if ds == [] then 0 else ds[0] + Times(b, Num(b, ds[1..]))
  }

  function Digits(b: nat, n: nat, x: nat): (ds: seq<nat>)
    requires b >= 1
    ensures |ds| == n
    ensures forall i :: 0 <= i < n ==> ds[i] < b
  {
    if n == 0 then [] else [x % b] + Digits(b, n - 1, x / b)
  }

  ghost predicate Fits(b: nat, ds: seq<nat>) {
    forall i :: 0 <= i < |ds| ==> ds[i] < b
  }

  lemma MulBound(d: nat, b: nat, x: nat, q: nat)
    requires d < b && x < q
    ensures d + Times(b, x) < Times(b, q)
  {
    assert b * (x + 1) <= b * q;
    assert b * (x + 1) == b * x + b;
  }

  lemma {:induction false} NumBound(b: nat, ds: seq<nat>)
    requires Fits(b, ds) && b >= 1
    ensures Num(b, ds) < Pow(b, |ds|)
  {
    if ds != [] {
      NumBound(b, ds[1..]);
      MulBound(ds[0], b, Num(b, ds[1..]), Pow(b, |ds| - 1));
    }
  }

  lemma {:induction false} NumAppend(b: nat, s: seq<nat>, t: seq<nat>)
    ensures Num(b, s + t) == Num(b, s) + Times(Pow(b, |s|), Num(b, t))
  {
    if s == [] {
      assert s + t == t;
      assert Times(1, Num(b, t)) == Num(b, t);
    } else {
      assert (s + t)[1..] == s[1..] + t;
      NumAppend(b, s[1..], t);
      var q, x, y := Pow(b, |s| - 1), Num(b, s[1..]), Num(b, t);
      TimesLaws(b, x, Times(q, y));
      TimesLaws(b, q, y);
    }
  }

  lemma NumSnoc(b: nat, s: seq<nat>, d: nat)
    ensures Num(b, s + [d]) == Num(b, s) + Times(Pow(b, |s|), d)
  {
    NumAppend(b, s, [d]);
    assert Num(b, [d]) == d + Times(b, 0);
  }

  lemma MulAtLeast(p: nat, k: nat)
    requires k >= 1
    ensures p * k >= p
  {
    assert p * k == p + p * (k - 1);
    assert p * (k - 1) >= 0;
  }

  lemma MulGap(p: nat, k: int)
    ensures k == 0 || p * k >= p || p * k <= 0 - p
  {
    if k > 0 {
      MulAtLeast(p, k);
    } else if k < 0 {
      MulAtLeast(p, 0 - k);
      assert p * (0 - k) == 0 - p * k;
    }
  }

  lemma DivModUnique(d: nat, p: nat, x: nat)
    requires d < p
    ensures (d + Times(p, x)) % p == d && (d + Times(p, x)) / p == x
  {
    var v := d + p * x;
    var q, r := v / p, v % p;
    assert v == p * q + r;
    assert p * (x - q) == p * x - p * q;
    MulGap(p, x - q);
  }

  /** The low |ds| digits of a number that starts with ds are ds. */
  lemma {:induction false} DigitsNum(b: nat, ds: seq<nat>, high: nat)
    requires Fits(b, ds) && b >= 1
    ensures Digits(b, |ds|, Num(b, ds) + Times(Pow(b, |ds|), high)) == ds
  {
    if ds != [] {
      var n := |ds|;
      var q, x := Pow(b, n - 1), Num(b, ds[1..]);
      var v := Num(b, ds) + Times(Pow(b, n), high);
      TimesLaws(b, q, high);
      TimesLaws(b, x, Times(q, high));
      assert v == ds[0] + Times(b, x + Times(q, high));
      DivModUnique(ds[0], b, x + Times(q, high));
      DigitsNum(b, ds[1..], high);
    }
  }

  lemma QuotientBound(x: nat, p: nat, q: nat)
    requires p > 0 && x < Times(p, q)
    ensures x / p < q && x == x % p + Times(p, x / p)
  {
    var k := x / p;
    assert x == p * k + x % p;
    assert p * q - p * k == p * (q - k);
    MulGap(p, q - k);
  }

  lemma {:induction false} NumDigits(b: nat, n: nat, x: nat)
    requires b >= 1 && x < Pow(b, n)
    ensures Num(b, Digits(b, n, x)) == x
  {
    if n > 0 {
      QuotientBound(x, b, Pow(b, n - 1));
      NumDigits(b, n - 1, x / b);
      assert Digits(b, n, x)[1..] == Digits(b, n - 1, x / b);
    }
  }

  // ----- fixed-width little-endian fields -----

  function LE(n: nat, v: nat): (bs: seq<byte>)
    ensures |bs| == n
  {
    Digits(0x100, n, v)
  }

  function FromLE(bs: seq<byte>): nat {
    Num(0x100, bs)
  }

  lemma FromLEBound(bs: seq<byte>)
    ensures FromLE(bs) < Pow(0x100, |bs|)
  {
    NumBound(0x100, bs);
  }

  function Zeros(n: nat): (bs: seq<byte>)
    ensures |bs| == n && forall i :: 0 <= i < n ==> bs[i] == 0
  {
    seq(n, i => 0)
  }

  lemma SameSplit<T>(a: seq<T>, b: seq<T>, c: seq<T>, d: seq<T>)
    requires |a| == |c| && a + b == c + d
    ensures a == c && b == d
  {
    assert a == (a + b)[..|a|] && c == (c + d)[..|c|];
    assert b == (a + b)[|a|..] && d == (c + d)[|c|..];
  }

  /** A u32 field at the front of data. */
  function U32(data: seq<byte>): (v: u32)
    requires |data| >= 4
  {
    FromLEBound(data[..4]);
    ByteBase();
    FromLE(data[..4])
  }

  /** A u40 field at the front of data. */
  function U40(data: seq<byte>): (v: nat)
    requires |data| >= 5
    ensures v <= MAX_U40
  {
    FromLEBound(data[..5]);
    ByteBase();
    FromLE(data[..5])
  }

  lemma U32RoundTrip(v: u32, rest: seq<byte>)
    ensures U32(LE(4, v) + rest) == v
  {
    ByteBase();
    NumDigits(0x100, 4, v);
    assert (LE(4, v) + rest)[..4] == LE(4, v);
  }

  lemma U40RoundTrip(v: nat, rest: seq<byte>)
    requires v <= MAX_U40
    ensures U40(LE(5, v) + rest) == v
  {
    ByteBase();
    NumDigits(0x100, 5, v);
    assert (LE(5, v) + rest)[..5] == LE(5, v);
  }

  // ----- minimal unsigned LEB128 -----

  datatype VarintError = BadVarint | NonMinimal

  function Uvarint(v: nat): (bs: seq<byte>)
    ensures 1 <= |bs|
    decreases v
  {
    if v < 0x80 then [v] else [v % 0x80 + 0x80] + Uvarint(v / 0x80)
  }

  /** What a varint may still hold from byte i on: 64 bits in all, so one bit is left for the tenth byte. */
  function Room(i: nat): (r: nat)
    requires i <= 9
    ensures r >= 2 && (i < 9 ==> r >= 0x100)
    decreases 9 - i
  {
    if i == 9 then 2 else 0x80 * Room(i + 1)
  }

  /** Go's binary.Uvarint from byte i on: the value of the bytes from i and the end; None is its n <= 0. */
  function ScanUvarint(data: seq<byte>, i: nat): (r: Option<(nat, nat)>)
    requires i <= |data|
    ensures r.Some? ==> i < r.value.1 <= |data|
    ensures r.Some? ==> i <= 9 && r.value.0 < Room(i)
    decreases |data| - i
  {
    if i == |data| || i >= 10 then None
    else if data[i] < 0x80 then
      if i == 9 && data[i] > 1 then None else Some((data[i], i + 1))
    else
      match ScanUvarint(data, i + 1)
      case None => None
      case Some((v, n)) => Some((data[i] % 0x80 + 0x80 * v, n))
  }

  /** How many bytes Uvarint takes for v. */
  function UvarintLen(v: nat): (n: nat) {
    if v < 0x80 then 1 else 1 + UvarintLen(v / 0x80)
  }

  function ReadUvarint(data: seq<byte>): (r: Result<(nat, nat), VarintError>)
    ensures r.Ok? ==> 1 <= r.value.1 <= |data| && r.value.0 < 0x1_0000_0000_0000_0000
  {
    match ScanUvarint(data, 0)
    case None => Err(BadVarint)
    case Some((v, n)) => if n != UvarintLen(v) then Err(NonMinimal) else Ok((v, n))
  }

  lemma {:induction false} UvarintLength(v: nat)
    ensures |Uvarint(v)| == UvarintLen(v)
    decreases v
  {
    if v >= 0x80 {
      UvarintLength(v / 0x80);
    }
  }

  /** Scanning from byte i reads back the number encoded there. */
  lemma {:induction false} ScanEncoded(data: seq<byte>, i: nat, v: nat)
    requires i <= 9 && v < Room(i)
    requires i + |Uvarint(v)| <= |data| && data[i..i + |Uvarint(v)|] == Uvarint(v)
    ensures ScanUvarint(data, i) == Some((v, i + |Uvarint(v)|))
    decreases v
  {
    assert data[i] == Uvarint(v)[0];
    if v >= 0x80 {
      var h := v / 0x80;
      assert data[i + 1..i + 1 + |Uvarint(h)|] == data[i..i + |Uvarint(v)|][1..] == Uvarint(h);
      ScanEncoded(data, i + 1, h);
    }
  }

  lemma SliceCons<T>(s: seq<T>, i: nat, n: nat)
    requires i < n <= |s|
    ensures s[i..n] == [s[i]] + s[i + 1..n]
  {
  }

  /** A scan that used no more bytes than the value needs read exactly that value's encoding. */
  lemma {:induction false} ScanMinimal(data: seq<byte>, i: nat)
    requires i <= |data| && ScanUvarint(data, i).Some?
    ensures var (v, n) := ScanUvarint(data, i).value;
            UvarintLen(v) <= n - i && (UvarintLen(v) == n - i ==> data[i..n] == Uvarint(v))
    decreases |data| - i
  {
    var (v, n) := ScanUvarint(data, i).value;
    if data[i] >= 0x80 {
      ScanMinimal(data, i + 1);
      SliceCons(data, i, n);
      assert v / 0x80 == ScanUvarint(data, i + 1).value.0;
    } else {
      assert data[i..n] == [data[i]];
    }
  }

  /**
   * The varint law: bytes decode to v exactly when they start with the one encoding of a 64-bit v,
   * so no other bytes are ever taken for v.
   */
  lemma UvarintLaw(data: seq<byte>, v: nat, n: nat)
    ensures ReadUvarint(data) == Ok((v, n))
       <==> v < 0x1_0000_0000_0000_0000 && n == |Uvarint(v)| && n <= |data| && data[..n] == Uvarint(v)
  {
    UvarintLength(v);
    assert Room(0) == 0x1_0000_0000_0000_0000 by {
      assert Room(9) == 2 && Room(8) == 0x100 && Room(6) == 0x40_0000 && Room(4) == 0x10_0000_0000;
      assert Room(2) == 0x4_0000_0000_0000;
    }
    if ReadUvarint(data) == Ok((v, n)) {
      ScanMinimal(data, 0);
      assert data[0..n] == data[..n];
    }
    if v < Room(0) && n == |Uvarint(v)| && n <= |data| && data[..n] == Uvarint(v) {
      assert data[0..0 + n] == data[..n];
      ScanEncoded(data, 0, v);
    }
  }

  lemma UvarintRoundTrip(v: u64, rest: seq<byte>)
    ensures ReadUvarint(Uvarint(v) + rest) == Ok((v, |Uvarint(v)|))
  {
    assert (Uvarint(v) + rest)[..|Uvarint(v)|] == Uvarint(v);
    UvarintLaw(Uvarint(v) + rest, v, |Uvarint(v)|);
  }
}
