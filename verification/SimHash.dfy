/**
 * The packed sketch of crawl/simhash.go against one counter per bit. A token enters as its 64-bit feature.
 */
module SimHash {
  import opened Bytes

  // ----- bits -----

  function Shift(x: nat, n: nat): nat {
    if n == 0 then x else Shift(x / 2, n - 1)
  }

  function Bit(x: nat, b: nat): (r: nat)
    ensures r <= 1
  {
    Shift(x, b) % 2
  }

  function Nibble(x: nat, w: nat): (r: nat)
    ensures r < 16
  {
    Shift(x, 4 * w) % 16
  }

  lemma {:induction false} ShiftShift(x: nat, a: nat, b: nat)
    ensures Shift(Shift(x, a), b) == Shift(x, a + b)
  {
    if a > 0 {
      ShiftShift(x / 2, a - 1, b);
    }
  }

  lemma ShiftSmall(x: nat)
    ensures Shift(x, 0) == x && Shift(x, 1) == x / 2 && Shift(x, 2) == x / 4 && Shift(x, 3) == x / 8 && Shift(x, 4) == x / 16
  {
    ShiftShift(x, 1, 1);
    ShiftShift(x, 2, 1);
    ShiftShift(x, 3, 1);
    assert Shift(x / 2, 1) == x / 2 / 2 && Shift(x / 4, 1) == x / 4 / 2 && Shift(x / 8, 1) == x / 8 / 2;
  }

  /** An even multiple does not show in the low bit. */
  lemma LowBitOf(a: nat, b: nat)
    ensures (2 * a + b) % 2 == b % 2
  {
  }

  /** Halving a number halves its remainder. */
  lemma HalfOfMod(g: nat, q: nat, r: nat)
    requires g == 16 * q + r && r < 16
    ensures g % 2 == r % 2 && (g / 2) % 2 == (r / 2) % 2 && (g / 4) % 2 == (r / 4) % 2 && (g / 8) % 2 == (r / 8) % 2
  {
    var a, b, c := r / 2, r / 4, r / 8;
    assert g / 2 == 8 * q + a;
    assert g / 4 == 4 * q + b;
    assert g / 8 == 2 * q + c;
    LowBitOf(8 * q, r);
    LowBitOf(4 * q, a);
    LowBitOf(2 * q, b);
    LowBitOf(q, c);
  }

  lemma LowBits(g: nat, l: nat)
    requires l < 4
    ensures Bit(g % 16, l) == Bit(g, l)
  {
    hide Shift;
    ShiftSmall(g);
    ShiftSmall(g % 16);
    HalfOfMod(g, g / 16, g % 16);
  }

  lemma NibbleBits(x: nat, w: nat, l: nat)
    requires l < 4
    ensures Bit(Nibble(x, w), l) == Bit(x, 4 * w + l)
  {
    hide Shift;
    ShiftShift(x, 4 * w, l);
    LowBits(Shift(x, 4 * w), l);
  }

  // ----- four 16-bit lanes in one word -----

  function Packed(a: nat, b: nat, c: nat, d: nat): nat {
    a + 0x1_0000 * (b + 0x1_0000 * (c + 0x1_0000 * d))
  }

  /** lanes[w] >> (16*l) & 0xFFFF */
  function Lane(word: nat, l: nat): nat {
    Shift(word, 16 * l) % 0x1_0000
  }

  lemma Shift16(x: nat)
    ensures Shift(x, 16) == x / 0x1_0000
  {
    ShiftShift(x, 4, 4);
    ShiftShift(x, 8, 8);
    ShiftSmall(x);
    ShiftSmall(x / 16);
    ShiftSmall(x / 16 / 16);
    ShiftSmall(x / 16 / 16 / 16);
    ShiftShift(x / 16 / 16, 4, 4);
  }

  lemma LanesOf(a: nat, b: nat, c: nat, d: nat)
    requires a < 0x1_0000 && b < 0x1_0000 && c < 0x1_0000 && d < 0x1_0000
    ensures var p := Packed(a, b, c, d); Lane(p, 0) == a && Lane(p, 1) == b && Lane(p, 2) == c && Lane(p, 3) == d
    ensures Packed(a, b, c, d) < 0x1_0000_0000_0000_0000
  {
    hide Shift;
    var p := Packed(a, b, c, d);
    ShiftSmall(p);
    Shift16(p);
    ShiftShift(p, 16, 16);
    Shift16(p / 0x1_0000);
    ShiftShift(p, 32, 16);
    Shift16(p / 0x1_0000 / 0x1_0000);
    assert p / 0x1_0000 == b + 0x1_0000 * (c + 0x1_0000 * d);
    assert p / 0x1_0000 / 0x1_0000 == c + 0x1_0000 * d;
  }

  /** nibSpread[n]: 2 in each lane whose bit is set. */
  function Spread(n: nat): nat {
    Packed(2 * Bit(n, 0), 2 * Bit(n, 1), 2 * Bit(n, 2), 2 * Bit(n, 3))
  }

  // ----- one counter per bit -----

  function Ones(fs: seq<u64>, b: nat): (n: nat)
    ensures n <= |fs|
  {
    if fs == [] then 0 else Ones(fs[..|fs| - 1], b) + Bit(fs[|fs| - 1], b)
  }

  /** How many more features have bit b than lack it. */
  function Votes(fs: seq<u64>, b: nat): int {
    2 * Ones(fs, b) - |fs|
  }

  /** A 32-bit counter wraps. */
  function Wrap32(x: int): int {
    (x + 0x8000_0000) % 0x1_0000_0000 - 0x8000_0000
  }

  /** The word whose bit b, for b below n, is set when its 32-bit counter ends above zero. */
  function Sketch(fs: seq<u64>, n: nat): (s: nat) {
    if n == 0 then 0 else Sketch(fs, n - 1) + if Wrap32(Votes(fs, n - 1)) > 0 then Pow2(n - 1) else 0
  }

  lemma {:induction false} SketchBelow(fs: seq<u64>, n: nat)
    ensures Sketch(fs, n) < Pow2(n)
  {
    if n > 0 {
      SketchBelow(fs, n - 1);
    }
  }

  lemma {:induction false} HighBit(x: nat, n: nat, b: nat, top: nat)
    requires x < Pow2(n) && top <= 1
    ensures Bit(x + (if top == 1 then Pow2(n) else 0), b) == if b == n then top else if b < n then Bit(x, b) else 0
  {
    if n == 0 {
      SmallBit(top, b);
    } else if b > 0 {
      HighBit(x / 2, n - 1, b - 1, top);
      assert (x + (if top == 1 then Pow2(n) else 0)) / 2 == x / 2 + if top == 1 then Pow2(n - 1) else 0;
    }
  }

  lemma {:induction false} SmallBit(x: nat, b: nat)
    requires x <= 1
    ensures Bit(x, b) == if b == 0 then x else 0
  {
    if b > 0 {
      ZeroBit(b - 1);
    }
  }

  lemma {:induction false} ZeroBit(b: nat)
    ensures Bit(0, b) == 0
  {
    if b > 0 {
      ZeroBit(b - 1);
    }
  }

  lemma {:induction false} SketchBit(fs: seq<u64>, n: nat, b: nat)
    requires b < n
    ensures Bit(Sketch(fs, n), b) == if Wrap32(Votes(fs, b)) > 0 then 1 else 0
  {
    SketchBelow(fs, n - 1);
    HighBit(Sketch(fs, n - 1), n - 1, b, if Wrap32(Votes(fs, n - 1)) > 0 then 1 else 0);
    if b < n - 1 {
      SketchBit(fs, n - 1, b);
    }
  }

  /** Bit b of the sketch is set exactly when most features have it. */
  ghost predicate TellsMajority(fs: seq<u64>, b: nat) {
    Bit(Sketch(fs, 64), b) == 1 <==> 2 * Ones(fs, b) > |fs|
  }

  /** Below 2^31 tokens no counter wraps. */
  lemma SketchIsMajority(fs: seq<u64>, b: nat)
    requires |fs| < 0x8000_0000 && b < 64
    ensures TellsMajority(fs, b)
  {
    SketchBit(fs, 64, b);
  }

  lemma {:induction false} OnesOfAll(fs: seq<u64>, b: nat)
    requires forall f :: f in fs ==> Bit(f, b) == 1
    ensures Ones(fs, b) == |fs|
  {
    if fs != [] {
      OnesOfAll(fs[..|fs| - 1], b);
    }
  }

  lemma {:induction false} OnesOfNone(fs: seq<u64>, b: nat)
    requires forall f :: f in fs ==> Bit(f, b) == 0
    ensures Ones(fs, b) == 0
  {
    if fs != [] {
      OnesOfNone(fs[..|fs| - 1], b);
    }
  }

  /** From 2^31 tokens on, some counter ends just past its largest value. */
  lemma MajorityLost(n: nat) returns (fs: seq<u64>)
    requires n >= 0x8000_0000
    ensures |fs| == n && !TellsMajority(fs, 0)
  {
    var k := (n + 0x8000_0001) / 2;
    var ones, none := seq(k, i => 1 as u64), seq(n - k, i => 0 as u64);
    fs := ones + none;
    OnesOfAll(ones, 0);
    OnesOfNone(none, 0);
    OnesConcat(ones, none, 0);
    SketchBit(fs, 64, 0);
  }

  /** The sketch is the majority vote on every input of n tokens if and only if n is below 2^31. */
  lemma MajorityExact(n: nat)
    ensures (forall fs: seq<u64>, b: nat :: |fs| == n && b < 64 ==> TellsMajority(fs, b)) <==> n < 0x8000_0000
  {
    hide TellsMajority;
    if n < 0x8000_0000 {
      forall fs: seq<u64>, b: nat | |fs| == n && b < 64 ensures TellsMajority(fs, b) {
        SketchIsMajority(fs, b);
      }
    } else {
      var fs := MajorityLost(n);
    }
  }

  // ----- the packed loop -----

  /** What word w holds after the features of a chunk. */
  ghost predicate Counts(word: u64, fs: seq<u64>, w: nat) {
    word == Packed(2 * Ones(fs, 4 * w), 2 * Ones(fs, 4 * w + 1), 2 * Ones(fs, 4 * w + 2), 2 * Ones(fs, 4 * w + 3))
  }

  lemma Counted(word: u64, fs: seq<u64>, f: u64, w: nat)
    requires Counts(word, fs, w) && |fs| < 32000
    ensures Counts((word + Spread(Nibble(f, w))) % 0x1_0000_0000_0000_0000, fs + [f], w)
  {
    hide Shift, Bit, Packed, Ones, Nibble;
    var n := Nibble(f, w);
    var (a, b, c, d) := (Ones(fs, 4 * w), Ones(fs, 4 * w + 1), Ones(fs, 4 * w + 2), Ones(fs, 4 * w + 3));
    NibbleBits(f, w, 0);
    NibbleBits(f, w, 1);
    NibbleBits(f, w, 2);
    NibbleBits(f, w, 3);
    OnesSnoc(fs, f, 4 * w);
    OnesSnoc(fs, f, 4 * w + 1);
    OnesSnoc(fs, f, 4 * w + 2);
    OnesSnoc(fs, f, 4 * w + 3);
    PackedAdds(2 * a, 2 * b, 2 * c, 2 * d, 2 * Bit(n, 0), 2 * Bit(n, 1), 2 * Bit(n, 2), 2 * Bit(n, 3));
    LanesOf(2 * a + 2 * Bit(n, 0), 2 * b + 2 * Bit(n, 1), 2 * c + 2 * Bit(n, 2), 2 * d + 2 * Bit(n, 3));
  }

  lemma OnesSnoc(fs: seq<u64>, f: u64, b: nat)
    ensures Ones(fs + [f], b) == Ones(fs, b) + Bit(f, b)
  {
    assert (fs + [f])[..|fs|] == fs;
  }

  lemma PackedAdds(a: nat, b: nat, c: nat, d: nat, a': nat, b': nat, c': nat, d': nat)
    ensures Packed(a, b, c, d) + Packed(a', b', c', d') == Packed(a + a', b + b', c + c', d + d')
  {
  }

  lemma {:induction false} OnesConcat(a: seq<u64>, c: seq<u64>, b: nat)
    ensures Ones(a + c, b) == Ones(a, b) + Ones(c, b)
  {
    if c == [] {
      assert a + c == a;
    } else {
      assert (a + c)[..|a + c| - 1] == a + c[..|c| - 1];
      OnesConcat(a, c[..|c| - 1], b);
    }
  }

  /** Adding a chunk's lane to a counter carries the vote on. */
  lemma LaneVotes(word: u64, done: seq<u64>, fs: seq<u64>, w: nat, l: nat)
    requires Counts(word, fs, w) && |fs| <= 32000 && l < 4
    ensures Wrap32(Wrap32(Votes(done, 4 * w + l)) + Lane(word, l) - |fs|) == Wrap32(Votes(done + fs, 4 * w + l))
  {
    hide Shift, Bit, Lane, Packed, Wrap32;
    LanesOf(2 * Ones(fs, 4 * w), 2 * Ones(fs, 4 * w + 1), 2 * Ones(fs, 4 * w + 2), 2 * Ones(fs, 4 * w + 3));
    assert l == 0 || l == 1 || l == 2 || l == 3;
    assert Lane(word, l) == 2 * Ones(fs, 4 * w + l);
    OnesConcat(done, fs, 4 * w + l);
    WrapAdds(Votes(done, 4 * w + l), Votes(fs, 4 * w + l));
  }

  lemma WrapAdds(x: int, y: int)
    ensures Wrap32(Wrap32(x) + y) == Wrap32(x + y)
  {
  }

  /** The counters hold the votes of done, and the lanes those of fs. */
  ghost predicate Holds(acc: seq<int>, lanes: seq<u64>, done: seq<u64>, fs: seq<u64>) {
    && |acc| == 64 && |lanes| == 16
    && (forall b :: 0 <= b < 64 ==> acc[b] == Wrap32(Votes(done, b)))
    && (forall w :: 0 <= w < 16 ==> Counts(lanes[w], fs, w))
  }

  /** Moves one word's four lanes into their counters. */
  method FlushWord(acc: array<int>, word: u64, w: nat, chunk: nat, ghost done: seq<u64>, ghost fs: seq<u64>)
    requires acc.Length == 64 && w < 16 && chunk == |fs| <= 32000 && Counts(word, fs, w)
    requires forall b :: 4 * w <= b < 64 ==> acc[b] == Wrap32(Votes(done, b))
    modifies acc
    ensures forall b :: 0 <= b < 4 * w ==> acc[b] == old(acc[b])
    ensures forall b :: 4 * w <= b < 4 * w + 4 ==> acc[b] == Wrap32(Votes(done + fs, b))
    ensures forall b :: 4 * w + 4 <= b < 64 ==> acc[b] == Wrap32(Votes(done, b))
  {
    hide Wrap32, Votes, Lane, Counts;
    for l := 0 to 4
      invariant forall b :: 0 <= b < 4 * w ==> acc[b] == old(acc[b])
      invariant forall b :: 4 * w <= b < 4 * w + l ==> acc[b] == Wrap32(Votes(done + fs, b))
      invariant forall b :: 4 * w + l <= b < 64 ==> acc[b] == Wrap32(Votes(done, b))
    {
      LaneVotes(word, done, fs, w, l);
      acc[4 * w + l] := Wrap32(acc[4 * w + l] + Lane(word, l) - chunk);
    }
  }

  /** Moves the lanes' votes into the counters. */
  method Flush(acc: array<int>, lanes: array<u64>, chunk: nat, ghost done: seq<u64>, ghost fs: seq<u64>)
    requires acc.Length == 64 && lanes.Length == 16 && chunk == |fs| <= 32000
    requires Holds(acc[..], lanes[..], done, fs)
    modifies acc, lanes
    ensures Holds(acc[..], lanes[..], done + fs, [])
  {
    hide Wrap32, Votes, Lane, Counts;
    for w := 0 to 16
      invariant forall b :: 0 <= b < 4 * w ==> acc[b] == Wrap32(Votes(done + fs, b))
      invariant forall b :: 4 * w <= b < 64 ==> acc[b] == Wrap32(Votes(done, b))
      invariant forall v :: 0 <= v < w ==> Counts(lanes[v], [], v)
      invariant forall v :: w <= v < 16 ==> Counts(lanes[v], fs, v)
    {
      FlushWord(acc, lanes[w], w, chunk, done, fs);
      lanes[w] := 0;
      Empty();
    }
  }

  /** One token: sixteen adds. */
  method Vote(lanes: array<u64>, f: u64, ghost fs: seq<u64>)
    requires lanes.Length == 16 && |fs| < 32000
    requires forall w :: 0 <= w < 16 ==> Counts(lanes[w], fs, w)
    modifies lanes
    ensures forall w :: 0 <= w < 16 ==> Counts(lanes[w], fs + [f], w)
  {
    hide Counts, Spread, Nibble;
    for w := 0 to 16
      invariant forall v :: 0 <= v < w ==> Counts(lanes[v], fs + [f], v)
      invariant forall v :: w <= v < 16 ==> Counts(lanes[v], fs, v)
    {
      Counted(lanes[w], fs, f, w);
      lanes[w] := (lanes[w] + Spread(Nibble(f, w))) % 0x1_0000_0000_0000_0000;
    }
  }

  /** The packed form, for token sequences of any length: no lane ever overflows and no chunk boundary shows. */
  method Simhash(features: seq<u64>) returns (out: nat)
    ensures out == Sketch(features, 64)
  {
    hide Counts, Votes, Wrap32;
    var acc := new int[64](_ => 0);
    var lanes := new u64[16](_ => 0);
    var chunk := 0;
    ghost var base := 0;
    Empty();
    for i := 0 to |features|
      invariant 0 <= base <= i && chunk == i - base < 32000
      invariant Holds(acc[..], lanes[..], features[..base], features[base..i])
    {
      Vote(lanes, features[i], features[base..i]);
      assert features[base..i] + [features[i]] == features[base..i + 1];
      chunk := chunk + 1;
      if chunk == 32000 {
        Flush(acc, lanes, chunk, features[..base], features[base..i + 1]);
        assert features[..base] + features[base..i + 1] == features[..i + 1];
        assert features[i + 1..i + 1] == [];
        base := i + 1;
        chunk := 0;
      }
    }
    Flush(acc, lanes, chunk, features[..base], features[base..|features|]);
    assert features[..base] + features[base..|features|] == features;
    out := Majority(acc, features);
  }

  lemma Empty()
    ensures forall w: nat :: Counts(0, [], w)
    ensures forall b: nat :: Wrap32(Votes([], b)) == 0
  {
  }

  method Majority(acc: array<int>, ghost features: seq<u64>) returns (out: nat)
    requires acc.Length == 64 && forall b :: 0 <= b < 64 ==> acc[b] == Wrap32(Votes(features, b))
    ensures out == Sketch(features, 64)
  {
    hide Votes, Wrap32;
    out := 0;
    for b := 0 to 64
      invariant out == Sketch(features, b)
    {
      if acc[b] > 0 {
        out := out + Pow2(b);
      }
    }
  }

  /** The plain form the packed one replaced: one counter per bit. */
  method SimhashRef(features: seq<u64>) returns (out: nat)
    ensures out == Sketch(features, 64)
  {
    hide Bit;
    var acc := new int[64](_ => 0);
    for i := 0 to |features|
      invariant forall b :: 0 <= b < 64 ==> acc[b] == Wrap32(Votes(features[..i], b))
    {
      assert features[..i + 1][..i] == features[..i];
      for b := 0 to 64
        invariant forall c :: 0 <= c < b ==> acc[c] == Wrap32(Votes(features[..i + 1], c))
        invariant forall c :: b <= c < 64 ==> acc[c] == Wrap32(Votes(features[..i], c))
      {
        WrapAdds(Votes(features[..i], b), 2 * Bit(features[i], b) - 1);
        acc[b] := Wrap32(acc[b] + 2 * Bit(features[i], b) - 1);
      }
    }
    assert features[..|features|] == features;
    out := Majority(acc, features);
  }
}
