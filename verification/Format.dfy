/** The object framing of chain/format.go, and its error-sticky reader. The checksum is a parameter. */
module Format {
  import opened Bytes
  import opened Records

  /** "tamndchizu fmt01" in ASCII. */
  const MAGIC: seq<byte> := [116, 97, 109, 110, 100, 99, 104, 105, 122, 117, 32, 102, 109, 116, 48, 49]
  const FORMAT_BATCH: u16 := 0x7A02
  const FORMAT_CKPT: u16 := 0x7A03

  type Checksum = seq<byte> -> u32

  datatype FormatError =
    | TooShort | BadMagic | BadFormat | BadVersion | BadHeaderCrc | BadBodyCrc
    | Truncated | Trailing | UnknownKind | BadSectionCrc

  // ----- reading fields -----

  /** What is left to read; a short read leaves nothing, for good. */
  datatype Input = Good(rest: seq<byte>) | Bad

  function Take(i: Input, n: nat): (r: (seq<byte>, Input))
    ensures |r.0| <= n
    ensures r.1.Good? ==> |r.0| == n
  {
    if i.Bad? || n > |i.rest| then ([], Bad) else (i.rest[..n], Good(i.rest[n..]))
  }

  function UInt(i: Input, n: nat): (r: (nat, Input))
    ensures r.0 < Pow(0x100, n)
  {
    var (bs, i') := Take(i, n);
    FromLEBound(bs);
    PowGrows(|bs|, n);
    (FromLE(bs), i')
  }

  lemma {:induction false} PowGrows(m: nat, n: nat)
    requires m <= n
    ensures Pow(0x100, m) <= Pow(0x100, n)
  {
    if m < n {
      PowGrows(m, n - 1);
    }
  }

  lemma Widths()
    ensures Pow(0x100, 1) == 0x100 && Pow(0x100, 2) == 0x1_0000
    ensures Pow(0x100, 4) == 0x1_0000_0000 && Pow(0x100, 8) == 0x1_0000_0000_0000_0000
  {
    ByteBase();
    assert Pow(0x100, 2) == 0x1_0000;
    assert Pow(0x100, 6) == 0x1_0000_0000_0000;
  }

  /** Fields of the given widths, one after the other. */
  function ReadFields(i: Input, ws: seq<nat>): (r: (seq<nat>, Input))
    ensures InRange(ws, r.0)
    ensures i.Bad? ==> r.1.Bad?
    decreases |ws|
  {
    if ws == [] then ([], i)
    else
      var (v, i') := UInt(i, ws[0]);
      var (vs, i'') := ReadFields(i', ws[1..]);
      ([v] + vs, i'')
  }

  predicate InRange(ws: seq<nat>, vs: seq<nat>) {
    |vs| == |ws| && forall j :: 0 <= j < |ws| ==> vs[j] < Pow(0x100, ws[j])
  }

  function Fields(ws: seq<nat>, vs: seq<nat>): seq<byte>
    requires |ws| == |vs|
  {
    if ws == [] then [] else LE(ws[0], vs[0]) + Fields(ws[1..], vs[1..])
  }

  lemma UIntLaw(data: seq<byte>, n: nat, v: nat, rest: seq<byte>)
    ensures UInt(Good(data), n) == (v, Good(rest)) <==> v < Pow(0x100, n) && data == LE(n, v) + rest
  {
    if UInt(Good(data), n) == (v, Good(rest)) {
      DigitsNum(0x100, data[..n], 0);
      assert Times(Pow(0x100, n), 0) == 0;
      assert data == data[..n] + data[n..];
    }
    if v < Pow(0x100, n) && data == LE(n, v) + rest {
      NumDigits(0x100, n, v);
      assert data[..n] == LE(n, v) && data[n..] == rest;
    }
  }

  /** Reading fields and writing them are inverse to each other, on exactly the values that fit. */
  lemma {:induction false} FieldsLaw(data: seq<byte>, ws: seq<nat>, vs: seq<nat>, rest: seq<byte>)
    ensures ReadFields(Good(data), ws) == (vs, Good(rest)) <==> InRange(ws, vs) && data == Fields(ws, vs) + rest
    decreases |ws|
  {
    if ws == [] {
      assert [] + rest == rest;
    } else {
      var (v, i') := UInt(Good(data), ws[0]);
      if ReadFields(Good(data), ws) == (vs, Good(rest)) {
        assert i'.Good?;
        assert vs[0] == v && vs[1..] == ReadFields(i', ws[1..]).0;
        UIntLaw(data, ws[0], v, i'.rest);
        FieldsLaw(i'.rest, ws[1..], vs[1..], rest);
        Assoc(LE(ws[0], v), Fields(ws[1..], vs[1..]), rest);
      }
      if InRange(ws, vs) && data == Fields(ws, vs) + rest {
        var tail := Fields(ws[1..], vs[1..]) + rest;
        Assoc(LE(ws[0], vs[0]), Fields(ws[1..], vs[1..]), rest);
        UIntLaw(data, ws[0], vs[0], tail);
        FieldsLaw(tail, ws[1..], vs[1..], rest);
        assert [vs[0]] + vs[1..] == vs;
      }
    }
  }

  /** The size of fields of these widths. */
  function Total(ws: seq<nat>): nat {
    if ws == [] then 0 else ws[0] + Total(ws[1..])
  }

  lemma {:induction false} FieldsLength(ws: seq<nat>, vs: seq<nat>)
    requires |ws| == |vs|
    ensures |Fields(ws, vs)| == Total(ws)
    decreases |ws|
  {
    if ws != [] {
      FieldsLength(ws[1..], vs[1..]);
    }
  }

  /** As many bytes as the fields need are all used. */
  lemma {:induction false} ReadsAll(data: seq<byte>, ws: seq<nat>, rest: seq<byte>)
    requires |data| == Total(ws)
    ensures ReadFields(Good(data + rest), ws).1 == Good(rest)
    decreases |ws|
  {
    if ws == [] {
      assert data + rest == rest;
    } else {
      assert (data + rest)[ws[0]..] == data[ws[0]..] + rest;
      ReadsAll(data[ws[0]..], ws[1..], rest);
    }
  }

  lemma Assoc<T>(a: seq<T>, b: seq<T>, c: seq<T>)
    ensures (a + b) + c == a + (b + c)
  {
  }

  function ReadStr(i: Input): (seq<byte>, Input) {
    var (n, i') := UInt(i, 2);
    Take(i', n)
  }

  function Str(s: seq<byte>): seq<byte> {
    LE(2, |s| % 0x1_0000) + s
  }

  predicate StrFits(s: seq<byte>) {
    |s| < 0x1_0000
  }

  lemma StrLaw(data: seq<byte>, s: seq<byte>, rest: seq<byte>)
    ensures ReadStr(Good(data)) == (s, Good(rest)) <==> StrFits(s) && data == Str(s) + rest
  {
    hide UInt, LE;
    Widths();
    var (n, i') := UInt(Good(data), 2);
    if ReadStr(Good(data)) == (s, Good(rest)) {
      UIntLaw(data, 2, n, i'.rest);
      assert i'.rest == s + rest;
      Assoc(LE(2, n), s, rest);
    }
    if StrFits(s) && data == Str(s) + rest {
      Assoc(LE(2, |s|), s, rest);
      UIntLaw(data, 2, |s|, s + rest);
      assert (s + rest)[..|s|] == s && (s + rest)[|s|..] == rest;
    }
  }

  // ----- repetition -----

  function Many<T>(i: Input, n: nat, read: Input -> (T, Input)): (r: (seq<T>, Input))
    ensures |r.0| == n
    decreases n
  {
    if n == 0 then ([], i)
    else
      var (x, i') := read(i);
      var (xs, i'') := Many(i', n - 1, read);
      ([x] + xs, i'')
  }

  function Concat<T>(xs: seq<T>, write: T -> seq<byte>): seq<byte> {
    if xs == [] then [] else write(xs[0]) + Concat(xs[1..], write)
  }

  predicate Always<T>(x: T) {
    true
  }

  /** read and write are inverse to each other, on exactly the values that fit; and failure sticks. */
  ghost predicate Codec<T(!new)>(read: Input -> (T, Input), write: T -> seq<byte>, fits: T -> bool) {
    && (forall data, x, rest :: read(Good(data)) == (x, Good(rest)) <==> fits(x) && data == write(x) + rest)
    && read(Bad).1 == Bad
  }

  lemma {:induction false} ManyBad<T(!new)>(n: nat, read: Input -> (T, Input), write: T -> seq<byte>, fits: T -> bool)
    requires Codec(read, write, fits)
    ensures Many(Bad, n, read).1 == Bad
  {
    if n > 0 {
      ManyBad(n - 1, read, write, fits);
    }
  }

  lemma {:induction false} ManyLaw<T(!new)>(data: seq<byte>, n: nat, xs: seq<T>, rest: seq<byte>,
                                            read: Input -> (T, Input), write: T -> seq<byte>, fits: T -> bool)
    requires Codec(read, write, fits)
    ensures Many(Good(data), n, read) == (xs, Good(rest))
       <==> |xs| == n && (forall x :: x in xs ==> fits(x)) && data == Concat(xs, write) + rest
    decreases n
  {
    if n == 0 {
      assert [] + rest == rest;
    } else {
      var (x, i') := read(Good(data));
      if Many(Good(data), n, read) == (xs, Good(rest)) {
        if i'.Bad? { ManyBad(n - 1, read, write, fits); }
        assert xs[0] == x && xs[1..] == Many(i', n - 1, read).0;
        ManyLaw(i'.rest, n - 1, xs[1..], rest, read, write, fits);
        assert data == write(x) + i'.rest;
        Assoc(write(x), Concat(xs[1..], write), rest);
        assert xs == [xs[0]] + xs[1..];
      }
      if |xs| == n && (forall y :: y in xs ==> fits(y)) && data == Concat(xs, write) + rest {
        var tail := Concat(xs[1..], write) + rest;
        Assoc(write(xs[0]), Concat(xs[1..], write), rest);
        assert data == write(xs[0]) + tail && fits(xs[0]);
        ManyLaw(tail, n - 1, xs[1..], rest, read, write, fits);
        assert [xs[0]] + xs[1..] == xs;
      }
    }
  }

  lemma StrCodec()
    ensures Codec(ReadStr, Str, StrFits)
  {
    forall data, s, rest ensures ReadStr(Good(data)) == (s, Good(rest)) <==> StrFits(s) && data == Str(s) + rest {
      StrLaw(data, s, rest);
    }
  }

  // ----- 64-bit words -----

  function WordBytes(w: u64): seq<byte> {
    LE(8, w)
  }

  function ReadWord(i: Input): (u64, Input) {
    Widths();
    UInt(i, 8)
  }

  lemma WordCodec()
    ensures Codec(ReadWord, WordBytes, Always)
  {
    forall data: seq<byte>, w: u64, rest: seq<byte>
      ensures ReadWord(Good(data)) == (w, Good(rest)) <==> data == WordBytes(w) + rest
    {
      Widths();
      UIntLaw(data, 8, w, rest);
    }
  }

  lemma {:induction false} WordsLength(ws: seq<u64>)
    ensures |Concat(ws, WordBytes)| == 8 * |ws|
  {
    if ws != [] {
      WordsLength(ws[1..]);
    }
  }

  lemma {:induction false} WordsAll(table: seq<byte>, n: nat)
    requires |table| == 8 * n
    ensures Many(Good(table), n, ReadWord).1 == Good([])
    decreases n
  {
    if n > 0 {
      WordsAll(table[8..], n - 1);
    }
  }

  // ----- framed objects -----

  function Preamble(format: u16): (h: seq<byte>)
    ensures |h| == 20
  {
    MAGIC + LE(2, format) + LE(2, 1)
  }

  function Object(format: u16, writer: u64, payload: seq<byte>, crc: Checksum): seq<byte> {
    Preamble(format) + LE(4, crc(Preamble(format))) + LE(8, writer) + payload + LE(4, crc(payload))
  }

  function OpenObject(data: seq<byte>, format: u16, crc: Checksum): Result<(u64, seq<byte>), FormatError> {
    if |data| < 36 then Err(TooShort)
    else if data[..16] != MAGIC then Err(BadMagic)
    else if FromLE(data[16..18]) != format then Err(BadFormat)
    else if FromLE(data[18..20]) == 0 || FromLE(data[18..20]) > 1 then Err(BadVersion)
    else if FromLE(data[20..24]) != crc(data[..20]) then Err(BadHeaderCrc)
    else
      var payload := data[32..|data| - 4];
      if FromLE(data[|data| - 4..]) != crc(payload) then Err(BadBodyCrc)
      else
        Widths(); FromLEBound(data[24..32]);
        Ok((FromLE(data[24..32]), payload))
  }

  lemma LELaw(bs: seq<byte>, n: nat, v: nat)
    requires |bs| == n && v < Pow(0x100, n)
    ensures FromLE(bs) == v <==> bs == LE(n, v)
  {
    if FromLE(bs) == v {
      DigitsNum(0x100, bs, 0);
      assert Times(Pow(0x100, n), 0) == 0;
    }
    NumDigits(0x100, n, v);
  }

  lemma Slices(data: seq<byte>)
    requires |data| >= 36
    ensures data == data[..20] + data[20..24] + data[24..32] + data[32..|data| - 4] + data[|data| - 4..]
    ensures data[..20] == data[..16] + data[16..18] + data[18..20]
  {
  }

  lemma Joined(a: seq<byte>, b: seq<byte>, c: seq<byte>, p: seq<byte>, d: seq<byte>)
    requires |a| == 20 && |b| == 4 && |c| == 8 && |d| == 4
    ensures var data := a + b + c + p + d;
            data[..20] == a && data[20..24] == b && data[24..32] == c && data[32..|data| - 4] == p && data[|data| - 4..] == d
  {
  }

  /** An object opens exactly when it is what was framed: format, version, both checksums and nothing else. */
  lemma ObjectLaw(data: seq<byte>, format: u16, crc: Checksum, writer: u64, payload: seq<byte>)
    ensures OpenObject(data, format, crc) == Ok((writer, payload)) <==> data == Object(format, writer, payload, crc)
  {
    Widths();
    var head := Preamble(format);
    if data == Object(format, writer, payload, crc) {
      Joined(head, LE(4, crc(head)), LE(8, writer), payload, LE(4, crc(payload)));
      assert data[..16] == head[..16] == MAGIC && data[16..18] == head[16..18] == LE(2, format);
      assert data[18..20] == head[18..20] == LE(2, 1);
      LELaw(data[16..18], 2, format);
      LELaw(data[18..20], 2, 1);
      LELaw(data[20..24], 4, crc(head));
      LELaw(data[24..32], 8, writer);
      LELaw(data[|data| - 4..], 4, crc(payload));
    }
    if OpenObject(data, format, crc) == Ok((writer, payload)) {
      Slices(data);
      LELaw(data[16..18], 2, format);
      LELaw(data[18..20], 2, 1);
      LELaw(data[20..24], 4, crc(data[..20]));
      LELaw(data[24..32], 8, writer);
      LELaw(data[|data| - 4..], 4, crc(payload));
    }
  }

  // ----- the tail of a file with a footer -----

  /** Where the footer is, with its own checksum; coldfmt and hotfmt files end the same way. */
  function Tail(off: nat, len: nat, crc: Checksum): (t: seq<byte>)
    ensures |t| == 16
  {
    LE(8, off) + LE(4, len) + LE(4, crc(LE(8, off) + LE(4, len)))
  }

  lemma TailReads(off: nat, len: nat, crc: Checksum)
    requires off < 0x1_0000_0000_0000_0000 && len < 0x1_0000_0000
    ensures var t := Tail(off, len, crc);
            FromLE(t[..8]) == off && FromLE(t[8..12]) == len && FromLE(t[12..]) == crc(t[..12])
  {
    hide FromLE, LE;
    var t, sum := Tail(off, len, crc), crc(LE(8, off) + LE(4, len));
    Widths();
    assert t[..8] == LE(8, off) && t[8..12] == LE(4, len) && t[12..] == LE(4, sum) && t[..12] == LE(8, off) + LE(4, len);
    LELaw(t[..8], 8, off);
    LELaw(t[8..12], 4, len);
    LELaw(t[12..], 4, sum);
  }

  lemma TailIs(t: seq<byte>, off: nat, len: nat, crc: Checksum)
    requires |t| == 16 && off < 0x1_0000_0000_0000_0000 && len < 0x1_0000_0000
    ensures t == Tail(off, len, crc) <==> FromLE(t[..8]) == off && FromLE(t[8..12]) == len && FromLE(t[12..]) == crc(t[..12])
  {
    hide FromLE, LE;
    Widths();
    LELaw(t[..8], 8, off);
    LELaw(t[8..12], 4, len);
    LELaw(t[12..], 4, crc(t[..12]));
    assert t == t[..12] + t[12..] && t[..12] == t[..8] + t[8..12];
    TailReads(off, len, crc);
  }
}
