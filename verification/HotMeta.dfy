/** hotfmt/meta.go: what its two structs are written as, and parsed from. Floats are their bit patterns. */
module HotMeta {
  import opened Bytes
  import opened Records
  import opened Format

  datatype MetaField = MetaField(id: byte, name: seq<byte>, sumLen: u64)

  datatype Meta = Meta(lawVer: u16, tokenizerVer: u16, quantScale: u32, quantPolicy: byte, docCount: u32,
                       fields: seq<MetaField>, lineage: seq<u64>)

  datatype FieldStat = FieldStat(id: byte, totalTokens: u64, avgLen: u32, weight: u32, b: u32)

  datatype FieldStats = FieldStats(k1: u32, alpha: u32, beta: u32, fields: seq<FieldStat>)

  datatype MetaError =
    | TableTooLong | FieldOrder | FieldName | MetaTooShort | FieldTruncated | LineageTruncated | LineageLength
    | StatsTooShort | StatsSize

  // ----- meta -----

  /** Whether an id may follow the one before it. */
  predicate Follows(last: Option<byte>, id: byte) {
    last.Some? ==> last.value < id
  }

  /** The first complaint about the schema, if there is one. */
  function FieldFault(fs: seq<MetaField>, last: Option<byte>): Option<MetaError> {
    if fs == [] then None
    else if !Follows(last, fs[0].id) then Some(FieldOrder)
    else if |fs[0].name| == 0 || |fs[0].name| > 64 then Some(FieldName)
    else FieldFault(fs[1..], Some(fs[0].id))
  }

  function FieldBytes(f: MetaField): seq<byte> {
    [f.id, |f.name| % 0x100] + (f.name + LE(8, f.sumLen))
  }

  const META_SHAPE: seq<nat> := [2, 2, 4, 1, 4, 1]

  function MetaHead(m: Meta): (f: seq<nat>)
    ensures |f| == 6
  {
    [m.lawVer, m.tokenizerVer, m.quantScale, m.quantPolicy, m.docCount, |m.fields| % 0x100]
  }

  function MetaBytes(m: Meta): seq<byte> {
    Fields(META_SHAPE, MetaHead(m)) + (Concat(m.fields, FieldBytes) + ([|m.lineage| % 0x100] + Concat(m.lineage, WordBytes)))
  }

  predicate GoodMeta(m: Meta) {
    |m.fields| <= 255 && |m.lineage| <= 255 && FieldFault(m.fields, None) == None
  }

  /** EncodeMeta. */
  function EncodeMeta(m: Meta): Result<seq<byte>, MetaError> {
    if |m.fields| > 255 || |m.lineage| > 255 then Err(TableTooLong)
    else if FieldFault(m.fields, None).Some? then Err(FieldFault(m.fields, None).value)
    else Ok(MetaBytes(m))
  }

  function FieldsOf(rest: seq<byte>, n: nat, last: Option<byte>): (r: Result<(seq<MetaField>, seq<byte>), MetaError>)
    ensures r.Ok? ==> |r.value.0| == n
    decreases n
  {
    if n == 0 then Ok(([], rest))
    else if |rest| < 2 then Err(FieldTruncated)
    else
      var id, len := rest[0], rest[1];
      if len == 0 || len > 64 then Err(FieldName)
      else if |rest| < 2 + len + 8 then Err(FieldTruncated)
      else if !Follows(last, id) then Err(FieldOrder)
      else
        Widths(); FromLEBound(rest[2 + len..10 + len]);
        match FieldsOf(rest[10 + len..], n - 1, Some(id))
        case Err(e) => Err(e)
        case Ok((fs, more)) => Ok(([MetaField(id, rest[2..2 + len], FromLE(rest[2 + len..10 + len]))] + fs, more))
  }

  /** ParseMeta: MetaLaw says what it accepts. */
  function ParseMeta(data: seq<byte>): Result<Meta, MetaError> {
    if |data| < 14 then Err(MetaTooShort)
    else
      Widths();
      var v := ReadFields(Good(data[..14]), META_SHAPE).0;
      match FieldsOf(data[14..], v[5], None)
      case Err(e) => Err(e)
      case Ok((fs, rest)) =>
        if |rest| < 1 then Err(LineageTruncated)
        else if |rest| - 1 != 8 * (rest[0] as nat) then Err(LineageLength)
        else Ok(MetaFrom(v, fs, Many(Good(rest[1..]), rest[0], ReadWord).0))
  }

  function MetaFrom(v: seq<nat>, fs: seq<MetaField>, lineage: seq<u64>): Meta
    requires InRange(META_SHAPE, v)
  {
    Widths();
    Meta(v[0], v[1], v[2], v[3], v[4], fs, lineage)
  }

  // ----- fieldstats -----

  function StatFault(fs: seq<FieldStat>, last: Option<byte>): Option<MetaError> {
    if fs == [] then None
    else if !Follows(last, fs[0].id) then Some(FieldOrder)
    else StatFault(fs[1..], Some(fs[0].id))
  }

  const STAT_SHAPE: seq<nat> := [1, 8, 4, 4, 4]

  function StatWords(f: FieldStat): (vs: seq<nat>)
    ensures |vs| == 5
  {
    [f.id, f.totalTokens, f.avgLen, f.weight, f.b]
  }

  function StatBytes(f: FieldStat): seq<byte> {
    Fields(STAT_SHAPE, StatWords(f))
  }

  function StatsBytes(s: FieldStats): seq<byte> {
    Fields([4, 4, 4, 1], [s.k1, s.alpha, s.beta, |s.fields| % 0x100]) + Concat(s.fields, StatBytes)
  }

  predicate GoodStats(s: FieldStats) {
    |s.fields| <= 255 && StatFault(s.fields, None) == None
  }

  /** EncodeFieldStats. */
  function EncodeFieldStats(s: FieldStats): Result<seq<byte>, MetaError> {
    if |s.fields| > 255 then Err(TableTooLong)
    else if StatFault(s.fields, None).Some? then Err(StatFault(s.fields, None).value)
    else Ok(StatsBytes(s))
  }

  function StatsOf(rest: seq<byte>, n: nat, last: Option<byte>): Result<seq<FieldStat>, MetaError>
    requires |rest| == 21 * n
    decreases n
  {
    if n == 0 then Ok([])
    else
      Widths();
      var v := ReadFields(Good(rest[..21]), STAT_SHAPE).0;
      if !Follows(last, v[0]) then Err(FieldOrder)
      else
        match StatsOf(rest[21..], n - 1, Some(v[0]))
        case Err(e) => Err(e)
        case Ok(fs) => Ok([FieldStat(v[0], v[1], v[2], v[3], v[4])] + fs)
  }

  /** ParseFieldStats: StatsLaw says what it accepts. */
  function ParseFieldStats(data: seq<byte>): Result<FieldStats, MetaError> {
    if |data| < 13 then Err(StatsTooShort)
    else
      Widths();
      var v := ReadFields(Good(data[..13]), [4, 4, 4, 1]).0;
      if |data| - 13 != 21 * v[3] then Err(StatsSize)
      else
        match StatsOf(data[13..], v[3], None)
        case Err(e) => Err(e)
        case Ok(fs) => Ok(FieldStats(v[0], v[1], v[2], fs))
  }

  // ----- the laws -----

  lemma Totals()
    ensures Total(META_SHAPE) == 14 && Total(STAT_SHAPE) == 21 && Total([4, 4, 4, 1]) == 13
  {
    assert Total([]) == 0 && [1][1..] == [] && [4, 1][1..] == [1] && [1, 4, 1][1..] == [4, 1] && [4, 1, 4, 1][1..] == [1, 4, 1];
    assert [2, 4, 1, 4, 1][1..] == [4, 1, 4, 1] && META_SHAPE[1..] == [2, 4, 1, 4, 1];
    assert Total([4, 1]) == 5 && Total([1, 4, 1]) == 6 && Total([4, 1, 4, 1]) == 10 && Total([2, 4, 1, 4, 1]) == 12;
    assert [4, 4, 1][1..] == [4, 1] && [4, 4, 4, 1][1..] == [4, 4, 1] && Total([4, 4, 1]) == 9;
    assert [4][1..] == [] && [4, 4][1..] == [4] && [4, 4, 4][1..] == [4, 4] && [8, 4, 4, 4][1..] == [4, 4, 4];
    assert STAT_SHAPE[1..] == [8, 4, 4, 4] && Total([4, 4]) == 8 && Total([4, 4, 4]) == 12 && Total([8, 4, 4, 4]) == 20;
  }

  /** A whole record of fixed fields is read exactly when it is what the fields are written as. */
  lemma RecordReads(d: seq<byte>, ws: seq<nat>, vs: seq<nat>)
    requires |ws| == |vs| && |d| == Total(ws) && InRange(ws, vs)
    ensures ReadFields(Good(d), ws).0 == vs <==> d == Fields(ws, vs)
  {
    hide ReadFields, Fields;
    ReadsAll(d, ws, []);
    FieldsLaw(d, ws, vs, []);
    assert d + [] == d && Fields(ws, vs) + [] == Fields(ws, vs);
  }

  lemma FourParts(rest: seq<byte>, n: nat)
    requires |rest| >= 10 + n
    ensures rest == [rest[0], rest[1]] + (rest[2..2 + n] + rest[2 + n..10 + n]) + rest[10 + n..]
  {
    assert rest == rest[..2] + rest[2..10 + n] + rest[10 + n..];
  }

  /** One schema field in front, cut as the reader cuts it. */
  lemma FieldFront(rest: seq<byte>, f: MetaField, tail: seq<byte>)
    requires 1 <= |f.name| <= 64
    ensures rest == FieldBytes(f) + tail
       <==> FrontIs(rest, f) && rest[10 + |f.name|..] == tail
  {
    hide LE, FromLE;
    var n := |f.name|;
    Widths();
    if |rest| >= 10 + n {
      var a, b, c, d := [rest[0], rest[1]], rest[2..2 + n], rest[2 + n..10 + n], rest[10 + n..];
      LELaw(c, 8, f.sumLen);
      FourParts(rest, n);
      if rest == FieldBytes(f) + tail {
        SameSplit(a + (b + c), d, FieldBytes(f), tail);
        SameSplit(a, b + c, [f.id, n], f.name + LE(8, f.sumLen));
        SameSplit(b, c, f.name, LE(8, f.sumLen));
      }
    }
  }

  lemma FieldsHead(rest: seq<byte>, n: nat, last: Option<byte>, fs: seq<MetaField>, tail: seq<byte>)
    requires n > 0
    ensures FieldsOf(rest, n, last) == Ok((fs, tail))
       <==> && fs != [] && 1 <= |fs[0].name| <= 64 && Follows(last, fs[0].id)
            && FrontIs(rest, fs[0]) && FieldsOf(rest[10 + |fs[0].name|..], n - 1, Some(fs[0].id)) == Ok((fs[1..], tail))
  {
    hide FromLE;
    if fs != [] {
      assert [fs[0]] + fs[1..] == fs;
    }
    var r := FieldsOf(rest, n, last);
    if r.Ok? {
      assert r.value.0[1..] == FieldsOf(rest[10 + rest[1]..], n - 1, Some(rest[0])).value.0;
    }
    if |rest| >= 2 && |rest| >= 10 + (rest[1] as nat) && rest[1] <= 64 {
      var t := FieldsOf(rest[10 + rest[1]..], n - 1, Some(rest[0]));
      if t.Ok? {
        var f := [MetaField(rest[0], rest[2..2 + rest[1]], FromLE(rest[2 + rest[1]..10 + rest[1]]) % 0x1_0000_0000_0000_0000)];
        assert (f + t.value.0)[1..] == t.value.0;
      }
    }
  }

  /** The reader's cut of one schema field at the front of rest. */
  predicate FrontIs(rest: seq<byte>, f: MetaField) {
    var n := |f.name|;
    && |rest| >= 10 + n && rest[0] == f.id && rest[1] == n && rest[2..2 + n] == f.name
    && FromLE(rest[2 + n..10 + n]) == f.sumLen
  }

  lemma {:induction false} FieldsListLaw(rest: seq<byte>, n: nat, last: Option<byte>, fs: seq<MetaField>, tail: seq<byte>)
    ensures FieldsOf(rest, n, last) == Ok((fs, tail))
       <==> |fs| == n && FieldFault(fs, last) == None && rest == Concat(fs, FieldBytes) + tail
    decreases n
  {
    hide FieldBytes, FieldsOf, FrontIs, Concat, Follows;
    if n == 0 {
      NoFields(rest, last, tail);
    } else {
      FieldsHead(rest, n, last, fs, tail);
      if fs != [] && 1 <= |fs[0].name| <= 64 {
        var f := fs[0];
        var more := Concat(fs[1..], FieldBytes) + tail;
        FieldFront(rest, f, more);
        ConcatFront(fs, tail);
        if FrontIs(rest, f) {
          FrontSize(rest, f);
          FieldsListLaw(rest[10 + |f.name|..], n - 1, Some(f.id), fs[1..], tail);
        }
      }
    }
  }

  lemma NoFields(rest: seq<byte>, last: Option<byte>, tail: seq<byte>)
    ensures FieldsOf(rest, 0, last) == Ok(([], rest)) && Concat([], FieldBytes) + tail == tail
  {
  }

  lemma FrontSize(rest: seq<byte>, f: MetaField)
    requires FrontIs(rest, f)
    ensures |rest| >= 10 + |f.name|
  {
  }

  lemma ConcatFront(fs: seq<MetaField>, tail: seq<byte>)
    requires fs != []
    ensures Concat(fs, FieldBytes) + tail == FieldBytes(fs[0]) + (Concat(fs[1..], FieldBytes) + tail)
  {
    hide FieldBytes;
    Assoc(FieldBytes(fs[0]), Concat(fs[1..], FieldBytes), tail);
  }

  lemma MetaParts(m: Meta, a: seq<byte>, rest: seq<byte>)
    requires |a| == 14 && |m.fields| <= 255
    ensures a + rest == MetaBytes(m)
       <==> && a == Fields(META_SHAPE, MetaHead(m))
            && rest == Concat(m.fields, FieldBytes) + ([|m.lineage| % 0x100] + Concat(m.lineage, WordBytes))
  {
    hide Fields, Concat;
    Totals();
    FieldsLength(META_SHAPE, MetaHead(m));
    if a + rest == MetaBytes(m) {
      SameSplit(a, rest, Fields(META_SHAPE, MetaHead(m)),
                Concat(m.fields, FieldBytes) + ([|m.lineage| % 0x100] + Concat(m.lineage, WordBytes)));
    }
  }

  /** A table of whole words is read exactly when it is what the words are written as. */
  lemma WordsRead(table: seq<byte>, n: nat, ws: seq<u64>)
    requires |table| == 8 * n
    ensures Many(Good(table), n, ReadWord).0 == ws <==> |ws| == n && table == Concat(ws, WordBytes)
  {
    hide Many, Concat, ReadWord, WordBytes, Codec;
    WordCodec();
    WordsAll(table, n);
    ManyLaw(table, n, ws, [], ReadWord, WordBytes, Always);
    assert Concat(ws, WordBytes) + [] == Concat(ws, WordBytes);
  }

  lemma LineageLaw(rest: seq<byte>, lineage: seq<u64>)
    ensures |rest| >= 1 && |rest| - 1 == 8 * (rest[0] as nat) && Many(Good(rest[1..]), rest[0], ReadWord).0 == lineage
       <==> |lineage| <= 255 && rest == [|lineage| % 0x100] + Concat(lineage, WordBytes)
  {
    hide Many, Concat, ReadWord, WordBytes;
    if |rest| >= 1 && |rest| - 1 == 8 * (rest[0] as nat) {
      WordsRead(rest[1..], rest[0], lineage);
      CountedSplit(rest, |lineage|, Concat(lineage, WordBytes));
    } else if |lineage| <= 255 {
      WordsLength(lineage);
      assert ([|lineage| % 0x100] + Concat(lineage, WordBytes))[0] == |lineage|;
    }
  }

  lemma CountedSplit(rest: seq<byte>, n: nat, body: seq<byte>)
    requires rest != []
    ensures n == rest[0] && rest[1..] == body <==> n <= 255 && rest == [n % 0x100] + body
  {
    assert rest == [rest[0]] + rest[1..];
    if n <= 255 && rest == [n % 0x100] + body {
      assert rest[1..] == body;
    }
  }

  lemma MetaSize(m: Meta)
    ensures |MetaBytes(m)| >= 14
  {
    hide Fields, Concat;
    Totals();
    FieldsLength(META_SHAPE, MetaHead(m));
  }

  /** The meta band parses to m exactly when it is what m is written as, and m is well-formed. */
  lemma MetaLaw(data: seq<byte>, m: Meta)
    ensures ParseMeta(data) == Ok(m) <==> GoodMeta(m) && data == MetaBytes(m)
  {
    hide ReadFields, Fields, Concat, FieldsOf, FieldFault, Many, MetaBytes;
    Totals();
    Widths();
    MetaSize(m);
    if |data| >= 14 && |m.fields| <= 255 {
      var a, rest := data[..14], data[14..];
      assert data == a + rest;
      RecordReads(a, META_SHAPE, MetaHead(m));
      MetaParts(m, a, rest);
      var tail := [|m.lineage| % 0x100] + Concat(m.lineage, WordBytes);
      LineageLaw(tail, m.lineage);
      FieldsListLaw(rest, |m.fields|, None, m.fields, tail);
      var v := ReadFields(Good(a), META_SHAPE).0;
      assert v == [v[0], v[1], v[2], v[3], v[4], v[5]];
      var r := FieldsOf(rest, v[5], None);
      if r.Ok? {
        LineageLaw(r.value.1, m.lineage);
      }
    }
  }

  lemma StatRead(d: seq<byte>, f: FieldStat)
    requires |d| == 21
    ensures ReadFields(Good(d), STAT_SHAPE).0 == StatWords(f) <==> d == StatBytes(f)
  {
    hide ReadFields, Fields;
    Totals();
    Widths();
    RecordReads(d, STAT_SHAPE, StatWords(f));
  }

  lemma StatsHead(rest: seq<byte>, n: nat, last: Option<byte>, fs: seq<FieldStat>)
    requires n > 0 && |rest| == 21 * n
    ensures StatsOf(rest, n, last) == Ok(fs)
       <==> && fs != [] && Follows(last, fs[0].id) && ReadFields(Good(rest[..21]), STAT_SHAPE).0 == StatWords(fs[0])
            && StatsOf(rest[21..], n - 1, Some(fs[0].id)) == Ok(fs[1..])
  {
    hide ReadFields, Follows;
    Widths();
    var v := ReadFields(Good(rest[..21]), STAT_SHAPE).0;
    assert v == [v[0], v[1], v[2], v[3], v[4]];
    if fs != [] {
      assert fs == [fs[0]] + fs[1..];
    }
  }

  lemma StatsFront(rest: seq<byte>, fs: seq<FieldStat>)
    requires |rest| >= 21 && fs != []
    ensures rest == Concat(fs, StatBytes) <==> rest[..21] == StatBytes(fs[0]) && rest[21..] == Concat(fs[1..], StatBytes)
  {
    hide Fields;
    Totals();
    FieldsLength(STAT_SHAPE, StatWords(fs[0]));
    assert rest == rest[..21] + rest[21..];
    if rest == Concat(fs, StatBytes) {
      SameSplit(rest[..21], rest[21..], StatBytes(fs[0]), Concat(fs[1..], StatBytes));
    }
  }

  lemma {:induction false} StatsListLaw(rest: seq<byte>, n: nat, last: Option<byte>, fs: seq<FieldStat>)
    requires |rest| == 21 * n
    ensures StatsOf(rest, n, last) == Ok(fs) <==> |fs| == n && StatFault(fs, last) == None && rest == Concat(fs, StatBytes)
    decreases n
  {
    hide ReadFields, Fields, Follows;
    if n > 0 && fs != [] {
      hide StatsOf, Concat, StatBytes, StatWords;
      StatsHead(rest, n, last, fs);
      StatsFront(rest, fs);
      StatRead(rest[..21], fs[0]);
      StatsListLaw(rest[21..], n - 1, Some(fs[0].id), fs[1..]);
    }
  }

  lemma {:induction false} StatsLength(fs: seq<FieldStat>)
    ensures |Concat(fs, StatBytes)| == 21 * |fs|
  {
    hide Fields;
    Totals();
    if fs != [] {
      var f := fs[0];
      FieldsLength(STAT_SHAPE, StatWords(f));
      StatsLength(fs[1..]);
    }
  }

  /** The fieldstats band parses to s exactly when it is what s is written as, and s is well-formed. */
  lemma StatsLaw(data: seq<byte>, s: FieldStats)
    ensures ParseFieldStats(data) == Ok(s) <==> GoodStats(s) && data == StatsBytes(s)
  {
    hide ReadFields, Fields, Concat, StatsOf, StatFault;
    Totals();
    Widths();
    var vs := [s.k1, s.alpha, s.beta, |s.fields| % 0x100];
    FieldsLength([4, 4, 4, 1], vs);
    StatsLength(s.fields);
    if |data| >= 13 {
      var a, rest := data[..13], data[13..];
      assert data == a + rest;
      RecordReads(a, [4, 4, 4, 1], vs);
      var v := ReadFields(Good(a), [4, 4, 4, 1]).0;
      assert v == [v[0], v[1], v[2], v[3]];
      if |rest| == 21 * v[3] {
        StatsListLaw(rest, v[3], None, s.fields);
      }
      if data == StatsBytes(s) {
        SameSplit(a, rest, Fields([4, 4, 4, 1], vs), Concat(s.fields, StatBytes));
      }
    }
  }
}
