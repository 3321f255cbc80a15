/** The nine record bodies of chain/records.go and the batch object of chain/format.go. */
module RecordCodec {
  import opened Bytes
  import opened Records
  import opened Format

  function KindOf(r: Record): byte {
    match r
    case MemberRec(_) => 1
    case LeaseGrant(_, _, _, _, _) => 2
    case LeaseRelease(_, _, _) => 3
    case SegCommit(_, _, _, _, _, _, _) => 4
    case ManAdvance(_, _, _, _) => 5
    case GenPublish(_, _, _, _, _) => 6
    case GenRetire(_, _) => 7
    case TierMap(_, _) => 8
    case Ckpt(_) => 9
  }

  // ----- bodies -----

  function WatermarkBytes(w: SourceWatermark): seq<byte> {
    Fields([2, 8], [w.partition, w.seqNo])
  }

  function AssignBytes(a: TierAssign): seq<byte> {
    Fields([2, 1], [a.shard, a.tier])
  }

  function MemberBytes(m: Member): seq<byte> {
    Fields([8, 1, 4, 1], [m.node, m.plane, m.incarnation, |m.endpoints| % 0x100])
    + (Concat(m.endpoints, Str) + Str(m.version))
  }

  /** A body; the counts of its variable parts are cut to their fields' widths. */
  function Body(r: Record): seq<byte> {
    match r
    case MemberRec(m) => MemberBytes(m)
    case LeaseGrant(epoch, domain, unit, node, deadlineMS) => Fields([4, 1, 4, 8, 8], [epoch, domain, unit, node, deadlineMS])
    case LeaseRelease(epoch, domain, unit) => Fields([4, 1, 4], [epoch, domain, unit])
    case SegCommit(epoch, family, partition, seqNo, rows, bytes, watermark) =>
      Fields([4, 1, 2, 8, 8, 8, 8], [epoch, family, partition, seqNo, rows, bytes, watermark])
    case ManAdvance(epoch, family, partition, manSeq) => Fields([4, 1, 2, 8], [epoch, family, partition, manSeq])
    case GenPublish(epoch, shard, generation, genKind, watermarks) =>
      Fields([4, 2, 8, 1, 2], [epoch, shard, generation, genKind, |watermarks| % 0x1_0000]) + Concat(watermarks, WatermarkBytes)
    case GenRetire(shard, generation) => Fields([2, 8], [shard, generation])
    case TierMap(version, assign) => Fields([8, 2], [version, |assign| % 0x1_0000]) + Concat(assign, AssignBytes)
    case Ckpt(ckptSeq) => Fields([8], [ckptSeq])
  }

  function ReadWatermark(i: Input): (SourceWatermark, Input) {
    Widths();
    var (v, i') := ReadFields(i, [2, 8]);
    (SourceWatermark(v[0], v[1]), i')
  }

  function ReadAssign(i: Input): (TierAssign, Input) {
    Widths();
    var (v, i') := ReadFields(i, [2, 1]);
    (TierAssign(v[0], v[1]), i')
  }

  function ReadMember(i: Input): (Member, Input) {
    Widths();
    var (v, i1) := ReadFields(i, [8, 1, 4, 1]);
    var (endpoints, i2) := Many(i1, v[3], ReadStr);
    var (version, i3) := ReadStr(i2);
    (Member(v[0], v[1], v[2], endpoints, version), i3)
  }

  function ReadGrant(i: Input): (r: (Record, Input))
    ensures r.0.LeaseGrant?
  {
    Widths();
    var (v, i') := ReadFields(i, [4, 1, 4, 8, 8]);
    (LeaseGrant(v[0], v[1], v[2], v[3], v[4]), i')
  }

  function ReadRelease(i: Input): (r: (Record, Input))
    ensures r.0.LeaseRelease?
  {
    Widths();
    var (v, i') := ReadFields(i, [4, 1, 4]);
    (LeaseRelease(v[0], v[1], v[2]), i')
  }

  function ReadCommit(i: Input): (r: (Record, Input))
    ensures r.0.SegCommit?
  {
    Widths();
    var (v, i') := ReadFields(i, [4, 1, 2, 8, 8, 8, 8]);
    (SegCommit(v[0], v[1], v[2], v[3], v[4], v[5], v[6]), i')
  }

  function ReadAdvance(i: Input): (r: (Record, Input))
    ensures r.0.ManAdvance?
  {
    Widths();
    var (v, i') := ReadFields(i, [4, 1, 2, 8]);
    (ManAdvance(v[0], v[1], v[2], v[3]), i')
  }

  function ReadPublish(i: Input): (r: (Record, Input))
    ensures r.0.GenPublish?
  {
    Widths();
    var (v, i1) := ReadFields(i, [4, 2, 8, 1, 2]);
    var (watermarks, i2) := Many(i1, v[4], ReadWatermark);
    (GenPublish(v[0], v[1], v[2], v[3], watermarks), i2)
  }

  function ReadRetire(i: Input): (r: (Record, Input))
    ensures r.0.GenRetire?
  {
    Widths();
    var (v, i') := ReadFields(i, [2, 8]);
    (GenRetire(v[0], v[1]), i')
  }

  function ReadTierMap(i: Input): (r: (Record, Input))
    ensures r.0.TierMap?
  {
    Widths();
    var (v, i1) := ReadFields(i, [8, 2]);
    var (assign, i2) := Many(i1, v[1], ReadAssign);
    (TierMap(v[0], assign), i2)
  }

  function ReadCkpt(i: Input): (r: (Record, Input))
    ensures r.0.Ckpt?
  {
    Widths();
    var (v, i') := ReadFields(i, [8]);
    (Ckpt(v[0]), i')
  }

  function ReadBody(kind: byte, i: Input): (Record, Input)
    requires 1 <= kind <= 9
  {
    match kind
    case 1 => var (m, i') := ReadMember(i); (MemberRec(m), i')
    case 2 => ReadGrant(i)
    case 3 => ReadRelease(i)
    case 4 => ReadCommit(i)
    case 5 => ReadAdvance(i)
    case 6 => ReadPublish(i)
    case 7 => ReadRetire(i)
    case 8 => ReadTierMap(i)
    case _ => ReadCkpt(i)
  }

  /** One body decodes completely or not at all. */
  function RecordOf(kind: byte, body: seq<byte>): Result<Record, FormatError> {
    if kind < 1 || kind > 9 then Err(UnknownKind)
    else
      var (r, i) := ReadBody(kind, Good(body));
      if i.Bad? then Err(Truncated)
      else if i.rest != [] then Err(Trailing)
      else Ok(r)
  }

  // ----- the law of bodies -----

  /** Every count and string length fits the field that carries it. */
  predicate RecordFits(r: Record) {
    match r
    case MemberRec(m) => MemberFits(m)
    case GenPublish(_, _, _, _, watermarks) => |watermarks| < 0x1_0000
    case TierMap(_, assign) => |assign| < 0x1_0000
    case _ => true
  }

  predicate MemberFits(m: Member) {
    |m.endpoints| < 0x100 && (forall e :: e in m.endpoints ==> StrFits(e)) && StrFits(m.version)
  }

  lemma WatermarkCodec()
    ensures Codec(ReadWatermark, WatermarkBytes, Always)
  {
    forall data, w, rest
      ensures ReadWatermark(Good(data)) == (w, Good(rest)) <==> data == WatermarkBytes(w) + rest
    {
      Widths();
      FieldsLaw(data, [2, 8], [w.partition, w.seqNo], rest);
      var v := ReadFields(Good(data), [2, 8]).0;
      assert v == [v[0], v[1]];
    }
  }

  lemma AssignCodec()
    ensures Codec(ReadAssign, AssignBytes, Always)
  {
    forall data, a, rest
      ensures ReadAssign(Good(data)) == (a, Good(rest)) <==> data == AssignBytes(a) + rest
    {
      Widths();
      FieldsLaw(data, [2, 1], [a.shard, a.tier], rest);
      var v := ReadFields(Good(data), [2, 1]).0;
      assert v == [v[0], v[1]];
    }
  }

  lemma MemberLaw(data: seq<byte>, m: Member, rest: seq<byte>)
    ensures ReadMember(Good(data)) == (m, Good(rest)) <==> MemberFits(m) && data == MemberBytes(m) + rest
  {
    hide ReadFields, Fields, Many, ReadStr, Str, StrFits, Concat;
    Widths();
    var (v, i1) := ReadFields(Good(data), [8, 1, 4, 1]);
    assert v == [v[0], v[1], v[2], v[3]];
    if ReadMember(Good(data)) == (m, Good(rest)) {
      var (es, i2) := Many(i1, v[3], ReadStr);
      MemberReads(data, m, v, i1, es, i2, rest);
    }
    if MemberFits(m) && data == MemberBytes(m) + rest {
      MemberWrites(data, m, rest);
    }
  }

  lemma MemberReads(data: seq<byte>, m: Member, v: seq<nat>, i1: Input, es: seq<seq<byte>>, i2: Input, rest: seq<byte>)
    requires |v| == 4 && (v, i1) == ReadFields(Good(data), [8, 1, 4, 1]) && (es, i2) == Many(i1, v[3], ReadStr)
    requires ReadStr(i2) == (m.version, Good(rest)) && v == [m.node, m.plane, m.incarnation, v[3]] && es == m.endpoints
    ensures MemberFits(m) && data == MemberBytes(m) + rest
  {
    hide ReadFields, Fields, Many, ReadStr, Str, StrFits, Concat;
    Widths();
    StrCodec();
    var ws := [8, 1, 4, 1];
    StrLaw(i2.rest, m.version, rest);
    if i1.Bad? { ManyBad(v[3], ReadStr, Str, StrFits); }
    ManyLaw(i1.rest, v[3], es, i2.rest, ReadStr, Str, StrFits);
    FieldsLaw(data, ws, v, i1.rest);
    Assoc(Concat(es, Str), Str(m.version), rest);
    Assoc(Fields(ws, v), Concat(es, Str) + Str(m.version), rest);
  }

  lemma MemberWrites(data: seq<byte>, m: Member, rest: seq<byte>)
    requires MemberFits(m) && data == MemberBytes(m) + rest
    ensures ReadMember(Good(data)) == (m, Good(rest))
  {
    hide ReadFields, Fields, Many, ReadStr, Str, StrFits, Concat;
    Widths();
    StrCodec();
    var ws, n := [8, 1, 4, 1], |m.endpoints|;
    var vs := [m.node, m.plane, m.incarnation, n % 0x100];
    var t2 := Str(m.version) + rest;
    var t1 := Concat(m.endpoints, Str) + t2;
    Assoc(Concat(m.endpoints, Str), Str(m.version), rest);
    Assoc(Fields(ws, vs), Concat(m.endpoints, Str) + Str(m.version), rest);
    FieldsLaw(data, ws, vs, t1);
    ManyLaw(t1, n, m.endpoints, t2, ReadStr, Str, StrFits);
    StrLaw(t2, m.version, rest);
  }

  /** A fixed head whose last field counts the items behind it. */
  lemma CountedLaw<T(!new)>(data: seq<byte>, ws: seq<nat>, vs: seq<nat>, xs: seq<T>, rest: seq<byte>,
                            read: Input -> (T, Input), write: T -> seq<byte>)
    requires ws != [] && |vs| == |ws| && InRange(ws, vs) && Codec(read, write, Always)
    requires |xs| < Pow(0x100, ws[|ws| - 1]) ==> vs[|vs| - 1] == |xs|
    ensures var (v, i) := ReadFields(Good(data), ws);
            (v == vs && Many(i, v[|v| - 1], read) == (xs, Good(rest)))
            <==> |xs| < Pow(0x100, ws[|ws| - 1]) && data == Fields(ws, vs) + Concat(xs, write) + rest
  {
    hide ReadFields, Fields, Many, Concat, InRange, Codec;
    var (v, i) := ReadFields(Good(data), ws);
    var k := |ws| - 1;
    if v == vs && Many(i, v[k], read) == (xs, Good(rest)) {
      CountedReads(data, ws, vs, xs, rest, read, write);
    }
    if |xs| < Pow(0x100, ws[k]) && data == Fields(ws, vs) + Concat(xs, write) + rest {
      CountedWrites(data, ws, vs, xs, rest, read, write);
    }
  }

  lemma CountedWrites<T(!new)>(data: seq<byte>, ws: seq<nat>, vs: seq<nat>, xs: seq<T>, rest: seq<byte>,
                               read: Input -> (T, Input), write: T -> seq<byte>)
    requires ws != [] && |vs| == |ws| && InRange(ws, vs) && Codec(read, write, Always)
    requires vs[|vs| - 1] == |xs| && data == Fields(ws, vs) + Concat(xs, write) + rest
    ensures var (v, i) := ReadFields(Good(data), ws); v == vs && Many(i, v[|v| - 1], read) == (xs, Good(rest))
  {
    hide ReadFields, Fields, Many, Concat, InRange, Codec;
    var t := Concat(xs, write) + rest;
    Assoc(Fields(ws, vs), Concat(xs, write), rest);
    FieldsLaw(data, ws, vs, t);
    ManyLaw(t, |xs|, xs, rest, read, write, Always);
  }

  lemma CountedReads<T(!new)>(data: seq<byte>, ws: seq<nat>, vs: seq<nat>, xs: seq<T>, rest: seq<byte>,
                              read: Input -> (T, Input), write: T -> seq<byte>)
    requires ws != [] && |vs| == |ws| && InRange(ws, vs) && Codec(read, write, Always)
    requires |xs| < Pow(0x100, ws[|ws| - 1]) ==> vs[|vs| - 1] == |xs|
    requires var (v, i) := ReadFields(Good(data), ws); v == vs && Many(i, v[|v| - 1], read) == (xs, Good(rest))
    ensures |xs| < Pow(0x100, ws[|ws| - 1]) && data == Fields(ws, vs) + Concat(xs, write) + rest
  {
    hide ReadFields, Fields, Many, Concat, InRange, Codec;
    var (v, i) := ReadFields(Good(data), ws);
    LastInRange(ws, vs);
    if i.Bad? { ManyBad(v[|v| - 1], read, write, Always); }
    assert i.rest == Concat(xs, write) + rest by {
      ManyLaw(i.rest, v[|v| - 1], xs, rest, read, write, Always);
    }
    assert data == Fields(ws, vs) + i.rest by {
      FieldsLaw(data, ws, vs, i.rest);
    }
    Assoc(Fields(ws, vs), Concat(xs, write), rest);
  }

  lemma LastInRange(ws: seq<nat>, vs: seq<nat>)
    requires ws != [] && InRange(ws, vs)
    ensures |vs| == |ws| && vs[|vs| - 1] < Pow(0x100, ws[|ws| - 1])
  {
  }

  lemma PublishLaw(data: seq<byte>, r: Record, rest: seq<byte>)
    requires r.GenPublish?
    ensures ReadBody(6, Good(data)) == (r, Good(rest)) <==> RecordFits(r) && data == Body(r) + rest
  {
    hide ReadFields, Fields, Many, Concat;
    Widths();
    WatermarkCodec();
    var ws := [4, 2, 8, 1, 2];
    var vs := [r.epoch, r.shard, r.generation, r.genKind, |r.watermarks| % 0x1_0000];
    CountedLaw(data, ws, vs, r.watermarks, rest, ReadWatermark, WatermarkBytes);
    var v := ReadFields(Good(data), ws).0;
    assert v == [v[0], v[1], v[2], v[3], v[4]];
  }

  lemma TierMapLaw(data: seq<byte>, r: Record, rest: seq<byte>)
    requires r.TierMap?
    ensures ReadBody(8, Good(data)) == (r, Good(rest)) <==> RecordFits(r) && data == Body(r) + rest
  {
    hide ReadFields, Fields, Many, Concat;
    Widths();
    AssignCodec();
    var ws := [8, 2];
    var vs := [r.version, |r.assign| % 0x1_0000];
    CountedLaw(data, ws, vs, r.assign, rest, ReadAssign, AssignBytes);
    var v := ReadFields(Good(data), ws).0;
    assert v == [v[0], v[1]];
  }

  lemma GrantLaw(data: seq<byte>, r: Record, rest: seq<byte>)
    requires r.LeaseGrant?
    ensures ReadBody(2, Good(data)) == (r, Good(rest)) <==> data == Body(r) + rest
  {
    hide ReadFields, Fields;
    Widths();
    FieldsLaw(data, [4, 1, 4, 8, 8], [r.epoch, r.domain, r.unit, r.node, r.deadlineMS], rest);
    var v := ReadFields(Good(data), [4, 1, 4, 8, 8]).0;
    assert v == [v[0], v[1], v[2], v[3], v[4]];
  }

  lemma ReleaseLaw(data: seq<byte>, r: Record, rest: seq<byte>)
    requires r.LeaseRelease?
    ensures ReadBody(3, Good(data)) == (r, Good(rest)) <==> data == Body(r) + rest
  {
    hide ReadFields, Fields;
    Widths();
    FieldsLaw(data, [4, 1, 4], [r.epoch, r.domain, r.unit], rest);
    var v := ReadFields(Good(data), [4, 1, 4]).0;
    assert v == [v[0], v[1], v[2]];
  }

  lemma CommitLaw(data: seq<byte>, r: Record, rest: seq<byte>)
    requires r.SegCommit?
    ensures ReadBody(4, Good(data)) == (r, Good(rest)) <==> data == Body(r) + rest
  {
    hide ReadFields, Fields;
    Widths();
    FieldsLaw(data, [4, 1, 2, 8, 8, 8, 8], [r.epoch, r.family, r.partition, r.seqNo, r.rows, r.bytes, r.watermark], rest);
    var v := ReadFields(Good(data), [4, 1, 2, 8, 8, 8, 8]).0;
    assert v == [v[0], v[1], v[2], v[3], v[4], v[5], v[6]];
  }

  lemma AdvanceLaw(data: seq<byte>, r: Record, rest: seq<byte>)
    requires r.ManAdvance?
    ensures ReadBody(5, Good(data)) == (r, Good(rest)) <==> data == Body(r) + rest
  {
    hide ReadFields, Fields;
    Widths();
    FieldsLaw(data, [4, 1, 2, 8], [r.epoch, r.family, r.partition, r.manSeq], rest);
    var v := ReadFields(Good(data), [4, 1, 2, 8]).0;
    assert v == [v[0], v[1], v[2], v[3]];
  }

  lemma RetireLaw(data: seq<byte>, r: Record, rest: seq<byte>)
    requires r.GenRetire?
    ensures ReadBody(7, Good(data)) == (r, Good(rest)) <==> data == Body(r) + rest
  {
    hide ReadFields, Fields;
    Widths();
    FieldsLaw(data, [2, 8], [r.shard, r.generation], rest);
    var v := ReadFields(Good(data), [2, 8]).0;
    assert v == [v[0], v[1]];
  }

  lemma CkptLaw(data: seq<byte>, r: Record, rest: seq<byte>)
    requires r.Ckpt?
    ensures ReadBody(9, Good(data)) == (r, Good(rest)) <==> data == Body(r) + rest
  {
    hide ReadFields, Fields;
    Widths();
    FieldsLaw(data, [8], [r.ckptSeq], rest);
    var v := ReadFields(Good(data), [8]).0;
    assert v == [v[0]];
  }

  /** A body reads back as r exactly when it is r's body, and every count in r fits its field. */
  lemma BodyLaw(kind: byte, data: seq<byte>, r: Record, rest: seq<byte>)
    requires 1 <= kind <= 9
    ensures ReadBody(kind, Good(data)) == (r, Good(rest)) <==> kind == KindOf(r) && RecordFits(r) && data == Body(r) + rest
  {
    hide ReadBody, Body, MemberFits;
    KindRead(kind, Good(data));
    if kind == KindOf(r) {
      match r
      case MemberRec(m) => MemberBodyLaw(data, m, rest);
      case GenPublish(_, _, _, _, _) => PublishLaw(data, r, rest);
      case TierMap(_, _) => TierMapLaw(data, r, rest);
      case LeaseGrant(_, _, _, _, _) => GrantLaw(data, r, rest);
      case LeaseRelease(_, _, _) => ReleaseLaw(data, r, rest);
      case SegCommit(_, _, _, _, _, _, _) => CommitLaw(data, r, rest);
      case ManAdvance(_, _, _, _) => AdvanceLaw(data, r, rest);
      case GenRetire(_, _) => RetireLaw(data, r, rest);
      case Ckpt(_) => CkptLaw(data, r, rest);
    }
  }

  lemma KindRead(kind: byte, i: Input)
    requires 1 <= kind <= 9
    ensures KindOf(ReadBody(kind, i).0) == kind
  {
    hide ReadMember, ReadGrant, ReadRelease, ReadCommit, ReadAdvance, ReadPublish, ReadRetire, ReadTierMap, ReadCkpt;
  }

  lemma MemberBodyLaw(data: seq<byte>, m: Member, rest: seq<byte>)
    ensures ReadBody(1, Good(data)) == (MemberRec(m), Good(rest)) <==> MemberFits(m) && data == Body(MemberRec(m)) + rest
  {
    hide ReadMember, MemberBytes, MemberFits;
    MemberLaw(data, m, rest);
  }

  lemma RecordLaw(kind: byte, body: seq<byte>, r: Record)
    ensures RecordOf(kind, body) == Ok(r) <==> kind == KindOf(r) && RecordFits(r) && body == Body(r)
  {
    hide ReadBody, Body;
    if 1 <= kind <= 9 {
      BodyLaw(kind, body, r, []);
      assert Body(r) + [] == Body(r);
    }
  }
}
