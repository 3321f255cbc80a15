/** The batch object of chain/format.go: what is written, what is read back, and the one case where they differ. */
module BatchCodec {
  import opened Bytes
  import opened Records
  import opened Format
  import opened RecordCodec

  datatype EncodeError = TooManyRecords | BodyTooLong

  /** A record behind its length and kind. */
  function Framed(r: Record): seq<byte> {
    Fields([2, 1], [|Body(r)| % 0x1_0000, KindOf(r)]) + Body(r)
  }

  function Payload(b: Batch): seq<byte> {
    Fields([8, 4, 2], [b.batchId, b.incarnation, |b.records| % 0x1_0000]) + Concat(b.records, Framed)
  }

  predicate ShortBody(r: Record) {
    |Body(r)| < 0x1_0000
  }

  function BytesOf(b: Batch, crc: Checksum): Result<seq<byte>, EncodeError> {
    if |b.records| >= 0x1_0000 then Err(TooManyRecords)
    else if exists r :: r in b.records && !ShortBody(r) then Err(BodyTooLong)
    else Ok(Object(FORMAT_BATCH, b.writer, Payload(b), crc))
  }

  /** n framed records; the first that does not decode completely is an error. */
  function RecordsOf(i: Input, n: nat): (res: Result<(seq<Record>, Input), FormatError>)
    ensures res.Ok? ==> |res.value.0| == n
    decreases n
  {
    if n == 0 then Ok(([], i))
    else
      Widths();
      var (head, i1) := ReadFields(i, [2, 1]);
      var (body, i2) := Take(i1, head[0]);
      if i2.Bad? then Err(Truncated)
      else
        match RecordOf(head[1], body)
        case Err(e) => Err(e)
        case Ok(r) =>
          match RecordsOf(i2, n - 1)
          case Err(e) => Err(e)
          case Ok((rs, i3)) => Ok(([r] + rs, i3))
  }

  function BatchOf(data: seq<byte>, crc: Checksum): Result<Batch, FormatError> {
    match OpenObject(data, FORMAT_BATCH, crc)
    case Err(e) => Err(e)
    case Ok((writer, payload)) =>
      Widths();
      var (head, i) := ReadFields(Good(payload), [8, 4, 2]);
      if i.Bad? then Err(Truncated)
      else
        match RecordsOf(i, head[2])
        case Err(e) => Err(e)
        case Ok((rs, i')) =>
          if i'.Bad? then Err(Truncated)
          else if i'.rest != [] then Err(Trailing)
          else Ok(Batch(writer, head[1], head[0], rs))
  }

  // ----- the law of batches -----

  /** A record reads back as itself: its body is short enough to frame, and every count in it fits its field. */
  predicate Whole(r: Record) {
    RecordFits(r) && ShortBody(r)
  }

  /** One framed record at the front of data. */
  lemma FramedLaw(data: seq<byte>, r: Record, rest: seq<byte>)
    ensures (Widths();
            var (head, i1) := ReadFields(Good(data), [2, 1]);
            var (body, i2) := Take(i1, head[0]);
            (i2 == Good(rest) && RecordOf(head[1], body) == Ok(r)) <==> Whole(r) && data == Framed(r) + rest)
  {
    hide ReadFields, Fields, Body, RecordOf, RecordFits, KindOf;
    Widths();
    var (head, i1) := ReadFields(Good(data), [2, 1]);
    var (body, i2) := Take(i1, head[0]);
    assert head == [head[0], head[1]];
    if i2 == Good(rest) && RecordOf(head[1], body) == Ok(r) {
      RecordLaw(head[1], body, r);
      FieldsLaw(data, [2, 1], head, i1.rest);
      assert i1.rest == body + rest;
      Assoc(Fields([2, 1], head), body, rest);
    }
    if Whole(r) && data == Framed(r) + rest {
      var t := Body(r) + rest;
      var vs := [|Body(r)|, KindOf(r)];
      Assoc(Fields([2, 1], vs), Body(r), rest);
      FieldsLaw(data, [2, 1], vs, t);
      assert t[..|Body(r)|] == Body(r) && t[|Body(r)|..] == rest;
      RecordLaw(KindOf(r), Body(r), r);
    }
  }

  lemma {:induction false} RecordsLaw(data: seq<byte>, n: nat, rs: seq<Record>, rest: seq<byte>)
    ensures RecordsOf(Good(data), n) == Ok((rs, Good(rest)))
       <==> |rs| == n && (forall r :: r in rs ==> Whole(r)) && data == Concat(rs, Framed) + rest
    decreases n
  {
    if n == 0 {
      assert [] + rest == rest;
    } else {
      if RecordsOf(Good(data), n) == Ok((rs, Good(rest))) {
        RecordsRead(data, n, rs, rest);
      }
      if |rs| == n && (forall r :: r in rs ==> Whole(r)) && data == Concat(rs, Framed) + rest {
        RecordsWritten(data, n, rs, rest);
      }
    }
  }

  lemma {:induction false} RecordsRead(data: seq<byte>, n: nat, rs: seq<Record>, rest: seq<byte>)
    requires n > 0 && RecordsOf(Good(data), n) == Ok((rs, Good(rest)))
    ensures |rs| == n && (forall r :: r in rs ==> Whole(r)) && data == Concat(rs, Framed) + rest
    decreases n, 0
  {
    hide ReadFields, Fields, RecordOf, Whole, Framed;
    Widths();
    var (head, i1) := ReadFields(Good(data), [2, 1]);
    var (body, i2) := Take(i1, head[0]);
    var r := RecordOf(head[1], body).value;
    FramedLaw(data, r, i2.rest);
    RecordsLaw(i2.rest, n - 1, rs[1..], rest);
    assert rs == [r] + rs[1..];
    Assoc(Framed(r), Concat(rs[1..], Framed), rest);
  }

  lemma {:induction false} RecordsWritten(data: seq<byte>, n: nat, rs: seq<Record>, rest: seq<byte>)
    requires n > 0 && |rs| == n && (forall r :: r in rs ==> Whole(r)) && data == Concat(rs, Framed) + rest
    ensures RecordsOf(Good(data), n) == Ok((rs, Good(rest)))
    decreases n, 0
  {
    hide ReadFields, Fields, RecordOf, Whole, Framed;
    Widths();
    var tail := Concat(rs[1..], Framed) + rest;
    Assoc(Framed(rs[0]), Concat(rs[1..], Framed), rest);
    FramedLaw(data, rs[0], tail);
    RecordsLaw(tail, n - 1, rs[1..], rest);
    assert [rs[0]] + rs[1..] == rs;
  }

  // ----- which records fit -----

  /** The one count that nothing checks before it is cut to a byte. */
  predicate FewEndpoints(r: Record) {
    r.MemberRec? ==> |r.member.endpoints| < 0x100
  }

  lemma {:induction false} ConcatCovers<T>(xs: seq<T>, write: T -> seq<byte>, x: T)
    requires x in xs
    ensures |Concat(xs, write)| >= |write(x)|
  {
    if x != xs[0] {
      ConcatCovers(xs[1..], write, x);
    }
  }

  lemma {:induction false} ConcatCounts<T>(xs: seq<T>, write: T -> seq<byte>)
    requires forall x :: |write(x)| >= 1
    ensures |Concat(xs, write)| >= |xs|
  {
    if xs != [] {
      ConcatCounts(xs[1..], write);
    }
  }

  lemma ShortMember(m: Member)
    requires ShortBody(MemberRec(m))
    ensures (forall e :: e in m.endpoints ==> StrFits(e)) && StrFits(m.version)
  {
    hide Fields, Concat;
    assert |Body(MemberRec(m))| >= |Concat(m.endpoints, Str)| && |Body(MemberRec(m))| >= |Str(m.version)|;
    forall e | e in m.endpoints ensures StrFits(e) {
      ConcatCovers(m.endpoints, Str, e);
    }
  }

  /** A body short enough to frame leaves only the endpoint count to go wrong. */
  lemma ShortFits(r: Record)
    requires ShortBody(r)
    ensures RecordFits(r) <==> FewEndpoints(r)
  {
    hide Fields, Concat, ShortBody;
    match r
    case MemberRec(m) => ShortMember(m);
    case GenPublish(_, _, _, _, watermarks) =>
      forall w: SourceWatermark ensures |WatermarkBytes(w)| >= 1 { WatermarkLength(w); }
      ConcatCounts(watermarks, WatermarkBytes);
      PublishCovers(r);
    case TierMap(_, assign) =>
      forall a: TierAssign ensures |AssignBytes(a)| >= 1 { AssignLength(a); }
      ConcatCounts(assign, AssignBytes);
      PublishCovers(r);
    case _ =>
  }

  lemma PublishCovers(r: Record)
    requires ShortBody(r)
    ensures r.GenPublish? ==> |Concat(r.watermarks, WatermarkBytes)| < 0x1_0000
    ensures r.TierMap? ==> |Concat(r.assign, AssignBytes)| < 0x1_0000
  {
    hide Fields, Concat;
  }

  lemma WatermarkLength(w: SourceWatermark)
    ensures |WatermarkBytes(w)| >= 1
  {
    assert Fields([2, 8], [w.partition, w.seqNo]) == LE(2, w.partition) + Fields([2, 8][1..], [w.partition, w.seqNo][1..]);
  }

  lemma AssignLength(a: TierAssign)
    ensures |AssignBytes(a)| >= 1
  {
    assert Fields([2, 1], [a.shard, a.tier]) == LE(2, a.shard) + Fields([2, 1][1..], [a.shard, a.tier][1..]);
  }

  // ----- the batch law -----

  lemma PayloadLaw(payload: seq<byte>, b: Batch)
    ensures (var (head, i) := ReadFields(Good(payload), [8, 4, 2]);
             head == [b.batchId, b.incarnation, |b.records|] && i.Good? && RecordsOf(i, |b.records|) == Ok((b.records, Good([]))))
            <==> |b.records| < 0x1_0000 && (forall r :: r in b.records ==> Whole(r)) && payload == Payload(b)
  {
    hide ReadFields, Fields, RecordsOf, Concat, Whole, Framed;
    Widths();
    var n := |b.records|;
    var (head, i) := ReadFields(Good(payload), [8, 4, 2]);
    var body := Concat(b.records, Framed);
    assert body + [] == body;
    if head == [b.batchId, b.incarnation, n] && i.Good? && RecordsOf(i, n) == Ok((b.records, Good([]))) {
      FieldsLaw(payload, [8, 4, 2], head, i.rest);
      RecordsLaw(i.rest, n, b.records, []);
      assert head[2] == n;
    }
    if n < 0x1_0000 && (forall r :: r in b.records ==> Whole(r)) && payload == Payload(b) {
      FieldsLaw(payload, [8, 4, 2], [b.batchId, b.incarnation, n], body);
      RecordsLaw(body, n, b.records, []);
    }
  }

  /**
   * The batch law: bytes decode to b exactly when they are what b encodes to and no member in it has more than 255
   * endpoints. Encoding accepts more: it writes such a member's count cut to a byte.
   */
  lemma BatchLaw(data: seq<byte>, b: Batch, crc: Checksum)
    ensures BatchOf(data, crc) == Ok(b) <==> BytesOf(b, crc) == Ok(data) && forall r :: r in b.records ==> FewEndpoints(r)
  {
    hide OpenObject, Object, ReadFields, RecordsOf, Payload, RecordFits, ShortBody, FewEndpoints;
    forall r | r in b.records && ShortBody(r) ensures RecordFits(r) <==> FewEndpoints(r) {
      ShortFits(r);
    }
    if BatchOf(data, crc) == Ok(b) {
      var (writer, payload) := OpenObject(data, FORMAT_BATCH, crc).value;
      ObjectLaw(data, FORMAT_BATCH, crc, writer, payload);
      var head := ReadFields(Good(payload), [8, 4, 2]).0;
      assert head == [head[0], head[1], head[2]];
      PayloadLaw(payload, b);
    }
    if BytesOf(b, crc) == Ok(data) && forall r :: r in b.records ==> FewEndpoints(r) {
      ObjectLaw(data, FORMAT_BATCH, crc, b.writer, Payload(b));
      PayloadLaw(Payload(b), b);
    }
  }

  // ----- what the cut count does -----

  lemma {:induction false} ConcatSplit<T>(xs: seq<T>, k: nat, write: T -> seq<byte>)
    requires k <= |xs|
    ensures Concat(xs, write) == Concat(xs[..k], write) + Concat(xs[k..], write)
    decreases k
  {
    if k == 0 {
      assert xs[0..] == xs;
    } else {
      ConcatSplit(xs[1..], k - 1, write);
      assert xs[..k][1..] == xs[1..][..k - 1] && xs[1..][k - 1..] == xs[k..];
      Assoc(write(xs[0]), Concat(xs[..k][1..], write), Concat(xs[k..], write));
    }
  }

  /** Read with a count below the real one, the strings leave something behind the version. */
  lemma StringsLeft(es: seq<seq<byte>>, version: seq<byte>, k: nat, es': seq<seq<byte>>, version': seq<byte>)
    requires k < |es| && (forall e :: e in es ==> StrFits(e)) && StrFits(version)
    requires |es'| == k && (forall e :: e in es' ==> StrFits(e)) && StrFits(version')
    ensures Concat(es, Str) + Str(version) != Concat(es', Str) + Str(version')
  {
    hide Str, StrFits, ReadStr;
    StrCodec();
    var data := Concat(es, Str) + Str(version);
    if data == Concat(es', Str) + Str(version') {
      ConcatSplit(es, k, Str);
      var tail := Concat(es[k..], Str) + Str(version);
      Assoc(Concat(es[..k], Str), Concat(es[k..], Str), Str(version));
      ManyLaw(data, k, es[..k], tail, ReadStr, Str, StrFits);
      ManyLaw(data, k, es', Str(version'), ReadStr, Str, StrFits);
      assert tail == Str(version');
      var more := Concat(es[k + 1..], Str) + Str(version);
      assert es[k..][0] == es[k] && es[k..][1..] == es[k + 1..];
      Assoc(Str(es[k]), Concat(es[k + 1..], Str), Str(version));
      StrLaw(tail, es[k], more);
      StrLaw(tail, version', []);
      assert Str(version') + [] == Str(version');
      StrSize(version);
    }
  }

  lemma StrSize(s: seq<byte>)
    ensures |Str(s)| >= 2
  {
  }

  lemma OverfullFails(m: Member)
    requires |m.endpoints| >= 0x100 && ShortBody(MemberRec(m))
    ensures RecordOf(1, Body(MemberRec(m))).Err?
  {
    hide RecordOf, Fields, ReadFields, Concat, ShortBody, Str, StrFits;
    var body := Body(MemberRec(m));
    var r := RecordOf(1, body);
    if r.Ok? {
      RecordLaw(1, body, r.value);
      var m' := r.value.member;
      ShortMember(m);
      SameHead(m, m');
      StringsLeft(m.endpoints, m.version, |m'.endpoints|, m'.endpoints, m'.version);
    }
  }

  /** Two members with one body agree on everything before the strings. */
  lemma SameHead(m: Member, m': Member)
    requires MemberBytes(m) == MemberBytes(m') && |m'.endpoints| < 0x100
    ensures Concat(m.endpoints, Str) + Str(m.version) == Concat(m'.endpoints, Str) + Str(m'.version)
    ensures |m'.endpoints| == |m.endpoints| % 0x100
  {
    hide Fields, ReadFields, Concat, Str;
    Widths();
    var ws := [8, 1, 4, 1];
    var vs := [m.node, m.plane, m.incarnation, |m.endpoints| % 0x100];
    var vs' := [m'.node, m'.plane, m'.incarnation, |m'.endpoints| % 0x100];
    FieldsLaw(MemberBytes(m), ws, vs, Concat(m.endpoints, Str) + Str(m.version));
    FieldsLaw(MemberBytes(m), ws, vs', Concat(m'.endpoints, Str) + Str(m'.version));
    assert vs[3] == vs'[3];
  }

  lemma FramedHead(r: Record, rest: seq<byte>)
    requires ShortBody(r)
    ensures ReadFields(Good(Framed(r) + rest), [2, 1]) == ([|Body(r)|, KindOf(r)], Good(Body(r) + rest))
    ensures Take(Good(Body(r) + rest), |Body(r)|) == (Body(r), Good(rest))
  {
    hide Fields, ReadFields, Body;
    Widths();
    var vs := [|Body(r)|, KindOf(r)];
    Assoc(Fields([2, 1], vs), Body(r), rest);
    FieldsLaw(Framed(r) + rest, [2, 1], vs, Body(r) + rest);
    assert (Body(r) + rest)[..|Body(r)|] == Body(r) && (Body(r) + rest)[|Body(r)|..] == rest;
  }

  lemma {:induction false} OverfullRecordsFail(rs: seq<Record>, rest: seq<byte>)
    requires (forall r :: r in rs ==> ShortBody(r)) && exists r :: r in rs && !FewEndpoints(r)
    ensures RecordsOf(Good(Concat(rs, Framed) + rest), |rs|).Err?
  {
    hide ReadFields, Fields, RecordOf, ShortBody, Body, Framed;
    var r := rs[0];
    var tail := Concat(rs[1..], Framed) + rest;
    Assoc(Framed(r), Concat(rs[1..], Framed), rest);
    FramedHead(r, tail);
    if FewEndpoints(r) {
      OverfullRecordsFail(rs[1..], rest);
    } else {
      OverfullFails(r.member);
    }
  }

  /**
   * Every batch that encodes reads back as itself, unless a member in it has more than 255 endpoints: then the bytes
   * encoding was content to write do not decode at all.
   */
  lemma EncodedReadsBack(b: Batch, data: seq<byte>, crc: Checksum)
    requires BytesOf(b, crc) == Ok(data)
    ensures (forall r :: r in b.records ==> FewEndpoints(r)) ==> BatchOf(data, crc) == Ok(b)
    ensures (exists r :: r in b.records && !FewEndpoints(r)) ==> BatchOf(data, crc).Err?
  {
    hide OpenObject, Object, ReadFields, Fields, RecordsOf, ShortBody, FewEndpoints, Concat, Framed;
    BatchLaw(data, b, crc);
    if exists r :: r in b.records && !FewEndpoints(r) {
      Widths();
      ObjectLaw(data, FORMAT_BATCH, crc, b.writer, Payload(b));
      var body := Concat(b.records, Framed);
      FieldsLaw(Payload(b), [8, 4, 2], [b.batchId, b.incarnation, |b.records|], body);
      OverfullRecordsFail(b.records, []);
      assert body + [] == body;
    }
  }

  /** A member that announces 256 empty endpoints. */
  function Crowded(): Member {
    Member(0, 0, 0, seq(256, i => []), [])
  }

  lemma {:induction false} EmptyStrings(es: seq<seq<byte>>)
    requires forall i :: 0 <= i < |es| ==> es[i] == []
    ensures |Concat(es, Str)| == 2 * |es|
  {
    hide Str;
    StrOfNothing();
    if es != [] {
      EmptyStrings(es[1..]);
    }
  }

  lemma CrowdedBody()
    ensures |Body(MemberRec(Crowded()))| == 528
  {
    hide Fields, Str;
    var m := Crowded();
    EmptyStrings(m.endpoints);
    StrOfNothing();
    FieldsLength([8, 1, 4, 1], [m.node, m.plane, m.incarnation, |m.endpoints| % 0x100]);
    assert [1][1..] == [] && [4, 1][1..] == [1] && [1, 4, 1][1..] == [4, 1] && [8, 1, 4, 1][1..] == [1, 4, 1];
    assert Total([4, 1]) == 5 && Total([1, 4, 1]) == 6 && Total([8, 1, 4, 1]) == 14;
  }

  lemma StrOfNothing()
    ensures |Str([])| == 2
  {
  }

  /** Such a batch does get past encoding: what is appended with it nobody can decode. */
  lemma CrowdedIsLost(crc: Checksum)
    ensures var r := BytesOf(Batch(0, 0, 0, [MemberRec(Crowded())]), crc);
            r.Ok? && BatchOf(r.value, crc).Err?
  {
    hide OpenObject, Object, ReadFields, Fields, RecordsOf, Concat, Framed, Body;
    var b := Batch(0, 0, 0, [MemberRec(Crowded())]);
    CrowdedBody();
    assert ShortBody(b.records[0]) && !FewEndpoints(b.records[0]) && b.records[0] in b.records;
    assert forall r :: r in b.records ==> r == b.records[0];
    EncodedReadsBack(b, BytesOf(b, crc).value, crc);
  }
}
