/** chain/format.go and chain/records.go as they run: a reader that moves and sticks, and outputs that grow. */
module BatchObject {
  import opened Bytes
  import opened Records
  import opened Format
  import opened RecordCodec
  import opened BatchCodec

  // ----- the loops of the reader, halfway -----

  /** With k of the n items read as xs, the whole is xs and what the rest of the input still gives. */
  ghost predicate SoFar<T>(start: Input, n: nat, read: Input -> (T, Input), xs: seq<T>, i: Input, k: nat) {
    k <= n && Many(start, n, read) == (xs + Many(i, n - k, read).0, Many(i, n - k, read).1)
  }

  lemma ManyStart<T>(i: Input, n: nat, read: Input -> (T, Input))
    ensures SoFar(i, n, read, [], i, 0)
  {
    hide Many;
    assert [] + Many(i, n, read).0 == Many(i, n, read).0;
  }

  lemma ManyNext<T>(start: Input, n: nat, read: Input -> (T, Input), xs: seq<T>, i: Input, k: nat)
    requires SoFar(start, n, read, xs, i, k) && k < n
    ensures SoFar(start, n, read, xs + [read(i).0], read(i).1, k + 1)
  {
    var x, i', more := read(i).0, read(i).1, Many(read(i).1, n - k - 1, read).0;
    assert Many(i, n - k, read) == ([x] + more, Many(i', n - k - 1, read).1);
    assert xs + ([x] + more) == (xs + [x]) + more;
  }

  lemma ManyEnd<T>(start: Input, n: nat, read: Input -> (T, Input), xs: seq<T>, i: Input)
    requires SoFar(start, n, read, xs, i, n)
    ensures (xs, i) == Many(start, n, read)
  {
    assert Many(i, 0, read) == ([], i) && xs + [] == xs;
  }

  /** The same of fields of given widths. */
  ghost predicate FieldsSoFar(start: Input, ws: seq<nat>, vs: seq<nat>, i: Input, k: nat) {
    k <= |ws| && ReadFields(start, ws) == (vs + ReadFields(i, ws[k..]).0, ReadFields(i, ws[k..]).1)
  }

  lemma FieldsStart(i: Input, ws: seq<nat>)
    ensures FieldsSoFar(i, ws, [], i, 0)
  {
    hide ReadFields;
    assert ws[0..] == ws && [] + ReadFields(i, ws).0 == ReadFields(i, ws).0;
  }

  lemma FieldsNext(start: Input, ws: seq<nat>, vs: seq<nat>, i: Input, k: nat)
    requires FieldsSoFar(start, ws, vs, i, k) && k < |ws|
    ensures var (v, i') := UInt(i, ws[k]); FieldsSoFar(start, ws, vs + [v], i', k + 1)
  {
    hide UInt;
    var (v, i') := UInt(i, ws[k]);
    assert ws[k..][0] == ws[k] && ws[k..][1..] == ws[k + 1..];
    var more := ReadFields(i', ws[k + 1..]).0;
    assert vs + ([v] + more) == (vs + [v]) + more;
  }

  lemma FieldsEnd(start: Input, ws: seq<nat>, vs: seq<nat>, i: Input)
    requires FieldsSoFar(start, ws, vs, i, |ws|)
    ensures (vs, i) == ReadFields(start, ws)
  {
    assert ws[|ws|..] == [] && vs + [] == vs;
  }

  class Reader {
    var b: seq<byte>
    var err: bool

    ghost function In(): Input
      reads this
    {
      if err then Bad else Good(b)
    }

    constructor (data: seq<byte>)
      ensures In() == Good(data)
    {
      b, err := data, false;
    }

    method Take(n: nat) returns (v: seq<byte>)
      modifies this
      ensures (v, In()) == Format.Take(old(In()), n)
    {
      if err {
        return [];
      }
      if n > |b| {
        err := true;
        return [];
      }
      v := b[..n];
      b := b[n..];
    }

    method UInt(n: nat) returns (v: nat)
      modifies this
      ensures (v, In()) == Format.UInt(old(In()), n) && v < Pow(0x100, n)
    {
      var bs := Take(n);
      v := FromLE(bs);
      assert Format.UInt(old(In()), n).0 < Pow(0x100, n);
    }

    method Str() returns (s: seq<byte>)
      modifies this
      ensures (s, In()) == ReadStr(old(In()))
    {
      var n := UInt(2);
      s := Take(n);
    }

    /** Fields of the given widths, in order. */
    method TakeFields(ws: seq<nat>) returns (vs: seq<nat>)
      modifies this
      ensures (vs, In()) == ReadFields(old(In()), ws) && InRange(ws, vs)
    {
      vs := [];
      var k := 0;
      ghost var start := In();
      FieldsStart(start, ws);
      while k < |ws|
        invariant 0 <= k <= |ws| && FieldsSoFar(start, ws, vs, In(), k)
      {
        hide FieldsSoFar, ReadFields, Format.UInt;
        ghost var i := In();
        var v := UInt(ws[k]);
        FieldsNext(start, ws, vs, i, k);
        vs := vs + [v];
        k := k + 1;
      }
      FieldsEnd(start, ws, vs, In());
    }

    method TakeStrs(n: nat) returns (es: seq<seq<byte>>)
      modifies this
      ensures (es, In()) == Many(old(In()), n, ReadStr)
    {
      hide ReadStr, Many;
      es := [];
      var k := 0;
      ghost var start := In();
      ManyStart(start, n, ReadStr);
      while k < n
        invariant 0 <= k <= n && SoFar(start, n, ReadStr, es, In(), k)
      {
        hide SoFar;
        ghost var i := In();
        var e := Str();
        ManyNext(start, n, ReadStr, es, i, k);
        es := es + [e];
        k := k + 1;
      }
      ManyEnd(start, n, ReadStr, es, In());
    }

    method TakeWatermark() returns (x: SourceWatermark)
      modifies this
      ensures (x, In()) == ReadWatermark(old(In()))
    {
      hide ReadFields;
      Widths();
      var v := TakeFields([2, 8]);
      x := SourceWatermark(v[0], v[1]);
    }

    method TakeWatermarks(n: nat) returns (xs: seq<SourceWatermark>)
      modifies this
      ensures (xs, In()) == Many(old(In()), n, ReadWatermark)
    {
      hide ReadWatermark, Many;
      xs := [];
      var k := 0;
      ghost var start := In();
      ManyStart(start, n, ReadWatermark);
      while k < n
        invariant 0 <= k <= n && SoFar(start, n, ReadWatermark, xs, In(), k)
      {
        hide SoFar;
        ghost var i := In();
        var x := TakeWatermark();
        ManyNext(start, n, ReadWatermark, xs, i, k);
        xs := xs + [x];
        k := k + 1;
      }
      ManyEnd(start, n, ReadWatermark, xs, In());
    }

    method TakeAssign() returns (x: TierAssign)
      modifies this
      ensures (x, In()) == ReadAssign(old(In()))
    {
      hide ReadFields;
      Widths();
      var v := TakeFields([2, 1]);
      x := TierAssign(v[0], v[1]);
    }

    method TakeAssigns(n: nat) returns (xs: seq<TierAssign>)
      modifies this
      ensures (xs, In()) == Many(old(In()), n, ReadAssign)
    {
      hide ReadAssign, Many;
      xs := [];
      var k := 0;
      ghost var start := In();
      ManyStart(start, n, ReadAssign);
      while k < n
        invariant 0 <= k <= n && SoFar(start, n, ReadAssign, xs, In(), k)
      {
        hide SoFar;
        ghost var i := In();
        var x := TakeAssign();
        ManyNext(start, n, ReadAssign, xs, i, k);
        xs := xs + [x];
        k := k + 1;
      }
      ManyEnd(start, n, ReadAssign, xs, In());
    }

    /** One body of a known kind. */
    method TakeBody(kind: byte) returns (rec: Record)
      requires 1 <= kind <= 9
      modifies this
      ensures (rec, In()) == ReadBody(kind, old(In()))
    {
      hide ReadFields, Many, ReadStr, InRange;
      Widths();
      if kind == 1 {
        var v := TakeFields([8, 1, 4, 1]);
        AllInRange([8, 1, 4, 1], v);
        var endpoints := TakeStrs(v[3]);
        var version := Str();
        rec := MemberRec(Member(v[0], v[1], v[2], endpoints, version));
      } else if kind == 6 {
        var v := TakeFields([4, 2, 8, 1, 2]);
        AllInRange([4, 2, 8, 1, 2], v);
        var watermarks := TakeWatermarks(v[4]);
        rec := GenPublish(v[0], v[1], v[2], v[3], watermarks);
      } else if kind == 8 {
        var v := TakeFields([8, 2]);
        AllInRange([8, 2], v);
        var assign := TakeAssigns(v[1]);
        rec := TierMap(v[0], assign);
      } else {
        rec := TakeFixed(kind);
      }
    }

    method TakeFixed(kind: byte) returns (rec: Record)
      requires kind in {2, 3, 4, 5, 7, 9}
      modifies this
      ensures (rec, In()) == ReadBody(kind, old(In()))
    {
      hide ReadFields, Many, ReadStr;
      Widths();
      var ws := if kind == 2 then [4, 1, 4, 8, 8]
                else if kind == 3 then [4, 1, 4]
                else if kind == 4 then [4, 1, 2, 8, 8, 8, 8]
                else if kind == 5 then [4, 1, 2, 8]
                else if kind == 7 then [2, 8]
                else [8];
      var v := TakeFields(ws);
      match kind
      case 2 => rec := LeaseGrant(v[0], v[1], v[2], v[3], v[4]);
      case 3 => rec := LeaseRelease(v[0], v[1], v[2]);
      case 4 => rec := SegCommit(v[0], v[1], v[2], v[3], v[4], v[5], v[6]);
      case 5 => rec := ManAdvance(v[0], v[1], v[2], v[3]);
      case 7 => rec := GenRetire(v[0], v[1]);
      case _ => rec := Ckpt(v[0]);
    }
  }

  lemma AllInRange(ws: seq<nat>, vs: seq<nat>)
    requires InRange(ws, vs)
    ensures |vs| == |ws| && forall j :: 0 <= j < |ws| ==> vs[j] < Pow(0x100, ws[j])
  {
  }

  method DecodeRecord(kind: byte, body: seq<byte>) returns (res: Result<Record, FormatError>)
    ensures res == RecordOf(kind, body)
  {
    if kind < 1 || kind > 9 {
      return Err(UnknownKind);
    }
    var r := new Reader(body);
    var rec := r.TakeBody(kind);
    if r.err {
      return Err(Truncated);
    }
    if |r.b| != 0 {
      return Err(Trailing);
    }
    return Ok(rec);
  }

  /** The records already read, in front of what is still to come. */
  function Prepend(rs: seq<Record>, res: Result<(seq<Record>, Input), FormatError>): Result<(seq<Record>, Input), FormatError> {
    match res
    case Err(e) => Err(e)
    case Ok((more, i)) => Ok((rs + more, i))
  }

  /** The program's decoder agrees with BatchOf on any bytes, first error included. */
  method DecodeBatch(data: seq<byte>, crc: Checksum) returns (res: Result<Batch, FormatError>)
    ensures res == BatchOf(data, crc)
  {
    hide OpenObject, ReadFields, RecordOf;
    var header := OpenObject(data, FORMAT_BATCH, crc);
    if header.Err? {
      return Err(header.error);
    }
    var (writer, payload) := header.value;
    Widths();
    var r := new Reader(payload);
    var head := r.TakeFields([8, 4, 2]);
    if r.err {
      return Err(Truncated);
    }
    ghost var start := r.In();
    var n := head[2];
    var records: seq<Record> := [];
    assert Prepend([], RecordsOf(start, n)) == RecordsOf(start, n) by {
      PrependNothing(RecordsOf(start, n));
    }
    while |records| < n
      invariant |records| <= n
      invariant RecordsOf(start, n) == Prepend(records, RecordsOf(r.In(), n - |records|))
    {
      ghost var before := r.In();
      var frame := r.TakeFields([2, 1]);
      var body := r.Take(frame[0]);
      if r.err {
        return Err(Truncated);
      }
      var rec := DecodeRecord(frame[1], body);
      if rec.Err? {
        return Err(rec.error);
      }
      PrependMore(records, rec.value, RecordsOf(r.In(), n - |records| - 1));
      records := records + [rec.value];
    }
    assert records + [] == records;
    if r.err {
      return Err(Truncated);
    }
    if |r.b| != 0 {
      return Err(Trailing);
    }
    return Ok(Batch(writer, head[1], head[0], records));
  }

  lemma PrependNothing(res: Result<(seq<Record>, Input), FormatError>)
    ensures Prepend([], res) == res
  {
    if res.Ok? {
      assert [] + res.value.0 == res.value.0;
    }
  }

  lemma PrependMore(rs: seq<Record>, r: Record, res: Result<(seq<Record>, Input), FormatError>)
    ensures Prepend(rs, Prepend([r], res)) == Prepend(rs + [r], res)
  {
    if res.Ok? {
      assert rs + ([r] + res.value.0) == (rs + [r]) + res.value.0;
    }
  }

  // ----- encoding -----

  /** Batch.Encode: the header, then one framed record after the other; nothing is written past an overlong body. */
  method Encode(b: Batch, crc: Checksum) returns (res: Result<seq<byte>, EncodeError>)
    ensures res == BytesOf(b, crc)
  {
    hide Fields, Framed, Preamble, ShortBody;
    var head := Preamble(FORMAT_BATCH) + LE(4, crc(Preamble(FORMAT_BATCH))) + LE(8, b.writer);
    if |b.records| >= 0x1_0000 {
      return Err(TooManyRecords);
    }
    var payload := Fields([8, 4, 2], [b.batchId, b.incarnation, |b.records|]);
    ghost var fixed := payload;
    assert fixed + Concat(b.records[..0], Framed) == fixed;
    for i := 0 to |b.records|
      invariant payload == fixed + Concat(b.records[..i], Framed)
      invariant forall r :: r in b.records[..i] ==> ShortBody(r)
    {
      if !ShortBody(b.records[i]) {
        return Err(BodyTooLong);
      }
      ConcatSplit(b.records[..i + 1], i, Framed);
      assert b.records[..i + 1][..i] == b.records[..i] && b.records[..i + 1][i..] == [b.records[i]];
      ConcatOne(b.records[i]);
      payload := payload + Framed(b.records[i]);
    }
    assert b.records[..|b.records|] == b.records;
    return Ok(head + payload + LE(4, crc(payload)));
  }

  lemma ConcatOne(r: Record)
    ensures Concat([r], Framed) == Framed(r)
  {
    hide Framed;
    assert Concat([r], Framed) == Framed(r) + Concat([], Framed);
  }
}
