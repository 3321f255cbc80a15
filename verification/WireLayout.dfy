/** Where the fields of the chain's objects are, chain/format.go and chain/records.go: every one by its offset. */
module WireLayout {
  import opened Bytes
  import opened Records
  import opened Format
  import opened RecordCodec

  /** A field stands behind the fields before it. */
  lemma {:induction false} FieldStands(ws: seq<nat>, vs: seq<nat>, i: nat)
    requires |ws| == |vs| && i < |ws|
    ensures Total(ws[..i]) + ws[i] <= |Fields(ws, vs)|
    ensures Fields(ws, vs)[Total(ws[..i])..Total(ws[..i]) + ws[i]] == LE(ws[i], vs[i])
  {
    hide LE;
    if i == 0 {
      assert ws[..0] == [];
      assert Fields(ws, vs)[..ws[0]] == LE(ws[0], vs[0]);
    } else {
      assert ws[..i] == [ws[0]] + ws[1..][..i - 1];
      assert ws[..i][0] == ws[0] && ws[..i][1..] == ws[1..][..i - 1];
      FieldStands(ws[1..], vs[1..], i - 1);
      var off := Total(ws[1..][..i - 1]);
      assert Fields(ws, vs)[ws[0]..] == Fields(ws[1..], vs[1..]);
      assert Fields(ws, vs)[ws[0] + off..ws[0] + off + ws[i]] == Fields(ws[1..], vs[1..])[off..off + ws[i]];
    }
  }

  /** The bytes at an offset spell a number, lowest byte first. */
  ghost predicate At(bs: seq<byte>, off: nat, n: nat, v: nat) {
    off + n <= |bs| && bs[off..off + n] == LE(n, v)
  }

  lemma FieldAt(ws: seq<nat>, vs: seq<nat>, i: nat, off: nat, rest: seq<byte>)
    requires |ws| == |vs| && i < |ws| && off == Total(ws[..i])
    ensures At(Fields(ws, vs) + rest, off, ws[i], vs[i])
  {
    hide LE, Fields, Total;
    FieldStands(ws, vs, i);
    var bs := Fields(ws, vs);
    assert (bs + rest)[off..off + ws[i]] == bs[off..off + ws[i]];
  }

  lemma Sum1(a: nat)
    ensures Total([a]) == a && Total([]) == 0
  {
    assert [a][1..] == [];
  }

  lemma {:induction false} TotalMore(ws: seq<nat>, w: nat)
    ensures Total(ws + [w]) == Total(ws) + w
  {
    if ws == [] {
      Sum1(w);
      assert [] + [w] == [w];
    } else {
      TotalMore(ws[1..], w);
      assert (ws + [w])[1..] == ws[1..] + [w];
    }
  }

  lemma PrefixTotal(ws: seq<nat>, i: nat, off: nat)
    requires i < |ws| && Total(ws[..i]) == off
    ensures Total(ws[..i + 1]) == off + ws[i]
  {
    TotalMore(ws[..i], ws[i]);
    assert ws[..i + 1] == ws[..i] + [ws[i]];
  }

  /** Every field of a list at the sum of the widths before it. */
  lemma {:induction false} AllAt(ws: seq<nat>, vs: seq<nat>, offs: seq<nat>, rest: seq<byte>, n: nat)
    requires |ws| == |vs| == |offs| && n <= |ws| && (offs != [] ==> offs[0] == 0)
    requires forall i :: 0 <= i < |ws| - 1 ==> offs[i + 1] == offs[i] + ws[i]
    ensures n < |ws| ==> Total(ws[..n]) == offs[n]
    ensures forall i :: 0 <= i < n ==> At(Fields(ws, vs) + rest, offs[i], ws[i], vs[i])
  {
    hide At, Fields, Total;
    if n == 0 {
      NoTotal(ws);
    } else {
      AllAt(ws, vs, offs, rest, n - 1);
      FieldAt(ws, vs, n - 1, offs[n - 1], rest);
      if n < |ws| {
        PrefixTotal(ws, n - 1, offs[n - 1]);
      }
    }
  }

  lemma NoTotal(ws: seq<nat>)
    ensures Total(ws[..0]) == 0
  {
  }

  // ----- records -----

  /** The kinds are numbered from 1, and every record that is scoped by an epoch starts with it. */
  lemma EpochLeads(r: Record)
    ensures r.MemberRec? ==> KindOf(r) == 1
    ensures r.LeaseGrant? ==> KindOf(r) == 2 && At(Body(r), 0, 4, r.epoch)
    ensures r.LeaseRelease? ==> KindOf(r) == 3 && At(Body(r), 0, 4, r.epoch)
    ensures r.SegCommit? ==> KindOf(r) == 4 && At(Body(r), 0, 4, r.epoch)
    ensures r.ManAdvance? ==> KindOf(r) == 5 && At(Body(r), 0, 4, r.epoch)
    ensures r.GenPublish? ==> KindOf(r) == 6 && At(Body(r), 0, 4, r.epoch)
    ensures r.GenRetire? ==> KindOf(r) == 7
    ensures r.TierMap? ==> KindOf(r) == 8
    ensures r.Ckpt? ==> KindOf(r) == 9
  {
    hide LE, Concat;
  }

  lemma Laid(bs: seq<byte>, ws: seq<nat>, vs: seq<nat>, offs: seq<nat>, rest: seq<byte>)
    requires |ws| == |vs| == |offs| && offs != [] && offs[0] == 0 && bs == Fields(ws, vs) + rest
    requires forall i :: 0 <= i < |ws| - 1 ==> offs[i + 1] == offs[i] + ws[i]
    ensures forall i :: 0 <= i < |ws| ==> At(bs, offs[i], ws[i], vs[i])
  {
    hide At, Fields;
    AllAt(ws, vs, offs, rest, |ws|);
  }

  lemma GrantLayout(r: Record)
    requires r.LeaseGrant?
    ensures At(Body(r), 4, 1, r.domain) && At(Body(r), 5, 4, r.unit) && At(Body(r), 9, 8, r.node) && At(Body(r), 17, 8, r.deadlineMS)
  {
    hide At, Fields;
    var ws, vs, offs := [4, 1, 4, 8, 8], [r.epoch, r.domain, r.unit, r.node, r.deadlineMS], [0, 4, 5, 9, 17];
    Laid(Body(r), ws, vs, offs, []);
    assert offs[1] == 4 && offs[2] == 5 && offs[3] == 9 && offs[4] == 17;
  }

  lemma ReleaseLayout(r: Record)
    requires r.LeaseRelease?
    ensures At(Body(r), 4, 1, r.domain) && At(Body(r), 5, 4, r.unit)
  {
    hide At, Fields;
    var ws, vs, offs := [4, 1, 4], [r.epoch, r.domain, r.unit], [0, 4, 5];
    Laid(Body(r), ws, vs, offs, []);
    assert offs[1] == 4 && offs[2] == 5;
  }

  lemma CommitLayout(r: Record)
    requires r.SegCommit?
    ensures At(Body(r), 4, 1, r.family) && At(Body(r), 5, 2, r.partition) && At(Body(r), 7, 8, r.seqNo) && At(Body(r), 15, 8, r.rows)
    ensures At(Body(r), 23, 8, r.bytes) && At(Body(r), 31, 8, r.watermark)
  {
    hide At, Fields;
    var ws, vs := [4, 1, 2, 8, 8, 8, 8], [r.epoch, r.family, r.partition, r.seqNo, r.rows, r.bytes, r.watermark];
    var offs := [0, 4, 5, 7, 15, 23, 31];
    Laid(Body(r), ws, vs, offs, []);
    assert offs[1] == 4 && offs[2] == 5 && offs[3] == 7 && offs[4] == 15 && offs[5] == 23 && offs[6] == 31;
  }

  lemma AdvanceLayout(r: Record)
    requires r.ManAdvance?
    ensures At(Body(r), 4, 1, r.family) && At(Body(r), 5, 2, r.partition) && At(Body(r), 7, 8, r.manSeq)
  {
    hide At, Fields;
    var ws, vs, offs := [4, 1, 2, 8], [r.epoch, r.family, r.partition, r.manSeq], [0, 4, 5, 7];
    Laid(Body(r), ws, vs, offs, []);
    assert offs[1] == 4 && offs[2] == 5 && offs[3] == 7;
  }

  lemma PublishLayout(r: Record)
    requires r.GenPublish? && |r.watermarks| < 0x1_0000
    ensures At(Body(r), 4, 2, r.shard) && At(Body(r), 6, 8, r.generation) && At(Body(r), 14, 1, r.genKind)
    ensures At(Body(r), 15, 2, |r.watermarks|)
  {
    hide At, Fields, Concat;
    var ws, vs := [4, 2, 8, 1, 2], [r.epoch, r.shard, r.generation, r.genKind, |r.watermarks| % 0x1_0000];
    var offs := [0, 4, 6, 14, 15];
    Laid(Body(r), ws, vs, offs, Concat(r.watermarks, WatermarkBytes));
    assert offs[1] == 4 && offs[2] == 6 && offs[3] == 14 && offs[4] == 15;
  }

  lemma MemberLayout(m: Member)
    requires |m.endpoints| < 0x100
    ensures At(MemberBytes(m), 0, 8, m.node) && At(MemberBytes(m), 8, 1, m.plane) && At(MemberBytes(m), 9, 4, m.incarnation)
    ensures At(MemberBytes(m), 13, 1, |m.endpoints|)
  {
    hide At, Fields, Concat;
    var ws, vs, offs := [8, 1, 4, 1], [m.node, m.plane, m.incarnation, |m.endpoints| % 0x100], [0, 8, 9, 13];
    Laid(MemberBytes(m), ws, vs, offs, Concat(m.endpoints, Str) + Str(m.version));
    assert offs[0] == 0 && offs[1] == 8 && offs[2] == 9 && offs[3] == 13;
  }

  lemma RestLayout(r: Record)
    ensures r.GenRetire? ==> At(Body(r), 0, 2, r.shard) && At(Body(r), 2, 8, r.generation)
    ensures r.TierMap? && |r.assign| < 0x1_0000 ==> At(Body(r), 0, 8, r.version) && At(Body(r), 8, 2, |r.assign|)
    ensures r.Ckpt? ==> At(Body(r), 0, 8, r.ckptSeq)
  {
    hide At, Fields, Concat;
    if r.GenRetire? {
      var ws, vs, offs := [2, 8], [r.shard, r.generation], [0, 2];
      Laid(Body(r), ws, vs, offs, []);
      assert offs[0] == 0 && offs[1] == 2;
    } else if r.TierMap? {
      var ws, vs, offs := [8, 2], [r.version, |r.assign| % 0x1_0000], [0, 8];
      Laid(Body(r), ws, vs, offs, Concat(r.assign, AssignBytes));
      assert offs[0] == 0 && offs[1] == 8;
    } else if r.Ckpt? {
      var ws, vs, offs := [8], [r.ckptSeq], [0];
      Laid(Body(r), ws, vs, offs, []);
      assert offs[0] == 0;
    }
  }
}
