/** Whatever decodes as a checkpoint, chain/ckpt.go: sorted or not, it is encoded again as a checkpoint that decodes to the same. */
module CheckpointReading {
  import opened Bytes
  import opened Records
  import opened Format
  import opened RecordCodec
  import opened BatchCodec
  import opened Leases
  import opened ChainState
  import opened Checkpoint
  import opened CheckpointCodec

  // ----- sizes -----

  /** What an entry is read from is as long as what it is written as. */
  ghost predicate SameSize<T(!new)>(read: Input -> (T, Input), write: T -> seq<byte>) {
    && read(Bad).1 == Bad
    && forall data :: read(Good(data)).1.Good? ==> |write(read(Good(data)).0)| + |read(Good(data)).1.rest| == |data|
  }

  lemma FieldsSame(data: seq<byte>, ws: seq<nat>)
    ensures ReadFields(Good(data), ws).1.Good? ==> Total(ws) + |ReadFields(Good(data), ws).1.rest| == |data|
  {
    var (vs, i) := ReadFields(Good(data), ws);
    if i.Good? {
      FieldsLaw(data, ws, vs, i.rest);
      FieldsLength(ws, vs);
    }
  }

  lemma MemberSame()
    ensures SameSize(ReadMemberEntry, WriteMember)
  {
    hide ReadMember, MemberBytes, MemberFits;
    forall data | ReadMemberEntry(Good(data)).1.Good?
      ensures |WriteMember(ReadMemberEntry(Good(data)).0)| + |ReadMemberEntry(Good(data)).1.rest| == |data|
    {
      var (m, i) := ReadMember(Good(data));
      MemberLaw(data, m, i.rest);
    }
    BadMember();
  }

  lemma BadMember()
    ensures ReadMemberEntry(Bad).1 == Bad
  {
    hide UInt, Many, ReadStr;
    Widths();
    BadMany(ReadFields(Bad, [8, 1, 4, 1]).0[3]);
    BadStr();
  }

  lemma BadStr()
    ensures ReadStr(Bad).1 == Bad
  {
  }

  lemma {:induction false} BadMany(n: nat)
    ensures Many(Bad, n, ReadStr).1 == Bad
  {
    hide ReadStr;
    if n > 0 {
      BadStr();
      BadMany(n - 1);
    }
  }

  lemma LeaseSame()
    ensures SameSize(ReadLease, WriteLease)
  {
    hide ReadFields, Fields, Total;
    forall data | ReadLease(Good(data)).1.Good?
      ensures |WriteLease(ReadLease(Good(data)).0)| + |ReadLease(Good(data)).1.rest| == |data|
    {
      Widths();
      var l := ReadLease(Good(data)).0.1;
      FieldsSame(data, [1, 4, 8, 4, 8, 1]);
      FieldsLength([1, 4, 8, 4, 8, 1], [l.domain, l.unit, l.node, l.epoch, l.deadlineMS, if l.released then 1 else 0]);
    }
    Widths();
    assert ReadLease(Bad).1 == Bad by { assert ReadFields(Bad, [1, 4, 8, 4, 8, 1]).1.Bad?; }
  }

  lemma ManSame()
    ensures SameSize(ReadMan, WriteMan)
  {
    hide ReadFields, Fields, Total;
    forall data | ReadMan(Good(data)).1.Good? ensures |WriteMan(ReadMan(Good(data)).0)| + |ReadMan(Good(data)).1.rest| == |data| {
      Widths();
      var e := ReadMan(Good(data)).0;
      FieldsSame(data, [1, 2, 8]);
      FieldsLength([1, 2, 8], [e.0.family, e.0.partition, e.1]);
    }
    Widths();
    assert ReadMan(Bad).1 == Bad by { assert ReadFields(Bad, [1, 2, 8]).1.Bad?; }
  }

  lemma GenSame()
    ensures SameSize(ReadGen, WriteGen)
  {
    hide ReadFields, Fields, Total;
    forall data | ReadGen(Good(data)).1.Good? ensures |WriteGen(ReadGen(Good(data)).0)| + |ReadGen(Good(data)).1.rest| == |data| {
      Widths();
      var e := ReadGen(Good(data)).0;
      FieldsSame(data, [2, 8, 1]);
      FieldsLength([2, 8, 1], [e.0.shard, e.0.generation, e.1]);
    }
    Widths();
    assert ReadGen(Bad).1 == Bad by { assert ReadFields(Bad, [2, 8, 1]).1.Bad?; }
  }

  lemma TierSame()
    ensures SameSize(ReadTier, WriteTier)
  {
    hide ReadFields, Fields, Total;
    forall data | ReadTier(Good(data)).1.Good? ensures |WriteTier(ReadTier(Good(data)).0)| + |ReadTier(Good(data)).1.rest| == |data| {
      Widths();
      var e := ReadTier(Good(data)).0;
      FieldsSame(data, [2, 1]);
      FieldsLength([2, 1], [e.0, e.1]);
    }
    Widths();
    assert ReadTier(Bad).1 == Bad by { assert ReadFields(Bad, [2, 1]).1.Bad?; }
  }

  lemma {:induction false} ManySize<T(!new)>(i: Input, n: nat, read: Input -> (T, Input), write: T -> seq<byte>)
    requires SameSize(read, write) && Many(i, n, read).1.Good?
    ensures i.Good? && |Concat(Many(i, n, read).0, write)| + |Many(i, n, read).1.rest| == |i.rest|
    decreases n
  {
    if n > 0 {
      var (x, i') := read(i);
      ManySize(i', n - 1, read, write);
      var xs := Many(i', n - 1, read).0;
      assert ([x] + xs)[1..] == xs;
    }
  }

  lemma CountedSize<T(!new)>(i: Input, read: Input -> (T, Input), write: T -> seq<byte>)
    requires SameSize(read, write) && ReadCounted(i, read).1 == Good([])
    ensures i.Good? && |Counted(ReadCounted(i, read).0, write)| == |i.rest|
  {
    hide SameSize;
    var (n, i') := UInt(i, 4);
    ManySize(i', n, read, write);
  }

  // ----- fewer entries -----

  ghost predicate NoneTwice<T>(es: seq<T>) {
    forall i, j :: 0 <= i < j < |es| ==> es[i] != es[j]
  }

  lemma {:induction false} Fewer<T>(es: seq<T>, all: seq<T>, write: T -> seq<byte>)
    requires NoneTwice(es) && forall e :: e in es ==> e in all
    ensures |Concat(es, write)| <= |Concat(all, write)|
    decreases |es|
  {
    if es != [] {
      assert es[0] in es && es[0] in all;
      var i :| 0 <= i < |all| && all[i] == es[0];
      var rest := all[..i] + all[i + 1..];
      forall e | e in es[1..] ensures e in rest {
        StillIn(es, all, i, e);
      }
      assert NoneTwice(es[1..]) by {
        assert forall j :: 0 <= j < |es| - 1 ==> es[1..][j] == es[j + 1];
      }
      Fewer(es[1..], rest, write);
      WithoutOne(all, i, write);
    }
  }

  lemma StillIn<T>(es: seq<T>, all: seq<T>, i: nat, e: T)
    requires NoneTwice(es) && es != [] && e in es[1..] && e in all && i < |all| && all[i] == es[0]
    ensures e in all[..i] + all[i + 1..]
  {
    var j :| 0 <= j < |es| - 1 && es[1..][j] == e;
    assert es[0] != es[j + 1];
    var k :| 0 <= k < |all| && all[k] == e;
    var rest := all[..i] + all[i + 1..];
    assert if k < i then rest[k] == e else rest[k - 1] == e;
  }

  lemma WithoutOne<T>(all: seq<T>, i: nat, write: T -> seq<byte>)
    requires i < |all|
    ensures |Concat(all, write)| == |Concat(all[..i] + all[i + 1..], write)| + |write(all[i])|
  {
    var rest := all[..i] + all[i + 1..];
    ConcatSplit(all, i, write);
    ConcatSplit(rest, i, write);
    assert rest[..i] == all[..i] && rest[i..] == all[i + 1..];
    assert all[i..][0] == all[i] && all[i..][1..] == all[i + 1..];
  }

  lemma {:induction false} Came<K, V>(es: seq<(K, V)>, k: K)
    requires k in Inserted(es)
    ensures (k, Inserted(es)[k]) in es
  {
    var n := |es| - 1;
    if es[n].0 != k {
      Came(es[..n], k);
      assert es == es[..n] + [es[n]];
    } else {
      assert es[n] in es;
    }
  }

  /** A map read from entries is listed in no more bytes than it was read from. */
  lemma Smaller<K, V>(es: seq<(K, V)>, all: seq<(K, V)>, rank: K -> nat, write: ((K, V)) -> seq<byte>)
    requires Lists(es, Inserted(all), rank)
    ensures |Counted(es, write)| <= |Counted(all, write)|
  {
    hide Concat, Inserted;
    forall e | e in es ensures e in all {
      Came(all, e.0);
    }
    assert NoneTwice(es);
    Fewer(es, all, write);
  }

  // ----- a state that was read -----

  lemma {:induction false} OwnNodes(i: Input, n: nat)
    ensures forall e :: e in Many(i, n, ReadMemberEntry).0 ==> e.0 == e.1.node
    decreases n
  {
    hide ReadMember;
    if n > 0 {
      OwnNodes(ReadMemberEntry(i).1, n - 1);
    }
  }

  lemma {:induction false} OwnUnits(i: Input, n: nat)
    ensures forall e :: e in Many(i, n, ReadLease).0 ==> e.0 == LeaseKey(e.1.domain, e.1.unit)
    decreases n
  {
    hide ReadFields;
    if n > 0 {
      Widths();
      OwnUnits(ReadLease(i).1, n - 1);
    }
  }

  lemma ReadOwns(bodies: seq<seq<byte>>, ckptSeq: u64)
    requires |bodies| == 5 && StateFrom(bodies, ckptSeq).Ok?
    ensures OwnKeys(StateFrom(bodies, ckptSeq).value)
  {
    hide ReadMemberEntry, ReadLease, ReadMan, ReadGen, ReadTier, Many, Inserted, UInt, FirstError;
    var members, leases := ReadCounted(Good(bodies[0]), ReadMemberEntry).0, ReadCounted(Good(bodies[1]), ReadLease).0;
    OwnNodes(UInt(Good(bodies[0]), 4).1, UInt(Good(bodies[0]), 4).0);
    OwnUnits(UInt(Good(bodies[1]), 4).1, UInt(Good(bodies[1]), 4).0);
    forall n | n in Inserted(members) ensures Inserted(members)[n].node == n {
      Came(members, n);
    }
    forall k | k in Inserted(leases) ensures Inserted(leases)[k].domain == k.domain && Inserted(leases)[k].unit == k.unit {
      Came(leases, k);
    }
  }

  lemma {:induction false} SectionsShort(i: Input, n: nat, crc: Checksum)
    requires ReadSections(i, n, crc).Ok?
    ensures forall k :: 0 <= k < n ==> |ReadSections(i, n, crc).value.0[k]| < 0x1_0000_0000
    decreases n
  {
    hide ReadSection;
    if n > 0 {
      SectionShort(i, crc);
      SectionsShort(ReadSection(i, crc).value.1, n - 1, crc);
    }
  }

  lemma SectionShort(i: Input, crc: Checksum)
    requires ReadSection(i, crc).Ok?
    ensures |ReadSection(i, crc).value.0| < 0x1_0000_0000
  {
    Widths();
  }

  lemma {:induction false} AllUsed(ins: seq<Input>)
    requires FirstError(ins) == None
    ensures forall k :: 0 <= k < |ins| ==> ins[k] == Good([])
  {
    if ins != [] {
      AllUsed(ins[1..]);
      assert forall k :: 1 <= k < |ins| ==> ins[k] == ins[1..][k - 1];
    }
  }

  /** Written again, no section is longer than it was. */
  lemma ReadSized(bodies: seq<seq<byte>>, ckptSeq: u64)
    requires |bodies| == 5 && StateFrom(bodies, ckptSeq).Ok? && forall k :: 0 <= k < 5 ==> |bodies[k]| < 0x1_0000_0000
    ensures Sized(StateFrom(bodies, ckptSeq).value)
  {
    hide ReadMemberEntry, ReadLease, ReadMan, ReadGen, ReadTier, ReadCounted, Counted, Inserted, Lists, UInt, FirstError, SameSize;
    var s := StateFrom(bodies, ckptSeq).value;
    var (members, i0) := ReadCounted(Good(bodies[0]), ReadMemberEntry);
    var (leases, i1) := ReadCounted(Good(bodies[1]), ReadLease);
    var (mans, i2) := ReadCounted(Good(bodies[2]), ReadMan);
    var (gens, i3) := ReadCounted(Good(bodies[3]), ReadGen);
    var i4 := UInt(Good(bodies[4]), 8).1;
    var (tiers, i5) := ReadCounted(i4, ReadTier);
    var ins := [i0, i1, i2, i3, i5];
    AllUsed(ins);
    assert ins[0] == i0 && ins[1] == i1 && ins[2] == i2 && ins[3] == i3 && ins[4] == i5;
    MemberSame();
    LeaseSame();
    ManSame();
    GenSame();
    TierSame();
    CountedSize(Good(bodies[0]), ReadMemberEntry, WriteMember);
    CountedSize(Good(bodies[1]), ReadLease, WriteLease);
    CountedSize(Good(bodies[2]), ReadMan, WriteMan);
    CountedSize(Good(bodies[3]), ReadGen, WriteGen);
    CountedSize(i4, ReadTier, WriteTier);
    VersionSize(bodies[4]);
    forall l | ListingOf(l, s) ensures forall k :: 0 <= k < 5 ==> |Bodies(l, s.tierVersion)[k]| < 0x1_0000_0000 {
      Smaller(l.members, members, NodeRank, WriteMember);
      Smaller(l.leases, leases, LeaseRank, WriteLease);
      Smaller(l.mans, mans, ManRank, WriteMan);
      Smaller(l.gens, gens, GenRank, WriteGen);
      Smaller(l.tiers, tiers, ShardRank, WriteTier);
    }
  }

  lemma VersionSize(body: seq<byte>)
    ensures UInt(Good(body), 8).1.Good? ==> |UInt(Good(body), 8).1.rest| + 8 == |body|
  {
  }

  /** Whatever decodes is encoded again as a checkpoint that decodes to the same state, slot and writer. */
  lemma ReEncodes(data: seq<byte>, again: seq<byte>, crc: Checksum)
    requires CheckpointIn(data, crc).Ok?
    requires var b := CheckpointIn(data, crc).value; CheckpointOf(again, b.state, b.writer, b.seqNo, crc)
    ensures CheckpointIn(again, crc) == CheckpointIn(data, crc)
  {
    hide CheckpointOf, Sized, AllFit, OwnKeys, StateFrom, ReadSections, ReadFields, OpenObject;
    var b := CheckpointIn(data, crc).value;
    DecodedIsSound(data, crc);
    BootedFits(data, crc);
    CheckpointReadsBackIff(again, b.state, b.writer, b.seqNo, crc);
  }

  lemma DecodedIsSound(data: seq<byte>, crc: Checksum)
    requires CheckpointIn(data, crc).Ok?
    ensures OwnKeys(CheckpointIn(data, crc).value.state) && Sized(CheckpointIn(data, crc).value.state)
  {
    hide Sized, OwnKeys, StateFrom, ReadSections, ReadFields, OpenObject;
    Widths();
    var payload := OpenObject(data, FORMAT_CKPT, crc).value.1;
    var (head, i) := ReadFields(Good(payload), [8, 8]);
    var bodies := ReadSections(i, 5, crc).value.0;
    SectionsShort(i, 5, crc);
    ReadOwns(bodies, head[1]);
    ReadSized(bodies, head[1]);
  }
}
