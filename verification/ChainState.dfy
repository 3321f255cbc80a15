/** The folded chain state of chain/state.go. */
module ChainState {
  import opened Bytes
  import opened Records
  import opened Leases
  import RecordCodec

  datatype ManKey = ManKey(family: byte, partition: u16)
  datatype GenKey = GenKey(shard: u16, generation: u64)

  /** A State's contents. */
  datatype Snapshot = Snapshot(members: map<u64, Member>, leases: Table, mans: map<ManKey, u64>, gens: map<GenKey, byte>,
                               tiers: map<u16, byte>, tierVersion: u64, ckptSeq: u64)

  const NOTHING := Snapshot(map[], map[], map[], map[], map[], 0, 0)

  function Assigned(tiers: map<u16, byte>, assign: seq<TierAssign>): map<u16, byte> {
    if assign == [] then tiers
    else
      var a := assign[|assign| - 1];
      Assigned(tiers, assign[..|assign| - 1])[a.shard := a.tier]
  }

  function ApplyOne(s: Snapshot, r: Record): Snapshot {
    match r
    case MemberRec(m) => s.(members := s.members[m.node := m])
    case LeaseGrant(_, _, _, _, _) => s.(leases := Step(s.leases, r))
    case LeaseRelease(_, _, _) => s.(leases := Step(s.leases, r))
    case SegCommit(_, _, _, _, _, _, _) => s
    case ManAdvance(_, family, partition, manSeq) =>
      var k := ManKey(family, partition);
      var cur := if k in s.mans then s.mans[k] else 0;
      if manSeq > cur then s.(mans := s.mans[k := manSeq]) else s
    case GenPublish(_, shard, generation, genKind, _) => s.(gens := s.gens[GenKey(shard, generation) := genKind])
    case GenRetire(shard, generation) => s.(gens := s.gens - {GenKey(shard, generation)})
    case TierMap(version, assign) =>
      if version > s.tierVersion then s.(tierVersion := version, tiers := Assigned(map[], assign)) else s
    case Ckpt(ckptSeq) => if ckptSeq > s.ckptSeq then s.(ckptSeq := ckptSeq) else s
  }

  function ApplyAll(s: Snapshot, rs: seq<Record>): Snapshot {
    if rs == [] then s else ApplyOne(ApplyAll(s, rs[..|rs| - 1]), rs[|rs| - 1])
  }

  /** The state after a stretch of the chain. */
  function Replay(s: Snapshot, bs: seq<Batch>): Snapshot {
    if bs == [] then s else ApplyAll(Replay(s, bs[..|bs| - 1]), bs[|bs| - 1].records)
  }

  lemma {:induction false} ReplayConcat(s: Snapshot, a: seq<Batch>, b: seq<Batch>)
    ensures Replay(s, a + b) == Replay(Replay(s, a), b)
  {
    if b == [] {
      assert a + b == a;
    } else {
      assert (a + b)[..|a + b| - 1] == a + b[..|b| - 1];
      ReplayConcat(s, a, b[..|b| - 1]);
    }
  }

  /** The state a node folds. */
  class State {
    var members: map<u64, Member>
    const leases: LeaseTable
    var mans: map<ManKey, u64>
    var gens: map<GenKey, byte>
    var tiers: map<u16, byte>
    var tierVersion: u64
    var ckptSeq: u64

    function Snap(): Snapshot
      reads this, leases
    {
      Snapshot(members, leases.m, mans, gens, tiers, tierVersion, ckptSeq)
    }

    constructor ()
      ensures Snap() == NOTHING && fresh(leases)
    {
      members, mans, gens, tiers, tierVersion, ckptSeq := map[], map[], map[], map[], 0, 0;
      leases := new LeaseTable();
    }

    /** A decoded checkpoint's contents. */
    constructor From(s: Snapshot)
      ensures Snap() == s && fresh(leases)
    {
      members, mans, gens, tiers, tierVersion, ckptSeq := s.members, s.mans, s.gens, s.tiers, s.tierVersion, s.ckptSeq;
      leases := new LeaseTable.From(s.leases);
    }

    method Apply(b: Batch)
      modifies this, leases
      ensures Snap() == ApplyAll(old(Snap()), b.records)
    {
      for i := 0 to |b.records|
        invariant Snap() == ApplyAll(old(Snap()), b.records[..i])
      {
        assert b.records[..i + 1][..i] == b.records[..i];
        ApplyRecord(b.records[i]);
      }
      assert b.records[..|b.records|] == b.records;
    }

    method ApplyRecord(r: Record)
      modifies this, leases
      ensures Snap() == ApplyOne(old(Snap()), r)
    {
      match r
      case MemberRec(m) => members := members[m.node := m];
      case LeaseGrant(_, _, _, _, _) => leases.ApplyRecord(r);
      case LeaseRelease(_, _, _) => leases.ApplyRecord(r);
      case SegCommit(_, _, _, _, _, _, _) =>
      case ManAdvance(_, family, partition, manSeq) =>
        var k := ManKey(family, partition);
        var cur := if k in mans then mans[k] else 0;
        if manSeq > cur {
          mans := mans[k := manSeq];
        }
      case GenPublish(_, shard, generation, genKind, _) => gens := gens[GenKey(shard, generation) := genKind];
      case GenRetire(shard, generation) => gens := gens - {GenKey(shard, generation)};
      case TierMap(version, assign) =>
        if version > tierVersion {
          tierVersion := version;
          Assign(assign);
        }
      case Ckpt(seqNo) =>
        if seqNo > ckptSeq {
          ckptSeq := seqNo;
        }
    }

    method Assign(assign: seq<TierAssign>)
      modifies this`tiers
      ensures tiers == Assigned(map[], assign)
    {
      tiers := map[];
      for i := 0 to |assign|
        invariant tiers == Assigned(map[], assign[..i])
      {
        assert assign[..i + 1][..i] == assign[..i];
        tiers := tiers[assign[i].shard := assign[i].tier];
      }
      assert assign[..|assign|] == assign;
    }
  }

  lemma LeasesOfOne(s: Snapshot, r: Record)
    ensures ApplyOne(s, r).leases == Step(s.leases, r)
  {
    hide Assigned;
  }

  /** The lease part of the state is the lease fold of the records. */
  lemma {:induction false} LeasesOfState(s: Snapshot, rs: seq<Record>)
    ensures ApplyAll(s, rs).leases == Fold(s.leases, rs)
  {
    hide ApplyOne, Step;
    if rs != [] {
      LeasesOfState(s, rs[..|rs| - 1]);
      LeasesOfOne(ApplyAll(s, rs[..|rs| - 1]), rs[|rs| - 1]);
    }
  }

  // ----- what every reachable state keeps -----

  /** Every entry is filed under its own key. */
  ghost predicate OwnKeys(s: Snapshot) {
    (forall n :: n in s.members ==> s.members[n].node == n) && OwnLeases(s.leases)
  }

  /** Every member is one that a decoded record can carry. */
  ghost predicate AllFit(s: Snapshot) {
    forall n :: n in s.members ==> RecordCodec.MemberFits(s.members[n])
  }

  ghost predicate Keyed(s: Snapshot) {
    OwnKeys(s) && AllFit(s)
  }

  /** Batches as they come off the chain: every record was decoded. */
  ghost predicate Decoded(bs: seq<Batch>) {
    forall i, r :: 0 <= i < |bs| && r in bs[i].records ==> RecordCodec.RecordFits(r)
  }

  ghost predicate OwnLeases(t: Table) {
    forall k :: k in t ==> t[k].domain == k.domain && t[k].unit == k.unit
  }

  lemma StepOwnLeases(t: Table, r: Record)
    requires OwnLeases(t)
    ensures OwnLeases(Step(t, r))
  {
  }

  lemma StepOwnKeys(s: Snapshot, r: Record)
    requires OwnKeys(s)
    ensures OwnKeys(ApplyOne(s, r))
  {
    hide Step, Assigned;
    StepOwnLeases(s.leases, r);
  }

  /** Own keys need no decoding: the appender's own batches keep them too. */
  lemma {:induction false} AppliedOwnKeys(s: Snapshot, rs: seq<Record>)
    requires OwnKeys(s)
    ensures OwnKeys(ApplyAll(s, rs))
  {
    hide OwnKeys, ApplyOne;
    if rs != [] {
      AppliedOwnKeys(s, rs[..|rs| - 1]);
      StepOwnKeys(ApplyAll(s, rs[..|rs| - 1]), rs[|rs| - 1]);
    }
  }

  lemma StepFits(s: Snapshot, r: Record)
    requires AllFit(s) && RecordCodec.RecordFits(r)
    ensures AllFit(ApplyOne(s, r))
  {
    hide Step, Assigned, RecordCodec.MemberFits;
  }

  lemma {:induction false} AppliedFits(s: Snapshot, rs: seq<Record>)
    requires AllFit(s) && forall r :: r in rs ==> RecordCodec.RecordFits(r)
    ensures AllFit(ApplyAll(s, rs))
  {
    hide AllFit, ApplyOne, RecordCodec.RecordFits;
    if rs != [] {
      AppliedFits(s, rs[..|rs| - 1]);
      assert rs[|rs| - 1] in rs;
      StepFits(ApplyAll(s, rs[..|rs| - 1]), rs[|rs| - 1]);
    }
  }

  lemma AppliedKeyed(s: Snapshot, rs: seq<Record>)
    requires Keyed(s) && forall r :: r in rs ==> RecordCodec.RecordFits(r)
    ensures Keyed(ApplyAll(s, rs))
  {
    hide OwnKeys, AllFit, RecordCodec.RecordFits;
    AppliedOwnKeys(s, rs);
    AppliedFits(s, rs);
  }

  lemma {:induction false} ReplayKeyed(s: Snapshot, bs: seq<Batch>)
    requires Keyed(s) && Decoded(bs)
    ensures Keyed(Replay(s, bs))
  {
    if bs != [] {
      ReplayKeyed(s, bs[..|bs| - 1]);
      AppliedKeyed(Replay(s, bs[..|bs| - 1]), bs[|bs| - 1].records);
    }
  }

  lemma {:induction false} ReplayOwnKeys(s: Snapshot, bs: seq<Batch>)
    requires OwnKeys(s)
    ensures OwnKeys(Replay(s, bs))
  {
    if bs != [] {
      ReplayOwnKeys(s, bs[..|bs| - 1]);
      AppliedOwnKeys(Replay(s, bs[..|bs| - 1]), bs[|bs| - 1].records);
    }
  }

  // ----- the pointers the fold keeps only move forward -----

  /** Manifest pointers, the tier version and the announced checkpoint never go back, and no manifest is forgotten. */
  ghost predicate NoEarlier(s: Snapshot, s': Snapshot) {
    && (forall k :: k in s.mans ==> k in s'.mans && s.mans[k] <= s'.mans[k])
    && s.tierVersion <= s'.tierVersion && s.ckptSeq <= s'.ckptSeq
    && (s.tierVersion == s'.tierVersion ==> s.tiers == s'.tiers)
  }

  lemma {:induction false} AppliedNoEarlier(s: Snapshot, rs: seq<Record>)
    ensures NoEarlier(s, ApplyAll(s, rs))
  {
    if rs != [] {
      AppliedNoEarlier(s, rs[..|rs| - 1]);
      StepNoEarlier(ApplyAll(s, rs[..|rs| - 1]), rs[|rs| - 1]);
    }
  }

  lemma StepNoEarlier(s: Snapshot, r: Record)
    ensures NoEarlier(s, ApplyOne(s, r))
  {
  }
}
