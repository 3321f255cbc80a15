/** What the folded chain state of chain/state.go means: each part of it, straight from the records of the chain. */
module StateLaws {
  import opened Bytes
  import opened Records
  import opened Leases
  import opened ChainState

  /** The state a node holds after these records. */
  function After(rs: seq<Record>): Snapshot {
    ApplyAll(NOTHING, rs)
  }

  // ----- what a record says about one key -----

  predicate NamesMember(r: Record, n: u64) {
    r.MemberRec? && r.member.node == n
  }

  predicate NamesGen(r: Record, k: GenKey) {
    (r.GenPublish? || r.GenRetire?) && GenKey(r.shard, r.generation) == k
  }

  function ManSeqFor(r: Record, k: ManKey): nat {
    if r.ManAdvance? && ManKey(r.family, r.partition) == k then r.manSeq else 0
  }

  function CkptFor(r: Record): nat {
    if r.Ckpt? then r.ckptSeq else 0
  }

  function VersionFor(r: Record): nat {
    if r.TierMap? then r.version else 0
  }

  // ----- what the state means -----

  /** Record i is the last one that speaks of node n. */
  ghost predicate LastOfMember(rs: seq<Record>, i: nat, n: u64) {
    i < |rs| && NamesMember(rs[i], n) && forall j :: i < j < |rs| ==> !NamesMember(rs[j], n)
  }

  ghost predicate LastOfGen(rs: seq<Record>, i: nat, k: GenKey) {
    i < |rs| && NamesGen(rs[i], k) && forall j :: i < j < |rs| ==> !NamesGen(rs[j], k)
  }

  /** The last record of node n announces m. */
  ghost predicate IsMember(rs: seq<Record>, n: u64, m: Member) {
    exists i: nat :: LastOfMember(rs, i, n) && rs[i].member == m
  }

  /** The last record of generation k publishes it, with this kind. */
  ghost predicate IsGen(rs: seq<Record>, k: GenKey, kind: byte) {
    exists i: nat :: LastOfGen(rs, i, k) && rs[i].GenPublish? && rs[i].genKind == kind
  }

  /** m is the largest of f over the records, zero when there are none. */
  ghost predicate IsMax(rs: seq<Record>, f: Record -> nat, m: nat) {
    (forall i :: 0 <= i < |rs| ==> f(rs[i]) <= m) && (m > 0 ==> exists i :: 0 <= i < |rs| && f(rs[i]) == m)
  }

  /** Record i is the first tier map of the highest version. */
  ghost predicate FirstOfVersion(rs: seq<Record>, i: nat, version: nat) {
    && i < |rs| && rs[i].TierMap? && rs[i].version == version
    && forall j :: 0 <= j < i ==> VersionFor(rs[j]) < version
  }

  ghost predicate IsTiers(rs: seq<Record>, version: nat, tiers: map<u16, byte>) {
    if version == 0 then tiers == map[]
    else exists i: nat :: FirstOfVersion(rs, i, version) && GivesTiers(rs[i].assign, tiers)
  }

  /** An assignment list gives each shard the last tier it names for it, and no other shard any. */
  ghost predicate GivesTiers(assign: seq<TierAssign>, tiers: map<u16, byte>) {
    forall shard: u16, tier: byte :: shard in tiers && tiers[shard] == tier <==> LastTier(assign, shard, tier)
  }

  ghost predicate LastTier(assign: seq<TierAssign>, shard: u16, tier: byte) {
    exists i :: && 0 <= i < |assign| && assign[i] == TierAssign(shard, tier)
                && forall j :: i < j < |assign| ==> assign[j].shard != shard
  }

  lemma LastTierMore(assign: seq<TierAssign>, shard: u16, tier: byte)
    requires assign != []
    ensures var a := assign[|assign| - 1];
            LastTier(assign, shard, tier)
            <==> if a.shard == shard then a.tier == tier else LastTier(assign[..|assign| - 1], shard, tier)
  {
    var n, init := |assign| - 1, assign[..|assign| - 1];
    assert assign == init + [assign[n]];
    if assign[n].shard == shard {
      assert assign[n].tier == tier ==> LastTier(assign, shard, tier);
    } else {
      if LastTier(assign, shard, tier) {
        var i :| && 0 <= i < |assign| && assign[i] == TierAssign(shard, tier)
                 && forall j :: i < j < |assign| ==> assign[j].shard != shard;
        assert init[i] == TierAssign(shard, tier);
      }
      if LastTier(init, shard, tier) {
        var i :| && 0 <= i < |init| && init[i] == TierAssign(shard, tier)
                 && forall j :: i < j < |init| ==> init[j].shard != shard;
        assert assign[i] == TierAssign(shard, tier);
      }
    }
  }

  lemma {:induction false} AssignedGives(assign: seq<TierAssign>)
    ensures GivesTiers(assign, Assigned(map[], assign))
  {
    hide LastTier;
    forall shard: u16, tier: byte
      ensures shard in Assigned(map[], assign) && Assigned(map[], assign)[shard] == tier <==> LastTier(assign, shard, tier)
    {
      if assign == [] {
        NoTier(shard, tier);
      } else {
        AssignedGives(assign[..|assign| - 1]);
        LastTierMore(assign, shard, tier);
      }
    }
  }

  lemma NoTier(shard: u16, tier: byte)
    ensures !LastTier([], shard, tier)
  {
  }

  function ManOf(s: Snapshot, k: ManKey): nat {
    if k in s.mans then s.mans[k] else 0
  }

  // ----- one more record -----

  lemma AfterMore(rs: seq<Record>)
    requires rs != []
    ensures After(rs) == ApplyOne(After(rs[..|rs| - 1]), rs[|rs| - 1])
  {
  }

  /** Members: the last record of a node is what is known of it. */
  lemma {:induction false} MembersAre(rs: seq<Record>, n: u64, m: Member)
    ensures n in After(rs).members && After(rs).members[n] == m
       <==> IsMember(rs, n, m)
  {
    hide ApplyAll, Step, Assigned;
    if rs == [] {
      NothingKnown();
    } else {
      var init, r := rs[..|rs| - 1], rs[|rs| - 1];
      AfterMore(rs);
      MembersAre(init, n, m);
      assert forall i :: 0 <= i < |init| ==> init[i] == rs[i];
      if NamesMember(r, n) {
        assert LastOfMember(rs, |rs| - 1, n);
      } else {
        forall i: nat ensures LastOfMember(rs, i, n) <==> LastOfMember(init, i, n) {
        }
      }
    }
  }

  lemma NothingKnown()
    ensures After([]) == NOTHING
  {
  }

  lemma GenMore(rs: seq<Record>, k: GenKey, i: nat)
    requires rs != [] && !NamesGen(rs[|rs| - 1], k)
    ensures LastOfGen(rs, i, k) <==> LastOfGen(rs[..|rs| - 1], i, k)
  {
    var init := rs[..|rs| - 1];
    assert forall j :: 0 <= j < |init| ==> init[j] == rs[j];
  }

  lemma GenLast(rs: seq<Record>, k: GenKey, kind: byte)
    requires rs != [] && NamesGen(rs[|rs| - 1], k)
    ensures IsGen(rs, k, kind) <==> rs[|rs| - 1].GenPublish? && rs[|rs| - 1].genKind == kind
  {
    assert LastOfGen(rs, |rs| - 1, k);
  }

  lemma GenSame(rs: seq<Record>, k: GenKey, kind: byte)
    requires rs != [] && !NamesGen(rs[|rs| - 1], k)
    ensures IsGen(rs, k, kind) <==> IsGen(rs[..|rs| - 1], k, kind)
  {
    var init := rs[..|rs| - 1];
    hide LastOfGen;
    if IsGen(rs, k, kind) {
      var i: nat :| LastOfGen(rs, i, k) && rs[i].GenPublish? && rs[i].genKind == kind;
      GenMore(rs, k, i);
      InBounds(init, i, k);
      assert init[i] == rs[i];
    }
    if IsGen(init, k, kind) {
      var i: nat :| LastOfGen(init, i, k) && init[i].GenPublish? && init[i].genKind == kind;
      GenMore(rs, k, i);
      InBounds(init, i, k);
      assert init[i] == rs[i];
    }
  }

  lemma InBounds(rs: seq<Record>, i: nat, k: GenKey)
    requires LastOfGen(rs, i, k)
    ensures i < |rs|
  {
  }

  /** What one record does to one generation. */
  lemma GenStep(s: Snapshot, r: Record, k: GenKey)
    ensures var gens := ApplyOne(s, r).gens;
            if NamesGen(r, k) then (if r.GenPublish? then k in gens && gens[k] == r.genKind else k !in gens)
            else (k in gens <==> k in s.gens) && (k in gens ==> gens[k] == s.gens[k])
  {
    hide Step, Assigned;
  }

  /** Generations: published, and neither published again nor retired since. */
  lemma {:induction false} GensAre(rs: seq<Record>, k: GenKey, kind: byte)
    ensures k in After(rs).gens && After(rs).gens[k] == kind
       <==> IsGen(rs, k, kind)
  {
    if rs == [] {
      hide ApplyAll;
      NothingKnown();
    } else {
      hide After, ApplyOne, IsGen, NamesGen;
      AfterMore(rs);
      GensAre(rs[..|rs| - 1], k, kind);
      GenStep(After(rs[..|rs| - 1]), rs[|rs| - 1], k);
      if NamesGen(rs[|rs| - 1], k) {
        GenLast(rs, k, kind);
      } else {
        GenSame(rs, k, kind);
      }
    }
  }

  lemma MaxMore(rs: seq<Record>, f: Record -> nat, m: nat)
    requires rs != [] && IsMax(rs[..|rs| - 1], f, m)
    ensures IsMax(rs, f, if f(rs[|rs| - 1]) > m then f(rs[|rs| - 1]) else m)
  {
    var init, r := rs[..|rs| - 1], rs[|rs| - 1];
    assert forall i :: 0 <= i < |init| ==> init[i] == rs[i];
    if f(r) <= m && m > 0 {
      var i :| 0 <= i < |init| && f(init[i]) == m;
      assert f(rs[i]) == m;
    }
    assert f(rs[|rs| - 1]) == f(r);
  }

  /** Manifest pointers: the largest sequence announced for the key. */
  lemma {:induction false} MansAre(rs: seq<Record>, k: ManKey)
    ensures IsMax(rs, r => ManSeqFor(r, k), ManOf(After(rs), k))
    ensures k in After(rs).mans ==> ManOf(After(rs), k) > 0
  {
    hide ApplyAll, Step, Assigned, IsMax;
    if rs == [] {
      NothingKnown();
      NoMax(r => ManSeqFor(r, k));
    } else {
      AfterMore(rs);
      MansAre(rs[..|rs| - 1], k);
      MaxMore(rs, r => ManSeqFor(r, k), ManOf(After(rs[..|rs| - 1]), k));
    }
  }

  lemma NoMax(f: Record -> nat)
    ensures IsMax([], f, 0)
  {
  }

  lemma CkptStep(s: Snapshot, r: Record)
    ensures ApplyOne(s, r).ckptSeq == if CkptFor(r) > s.ckptSeq then CkptFor(r) else s.ckptSeq
  {
    hide Step, Assigned;
  }

  /** The announced checkpoint: the largest. */
  lemma {:induction false} CkptIs(rs: seq<Record>)
    ensures IsMax(rs, CkptFor, After(rs).ckptSeq)
  {
    hide After, ApplyOne, IsMax, CkptFor;
    if rs == [] {
      NothingKnown();
      NoMax(CkptFor);
    } else {
      AfterMore(rs);
      CkptIs(rs[..|rs| - 1]);
      CkptStep(After(rs[..|rs| - 1]), rs[|rs| - 1]);
      MaxMore(rs, CkptFor, After(rs[..|rs| - 1]).ckptSeq);
    }
  }

  lemma TierStep(s: Snapshot, r: Record)
    ensures var s' := ApplyOne(s, r);
            if VersionFor(r) > s.tierVersion then r.TierMap? && s'.tierVersion == r.version && s'.tiers == Assigned(map[], r.assign)
            else s'.tierVersion == s.tierVersion && s'.tiers == s.tiers
  {
    hide Step, Assigned;
  }

  lemma TiersSame(rs: seq<Record>, version: nat, tiers: map<u16, byte>)
    requires rs != [] && IsTiers(rs[..|rs| - 1], version, tiers)
    ensures IsTiers(rs, version, tiers)
  {
    hide GivesTiers;
    var init := rs[..|rs| - 1];
    if version > 0 {
      var i: nat :| FirstOfVersion(init, i, version) && GivesTiers(init[i].assign, tiers);
      assert forall j :: 0 <= j < |init| ==> init[j] == rs[j];
      assert FirstOfVersion(rs, i, version);
    }
  }

  /** Tiers: the highest version, with the assignments of the first map that carries it. */
  lemma {:induction false} TiersAre(rs: seq<Record>)
    ensures IsMax(rs, VersionFor, After(rs).tierVersion)
    ensures IsTiers(rs, After(rs).tierVersion, After(rs).tiers)
  {
    hide After, ApplyOne, IsMax, Assigned, FirstOfVersion, GivesTiers;
    if rs == [] {
      NothingKnown();
      NoMax(VersionFor);
    } else {
      var init, r := rs[..|rs| - 1], rs[|rs| - 1];
      AfterMore(rs);
      TiersAre(init);
      TierStep(After(init), r);
      MaxMore(rs, VersionFor, After(init).tierVersion);
      if VersionFor(r) > After(init).tierVersion {
        NewVersion(rs);
        AssignedGives(r.assign);
      } else {
        hide IsTiers;
        TiersSame(rs, After(init).tierVersion, After(init).tiers);
      }
    }
  }

  lemma NewVersion(rs: seq<Record>)
    requires rs != [] && IsMax(rs[..|rs| - 1], VersionFor, After(rs[..|rs| - 1]).tierVersion)
    requires VersionFor(rs[|rs| - 1]) > After(rs[..|rs| - 1]).tierVersion
    ensures FirstOfVersion(rs, |rs| - 1, VersionFor(rs[|rs| - 1]))
  {
    var init := rs[..|rs| - 1];
    assert forall i :: 0 <= i < |init| ==> init[i] == rs[i];
  }

  /**
   * The state law: after any records, members are the last announced, leases what the lease records grant, manifest
   * pointers and the checkpoint the largest announced, generations those published and not since retired, and tiers
   * those that the first map of the highest version names last for each shard.
   */
  lemma StateLaw(rs: seq<Record>)
    ensures forall n: u64, m :: n in After(rs).members && After(rs).members[n] == m <==> IsMember(rs, n, m)
    ensures forall k, l :: k in After(rs).leases && After(rs).leases[k] == l <==> IsLease(rs, k, l)
    ensures forall k :: IsMax(rs, r => ManSeqFor(r, k), ManOf(After(rs), k)) && (k in After(rs).mans <==> ManOf(After(rs), k) > 0)
    ensures forall k, kind: byte :: k in After(rs).gens && After(rs).gens[k] == kind <==> IsGen(rs, k, kind)
    ensures IsMax(rs, CkptFor, After(rs).ckptSeq)
    ensures IsMax(rs, VersionFor, After(rs).tierVersion) && IsTiers(rs, After(rs).tierVersion, After(rs).tiers)
  {
    hide ApplyAll, Assigned, IsMax, IsMember, IsGen, IsTiers, IsLease, Fold;
    forall n: u64, m ensures n in After(rs).members && After(rs).members[n] == m <==> IsMember(rs, n, m) {
      MembersAre(rs, n, m);
    }
    LeasesOfState(NOTHING, rs);
    forall k, l ensures k in After(rs).leases && After(rs).leases[k] == l <==> IsLease(rs, k, l) {
      FoldLaw(rs, k, l);
    }
    forall k
      ensures IsMax(rs, r => ManSeqFor(r, k), ManOf(After(rs), k)) && (k in After(rs).mans <==> ManOf(After(rs), k) > 0)
    {
      MansAre(rs, k);
    }
    forall k, kind: byte ensures k in After(rs).gens && After(rs).gens[k] == kind <==> IsGen(rs, k, kind) {
      GensAre(rs, k, kind);
    }
    CkptIs(rs);
    TiersAre(rs);
  }
}
