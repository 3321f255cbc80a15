/** The lease fold of chain/leases.go and the epoch fence that rests on it. */
module Leases {
  import opened Bytes
  import opened Records

  datatype LeaseKey = LeaseKey(domain: byte, unit: u32)

  datatype Lease = Lease(domain: byte, unit: u32, node: u64, epoch: u32, deadlineMS: u64, released: bool)

  type Table = map<LeaseKey, Lease>

  const DOMAIN_CRAWL_PART: byte := 1
  const TTL_CRAWL_MS: u64 := 60_000
  const TTL_BUILD_MS: u64 := 900_000

  function DefaultTtlMs(domain: byte): (ttl: u64)
    ensures ttl in {60_000, 900_000} && (ttl == 60_000 <==> domain == 1)
  {
    if domain == DOMAIN_CRAWL_PART then TTL_CRAWL_MS else TTL_BUILD_MS
  }

  /** A 64-bit sum wraps. */
  function AddU64(a: u64, b: u64): u64 {
    (a + b) % 0x1_0000_0000_0000_0000
  }

  predicate Expired(l: Lease, nowMS: u64) {
    l.released || nowMS > l.deadlineMS
  }

  predicate MustSuspend(l: Lease, nowMS: u64) {
    AddU64(nowMS, 5_000) >= l.deadlineMS
  }

  predicate HoldsEpoch(t: Table, k: LeaseKey, node: u64, epoch: u32) {
    k in t && !t[k].released && t[k].node == node && t[k].epoch == epoch
  }

  /** The epoch of a claim on k, if there may be one; the successor of a 32-bit epoch wraps. */
  function Claimable(t: Table, k: LeaseKey, nowMS: u64): Option<u32> {
    if k !in t then Some(1)
    else if Expired(t[k], nowMS) then Some((t[k].epoch + 1) % 0x1_0000_0000)
    else None
  }

  // ----- the fold -----

  function KeyOf(r: Record): LeaseKey
    requires r.LeaseGrant? || r.LeaseRelease?
  {
    LeaseKey(r.domain, r.unit)
  }

  function Step(t: Table, r: Record): Table {
    if r.LeaseGrant? then
      var k := KeyOf(r);
      if k !in t || r.epoch > t[k].epoch then
        t[k := Lease(r.domain, r.unit, r.node, r.epoch, r.deadlineMS, false)]
      else if r.epoch == t[k].epoch && r.node == t[k].node && !t[k].released && r.deadlineMS > t[k].deadlineMS then
        t[k := t[k].(deadlineMS := r.deadlineMS)]
      else t
    else if r.LeaseRelease? && KeyOf(r) in t && r.epoch == t[KeyOf(r)].epoch && !t[KeyOf(r)].released then
      t[KeyOf(r) := t[KeyOf(r)].(released := true)]
    else t
  }

  function Fold(t: Table, rs: seq<Record>): Table {
    if rs == [] then t else Step(Fold(t, rs[..|rs| - 1]), rs[|rs| - 1])
  }

  lemma {:induction false} FoldConcat(t: Table, a: seq<Record>, b: seq<Record>)
    ensures Fold(t, a + b) == Fold(Fold(t, a), b)
  {
    if b == [] {
      assert a + b == a;
    } else {
      assert (a + b)[..|a + b| - 1] == a + b[..|b| - 1];
      FoldConcat(t, a, b[..|b| - 1]);
    }
  }

  /** The table each node keeps. */
  class LeaseTable {
    var m: Table

    constructor ()
      ensures m == map[]
    {
      m := map[];
    }

    constructor From(t: Table)
      ensures m == t
    {
      m := t;
    }

    method Apply(b: Batch)
      modifies this
      ensures m == Fold(old(m), b.records)
    {
      var i := 0;
      while i < |b.records|
        invariant 0 <= i <= |b.records|
        invariant m == Fold(old(m), b.records[..i])
      {
        ApplyRecord(b.records[i]);
        i := i + 1;
        assert b.records[..i][..i - 1] == b.records[..i - 1];
      }
      assert b.records[..i] == b.records;
    }

    method ApplyRecord(r: Record)
      modifies this
      ensures m == Step(old(m), r)
    {
      match r
      case LeaseGrant(epoch, domain, unit, node, deadlineMS) =>
        var k := LeaseKey(domain, unit);
        if k !in m || epoch > m[k].epoch {
          m := m[k := Lease(domain, unit, node, epoch, deadlineMS, false)];
        } else {
          var cur := m[k];
          if epoch == cur.epoch && node == cur.node && !cur.released {
            if deadlineMS > cur.deadlineMS {
              cur := cur.(deadlineMS := deadlineMS);
              m := m[k := cur];
            }
          }
        }
      case LeaseRelease(epoch, domain, unit) =>
        var k := LeaseKey(domain, unit);
        if k in m && epoch == m[k].epoch && !m[k].released {
          m := m[k := m[k].(released := true)];
        }
      case _ =>
    }
  }

  /**
   * A holder stops in the last 5 s before its deadline and ever after, except that a clock in the last 5 s of 64 bits wraps
   * and is taken for an early one.
   */
  lemma SuspendsIff(l: Lease, nowMS: u64)
    ensures MustSuspend(l, nowMS)
       <==> if nowMS + 5_000 <= 0xFFFF_FFFF_FFFF_FFFF then nowMS + 5_000 >= l.deadlineMS
            else nowMS + 5_000 - 0x1_0000_0000_0000_0000 >= l.deadlineMS
  {
  }

  // ----- what the fold means, independently of how it runs -----

  predicate IsGrant(r: Record, k: LeaseKey) {
    r.LeaseGrant? && KeyOf(r) == k
  }

  predicate IsRelease(r: Record, k: LeaseKey, epoch: u32) {
    r.LeaseRelease? && KeyOf(r) == k && r.epoch == epoch
  }

  /** Record f is the first grant of the highest epoch ever granted for k. */
  ghost predicate Takes(rs: seq<Record>, k: LeaseKey, f: nat) {
    && f < |rs| && IsGrant(rs[f], k)
    && (forall j :: 0 <= j < f && IsGrant(rs[j], k) ==> rs[j].epoch < rs[f].epoch)
    && (forall j :: f <= j < |rs| && IsGrant(rs[j], k) ==> rs[j].epoch <= rs[f].epoch)
  }

  ghost predicate ReleasedIn(rs: seq<Record>, k: LeaseKey, epoch: u32, lo: nat, hi: nat) {
    exists j :: lo < j < hi && j < |rs| && IsRelease(rs[j], k, epoch)
  }

  /** Record j is the take f itself, or a renewal of it by its holder before any release. */
  ghost predicate Extends(rs: seq<Record>, k: LeaseKey, f: nat, j: nat)
    requires f < |rs| && IsGrant(rs[f], k)
  {
    && f <= j < |rs| && IsGrant(rs[j], k) && rs[j].epoch == rs[f].epoch && rs[j].node == rs[f].node
    && !ReleasedIn(rs, k, rs[f].epoch, f, j)
  }

  /** The lease the records grant: by the first taker of the highest epoch, to the latest deadline it asked for. */
  ghost predicate Granted(rs: seq<Record>, k: LeaseKey, l: Lease, f: nat)
    requires Takes(rs, k, f)
  {
    && l.domain == k.domain && l.unit == k.unit && l.epoch == rs[f].epoch && l.node == rs[f].node
    && (l.released <==> ReleasedIn(rs, k, l.epoch, f, |rs|))
    && (forall j: nat :: Extends(rs, k, f, j) ==> rs[j].deadlineMS <= l.deadlineMS)
    && (exists j: nat :: Extends(rs, k, f, j) && rs[j].deadlineMS == l.deadlineMS)
  }

  ghost predicate IsLease(rs: seq<Record>, k: LeaseKey, l: Lease) {
    exists f :: Takes(rs, k, f) && Granted(rs, k, l, f)
  }

  lemma OneLease(rs: seq<Record>, k: LeaseKey, a: Lease, b: Lease)
    requires IsLease(rs, k, a) && IsLease(rs, k, b)
    ensures a == b
  {
    var f :| Takes(rs, k, f) && Granted(rs, k, a, f);
    var g :| Takes(rs, k, g) && Granted(rs, k, b, g);
    assert f == g;
  }

  lemma ExtendsSnoc(rs: seq<Record>, r: Record, k: LeaseKey, f: nat, j: nat)
    requires f < |rs| && IsGrant(rs[f], k) && j < |rs|
    ensures Extends(rs + [r], k, f, j) <==> Extends(rs, k, f, j)
  {
    var ss := rs + [r];
    assert forall i :: 0 <= i < |rs| ==> ss[i] == rs[i];
    assert ReleasedIn(ss, k, rs[f].epoch, f, j) <==> ReleasedIn(rs, k, rs[f].epoch, f, j);
  }

  lemma ReleasedSnoc(rs: seq<Record>, r: Record, k: LeaseKey, epoch: u32, f: nat)
    requires f < |rs|
    ensures ReleasedIn(rs + [r], k, epoch, f, |rs| + 1) <==> ReleasedIn(rs, k, epoch, f, |rs|) || IsRelease(r, k, epoch)
    ensures ReleasedIn(rs + [r], k, epoch, f, |rs|) <==> ReleasedIn(rs, k, epoch, f, |rs|)
  {
    var ss := rs + [r];
    assert forall i :: 0 <= i < |rs| ==> ss[i] == rs[i];
    assert ss[|rs|] == r;
  }

  /** A later record that takes nothing over leaves the take in place. */
  lemma KeepsTake(rs: seq<Record>, r: Record, k: LeaseKey, l: Lease, f: nat)
    requires Takes(rs, k, f) && Granted(rs, k, l, f)
    requires IsGrant(r, k) ==> r.epoch <= l.epoch
    ensures Takes(rs + [r], k, f)
    ensures Granted(rs + [r], k, Step(map[k := l], r)[k], f)
  {
    hide Extends, ReleasedIn;
    var ss := rs + [r];
    assert forall i :: 0 <= i < |rs| ==> ss[i] == rs[i];
    ReleasedSnoc(rs, r, k, l.epoch, f);
    forall j | 0 <= j < |rs| ensures Extends(ss, k, f, j) <==> Extends(rs, k, f, j) {
      ExtendsSnoc(rs, r, k, f, j);
    }
    ExtendsLast(rs, r, k, f);
    ExtendsBelow(ss, k, f);
    ExtendsBelow(rs, k, f);
    var l' := Step(map[k := l], r)[k];
    var j: nat :| Extends(rs, k, f, j) && j < |rs| && IsGrant(rs[j], k) && rs[j].deadlineMS == l.deadlineMS;
    assert Extends(ss, k, f, j) && ss[j].deadlineMS == l.deadlineMS;
    assert l'.deadlineMS != l.deadlineMS ==> Extends(ss, k, f, |rs|) && ss[|rs|].deadlineMS == l'.deadlineMS;
  }

  lemma ExtendsLast(rs: seq<Record>, r: Record, k: LeaseKey, f: nat)
    requires f < |rs| && IsGrant(rs[f], k)
    ensures Extends(rs + [r], k, f, |rs|)
       <==> IsGrant(r, k) && r.epoch == rs[f].epoch && r.node == rs[f].node && !ReleasedIn(rs, k, rs[f].epoch, f, |rs|)
  {
    ReleasedSnoc(rs, r, k, rs[f].epoch, f);
  }

  lemma ExtendsBelow(rs: seq<Record>, k: LeaseKey, f: nat)
    requires f < |rs| && IsGrant(rs[f], k)
    ensures forall j: nat :: Extends(rs, k, f, j) ==> j < |rs| && IsGrant(rs[j], k)
  {
  }

  /** A grant of a new highest epoch is the take from then on. */
  lemma NewTake(rs: seq<Record>, r: Record, k: LeaseKey)
    requires IsGrant(r, k) && forall j :: 0 <= j < |rs| && IsGrant(rs[j], k) ==> rs[j].epoch < r.epoch
    ensures IsLease(rs + [r], k, Lease(k.domain, k.unit, r.node, r.epoch, r.deadlineMS, false))
  {
    var ss := rs + [r];
    assert Takes(ss, k, |rs|);
    assert Extends(ss, k, |rs|, |rs|);
    assert Granted(ss, k, Lease(k.domain, k.unit, r.node, r.epoch, r.deadlineMS, false), |rs|);
  }

  /** Whatever was appended, by whomever: the fold holds exactly the lease the records grant. */
  lemma {:induction false} FoldIsLease(rs: seq<Record>, k: LeaseKey)
    ensures k in Fold(map[], rs) <==> exists j :: 0 <= j < |rs| && IsGrant(rs[j], k)
    ensures k in Fold(map[], rs) ==> IsLease(rs, k, Fold(map[], rs)[k])
  {
    hide Granted;
    if rs != [] {
      var before, r := rs[..|rs| - 1], rs[|rs| - 1];
      assert rs == before + [r];
      FoldIsLease(before, k);
      var t := Fold(map[], before);
      if k in t {
        var f :| Takes(before, k, f) && Granted(before, k, t[k], f);
        LeaseEpoch(before, k, t[k], f);
        if IsGrant(r, k) && r.epoch > t[k].epoch {
          NewTake(before, r, k);
        } else {
          KeepsTake(before, r, k, t[k], f);
          StepLocal(t, r, k);
        }
      } else {
        if IsGrant(r, k) {
          NewTake(before, r, k);
          assert IsGrant(rs[|rs| - 1], k);
        }
        assert k in Step(t, r) <==> IsGrant(r, k);
      }
    }
  }

  lemma LeaseEpoch(rs: seq<Record>, k: LeaseKey, l: Lease, f: nat)
    requires Takes(rs, k, f) && Granted(rs, k, l, f)
    ensures l.epoch == rs[f].epoch && forall j :: 0 <= j < |rs| && IsGrant(rs[j], k) ==> rs[j].epoch <= l.epoch
  {
  }

  lemma StepLocal(t: Table, r: Record, k: LeaseKey)
    requires k in t
    ensures k in Step(t, r) && Step(t, r)[k] == Step(map[k := t[k]], r)[k]
  {
  }

  /** The same, as an equation: l is what the table holds exactly when it is what the records grant. */
  lemma FoldLaw(rs: seq<Record>, k: LeaseKey, l: Lease)
    ensures k in Fold(map[], rs) && Fold(map[], rs)[k] == l <==> IsLease(rs, k, l)
  {
    FoldIsLease(rs, k);
    if IsLease(rs, k, l) {
      var f :| Takes(rs, k, f) && Granted(rs, k, l, f);
      OneLease(rs, k, l, Fold(map[], rs)[k]);
    }
  }

  lemma OneTake(rs: seq<Record>, k: LeaseKey, f: nat, g: nat)
    requires Takes(rs, k, f) && Takes(rs, k, g)
    ensures f == g
  {
  }

  lemma TakesIs(rs: seq<Record>, k: LeaseKey, f: nat)
    requires Takes(rs, k, f)
    ensures f < |rs| && IsGrant(rs[f], k)
  {
  }

  /** A unit that was ever granted has a take, and the table holds what it grants. */
  lemma TakeIsHeld(rs: seq<Record>, k: LeaseKey, f: nat)
    requires Takes(rs, k, f)
    ensures k in Fold(map[], rs) && Granted(rs, k, Fold(map[], rs)[k], f) && f < |rs| && IsGrant(rs[f], k)
  {
    hide Granted, Takes;
    TakesIs(rs, k, f);
    FoldIsLease(rs, k);
    var g: nat :| Takes(rs, k, g) && Granted(rs, k, Fold(map[], rs)[k], g);
    OneTake(rs, k, f, g);
  }

  /**
   * The fence in terms of the records alone: a node holds a unit at an epoch exactly when it was the first to be granted
   * that epoch, no later epoch has been granted, and nothing behind its grant releases it.
   */
  lemma HoldsIff(rs: seq<Record>, k: LeaseKey, node: u64, epoch: u32)
    ensures HoldsEpoch(Fold(map[], rs), k, node, epoch)
       <==> exists f: nat :: Takes(rs, k, f) && rs[f].node == node && rs[f].epoch == epoch && !ReleasedIn(rs, k, epoch, f, |rs|)
  {
    hide ReleasedIn, Extends, Fold;
    FoldIsLease(rs, k);
    if HoldsEpoch(Fold(map[], rs), k, node, epoch) {
      var f: nat :| Takes(rs, k, f) && Granted(rs, k, Fold(map[], rs)[k], f);
      assert Takes(rs, k, f) && rs[f].node == node && rs[f].epoch == epoch && !ReleasedIn(rs, k, epoch, f, |rs|);
    }
    if f: nat :| Takes(rs, k, f) && rs[f].node == node && rs[f].epoch == epoch && !ReleasedIn(rs, k, epoch, f, |rs|) {
      TakeIsHeld(rs, k, f);
    }
  }

  lemma NeverGranted(rs: seq<Record>, k: LeaseKey, nowMS: u64)
    requires forall j :: 0 <= j < |rs| ==> !IsGrant(rs[j], k)
    ensures Claimable(Fold(map[], rs), k, nowMS) == Some(1)
  {
    hide Fold;
    FoldIsLease(rs, k);
  }

  /**
   * When a unit that was granted may be claimed again, in terms of the records alone: at the successor of the epoch it was
   * last granted at, as soon as that grant is released, or once every deadline its holder asked for before a release is
   * past; and not before.
   */
  lemma ClaimableIff(rs: seq<Record>, k: LeaseKey, nowMS: u64, f: nat)
    requires Takes(rs, k, f)
    ensures ReleasedIn(rs, k, rs[f].epoch, f, |rs|) || (forall j: nat :: Extends(rs, k, f, j) ==> nowMS > rs[j].deadlineMS)
            ==> Claimable(Fold(map[], rs), k, nowMS) == Some((rs[f].epoch + 1) % 0x1_0000_0000)
    ensures !ReleasedIn(rs, k, rs[f].epoch, f, |rs|) && (exists j: nat :: Extends(rs, k, f, j) && nowMS <= rs[j].deadlineMS)
            ==> Claimable(Fold(map[], rs), k, nowMS) == None
  {
    hide Takes, ReleasedIn, Fold;
    TakeIsHeld(rs, k, f);
  }

  // ----- what no sequence of appends can do -----

  /** Later state of the same unit: a higher epoch, or the same holder with no less time and no release undone. */
  ghost predicate Forward(l: Lease, l': Lease) {
    || l'.epoch > l.epoch
    || (l'.epoch == l.epoch && l'.node == l.node && l'.deadlineMS >= l.deadlineMS && (l.released ==> l' == l))
  }

  lemma {:induction false} NeverBack(t: Table, rs: seq<Record>, k: LeaseKey)
    requires k in t
    ensures k in Fold(t, rs) && Forward(t[k], Fold(t, rs)[k])
  {
    if rs != [] {
      NeverBack(t, rs[..|rs| - 1], k);
    }
  }

  /** Over every sequence of records: an epoch never decreases, has one holder, and keeps its deadline and release. */
  lemma LeaseOnlyMovesForward(rs: seq<Record>, m: nat, n: nat, k: LeaseKey)
    requires m <= n <= |rs| && k in Fold(map[], rs[..m])
    ensures k in Fold(map[], rs[..n]) && Forward(Fold(map[], rs[..m])[k], Fold(map[], rs[..n])[k])
  {
    assert rs[..n] == rs[..m] + rs[m..n];
    FoldConcat(map[], rs[..m], rs[m..n]);
    NeverBack(Fold(map[], rs[..m]), rs[m..n], k);
  }

  /** A segment commit passes the fence when its writer holds the partition at its epoch as the record folds. */
  ghost predicate Accepted(rs: seq<Record>, writers: seq<u64>, i: nat)
    requires |writers| == |rs| && i < |rs|
  {
    && rs[i].SegCommit?
    && HoldsEpoch(Fold(map[], rs[..i]), LeaseKey(DOMAIN_CRAWL_PART, rs[i].partition), writers[i], rs[i].epoch)
  }

  /** A commit passes exactly when its writer was the first at its epoch in domain 1, with no later epoch and no release. */
  lemma AcceptedIff(rs: seq<Record>, writers: seq<u64>, i: nat)
    requires |writers| == |rs| && i < |rs| && rs[i].SegCommit?
    ensures var before, k := rs[..i], LeaseKey(1, rs[i].partition);
            Accepted(rs, writers, i)
            <==> exists f: nat :: Takes(before, k, f) && before[f].node == writers[i] && before[f].epoch == rs[i].epoch
                             && !ReleasedIn(before, k, rs[i].epoch, f, i)
  {
    hide Takes, ReleasedIn, HoldsEpoch;
    HoldsIff(rs[..i], LeaseKey(1, rs[i].partition), writers[i], rs[i].epoch);
  }

  /** Once a release of its epoch has folded behind a grant of it, no commit passes, whoever writes it. */
  lemma NoneAfterRelease(rs: seq<Record>, writers: seq<u64>, i: nat)
    requires |writers| == |rs| && i < |rs| && Accepted(rs, writers, i)
    ensures forall g, m :: 0 <= g < m < i && IsGrant(rs[g], LeaseKey(1, rs[i].partition)) && rs[g].epoch == rs[i].epoch ==>
              !IsRelease(rs[m], LeaseKey(1, rs[i].partition), rs[i].epoch)
  {
    AcceptedIff(rs, writers, i);
    hide Accepted;
    var before, k := rs[..i], LeaseKey(1, rs[i].partition);
    var f: nat :| Takes(before, k, f) && before[f].epoch == rs[i].epoch && !ReleasedIn(before, k, rs[i].epoch, f, i);
    forall g, m | 0 <= g < m < i && IsGrant(rs[g], k) && rs[g].epoch == rs[i].epoch ensures !IsRelease(rs[m], k, rs[i].epoch) {
      assert before[g] == rs[g] && before[m] == rs[m];
    }
  }

  /**
   * The fence: of two accepted commits to one partition the later never has the lower epoch, and two of one epoch have
   * one writer, which held the partition the whole time between them; and none is accepted behind a release of its epoch.
   */
  lemma Fenced(rs: seq<Record>, writers: seq<u64>, i: nat, j: nat)
    requires |writers| == |rs| && i <= j < |rs|
    requires Accepted(rs, writers, i) && Accepted(rs, writers, j) && rs[i].partition == rs[j].partition
    ensures rs[i].epoch <= rs[j].epoch
    ensures rs[i].epoch == rs[j].epoch ==> writers[i] == writers[j]
    ensures rs[i].epoch == rs[j].epoch ==> forall m :: i <= m <= j ==>
              HoldsEpoch(Fold(map[], rs[..m]), LeaseKey(DOMAIN_CRAWL_PART, rs[i].partition), writers[i], rs[i].epoch)
    ensures forall g, m :: 0 <= g < m < j && IsGrant(rs[g], LeaseKey(1, rs[j].partition)) && rs[g].epoch == rs[j].epoch ==>
              !IsRelease(rs[m], LeaseKey(1, rs[j].partition), rs[j].epoch)
  {
    var k := LeaseKey(DOMAIN_CRAWL_PART, rs[i].partition);
    NoneAfterRelease(rs, writers, j);
    forall m | i <= m <= j
      ensures k in Fold(map[], rs[..m])
      ensures Forward(Fold(map[], rs[..i])[k], Fold(map[], rs[..m])[k])
      ensures Forward(Fold(map[], rs[..m])[k], Fold(map[], rs[..j])[k])
    {
      LeaseOnlyMovesForward(rs, i, m, k);
      LeaseOnlyMovesForward(rs, m, j, k);
    }
  }

  /** A claim, appended to the very table it was made on, is granted exactly when the unit's epochs are not used up. */
  lemma ClaimIsGranted(t: Table, k: LeaseKey, nowMS: u64, node: u64, deadlineMS: u64)
    requires Claimable(t, k, nowMS).Some?
    ensures var e := Claimable(t, k, nowMS).value;
            HoldsEpoch(Step(t, LeaseGrant(e, k.domain, k.unit, node, deadlineMS)), k, node, e)
            <==> (k in t ==> t[k].epoch < 0xFFFF_FFFF)
  {
  }
}
