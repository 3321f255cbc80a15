/**
 * The lease discipline of chain/leases.go over whole runs: any number of nodes, one clock, one chain of lease records,
 * each node folding its own prefix of it. A record may land late, several times or never, but a grant lands within the
 * renewal slack of the check that allowed it; takers check at the tail; a holder that gives a unit back stops writing.
 */
module LeaseSafety {
  import opened Bytes
  import opened Records
  import opened Leases

  datatype Kind = Taking | Renewing | Releasing

  /** A record its node has sent off, and when the check that allowed it was made. */
  datatype Pending = Pending(kind: Kind, record: Record, node: u64, checkedAt: nat)

  /** What each node has seen is a prefix of the chain; what it has given back, it no longer writes. */
  datatype World = World(now: nat, chain: seq<Record>, seen: map<u64, nat>, pending: set<Pending>, stopped: set<(u64, u32)>)

  datatype Action =
    | Tick(to: nat)
    | Poll(node: u64, to: nat)
    | Take(node: u64, deadlineMS: u64)
    | Renew(node: u64, deadlineMS: u64)
    | GiveBack(node: u64)
    | Land(p: Pending)

  /** The clock never gets so far that adding the slack to it would wrap. */
  const CLOCK_END := 0xFFFF_FFFF_FFFF_0000

  function ViewAt(w: World, m: nat): Table
    requires m <= |w.chain|
  {
    Fold(map[], w.chain[..m])
  }

  function Current(w: World): Table {
    Fold(map[], w.chain)
  }

  /** A node that folds the first m records takes itself for the holder, in time, and has not given the unit back. */
  predicate Trusts(w: World, k: LeaseKey, m: nat, node: u64)
    requires m <= |w.chain| && w.now < CLOCK_END
  {
    var t := ViewAt(w, m);
    k in t && HoldsEpoch(t, k, node, t[k].epoch) && !MustSuspend(t[k], w.now) && (node, t[k].epoch) !in w.stopped
  }

  predicate MayWrite(w: World, k: LeaseKey, node: u64) {
    w.now < CLOCK_END && node in w.seen && w.seen[node] <= |w.chain| && Trusts(w, k, w.seen[node], node)
  }

  predicate Enabled(w: World, k: LeaseKey, a: Action, window: nat) {
    match a
    case Tick(to) => w.now <= to < CLOCK_END
    case Poll(node, to) => to <= |w.chain| && (node in w.seen ==> w.seen[node] <= to)
    case Take(node, deadlineMS) =>
      && node in w.seen && w.seen[node] == |w.chain| && w.now < CLOCK_END
      && Claimable(Current(w), k, w.now).Some? && deadlineMS >= w.now + DefaultTtlMs(k.domain)
    case Renew(node, _) => MayWrite(w, k, node)
    case GiveBack(node) =>
      && node in w.seen && w.seen[node] <= |w.chain|
      && var t := ViewAt(w, w.seen[node]); k in t && HoldsEpoch(t, k, node, t[k].epoch)
    case Land(p) => p in w.pending && (p.kind.Releasing? || w.now <= p.checkedAt + window)
  }

  function Act(w: World, k: LeaseKey, a: Action, window: nat): World
    requires Enabled(w, k, a, window)
  {
    match a
    case Tick(to) => w.(now := to)
    case Poll(node, to) => w.(seen := w.seen[node := to])
    case Take(node, deadlineMS) =>
      var r := LeaseGrant(Claimable(Current(w), k, w.now).value, k.domain, k.unit, node, deadlineMS);
      w.(pending := w.pending + {Pending(Taking, r, node, w.now)})
    case Renew(node, deadlineMS) =>
      var r := LeaseGrant(ViewAt(w, w.seen[node])[k].epoch, k.domain, k.unit, node, deadlineMS);
      w.(pending := w.pending + {Pending(Renewing, r, node, w.now)})
    case GiveBack(node) =>
      var epoch := ViewAt(w, w.seen[node])[k].epoch;
      w.(pending := w.pending + {Pending(Releasing, LeaseRelease(epoch, k.domain, k.unit), node, w.now)},
         stopped := w.stopped + {(node, epoch)})
    case Land(p) => w.(chain := w.chain + [p.record])
  }

  // ----- the invariant -----

  /** A take on its way is for the next epoch of a lease that was over when it was checked, or is no longer news. */
  ghost predicate TakeSafe(t: Table, k: LeaseKey, p: Pending) {
    && IsGrant(p.record, k) && p.record.node == p.node && p.record.deadlineMS > p.checkedAt + 20_000
    && (if k !in t then p.record.epoch == 1
        else || t[k].epoch > p.record.epoch
             || (t[k].epoch == p.record.epoch && (t[k].node == p.node ==> p.checkedAt + 5_000 < t[k].deadlineMS))
             || (t[k].epoch + 1 == p.record.epoch && (t[k].released || t[k].deadlineMS < p.checkedAt)))
  }

  /** A renewal on its way was checked well inside its deadline. */
  ghost predicate RenewSafe(t: Table, k: LeaseKey, p: Pending) {
    && IsGrant(p.record, k) && p.record.node == p.node && k in t
    && (|| t[k].epoch > p.record.epoch
        || (t[k].epoch == p.record.epoch && t[k].node == p.node && p.checkedAt + 5_000 < t[k].deadlineMS))
  }

  /** A release on its way comes from the holder, who has stopped. */
  ghost predicate ReleaseSafe(t: Table, stopped: set<(u64, u32)>, k: LeaseKey, p: Pending) {
    && p.record.LeaseRelease? && KeyOf(p.record) == k && k in t && (p.node, p.record.epoch) in stopped
    && (t[k].epoch > p.record.epoch || (t[k].epoch == p.record.epoch && t[k].node == p.node))
  }

  ghost predicate PendingSafe(w: World, k: LeaseKey, p: Pending) {
    && p.checkedAt <= w.now
    && match p.kind
       case Taking => TakeSafe(Current(w), k, p)
       case Renewing => RenewSafe(Current(w), k, p)
       case Releasing => ReleaseSafe(Current(w), w.stopped, k, p)
  }

  /** Whoever trusts any prefix of the chain trusts the current grant. */
  ghost predicate TrustSafe(w: World, k: LeaseKey)
    requires w.now < CLOCK_END
  {
    forall m: nat, node :: m <= |w.chain| && Trusts(w, k, m, node) ==>
      k in Current(w) && Current(w)[k].epoch == ViewAt(w, m)[k].epoch
  }

  ghost predicate Inv(w: World, k: LeaseKey) {
    && w.now < CLOCK_END
    && (forall n :: n in w.seen ==> w.seen[n] <= |w.chain|)
    && (forall p :: p in w.pending ==> PendingSafe(w, k, p))
    && (k in Current(w) && Current(w)[k].released ==> (Current(w)[k].node, Current(w)[k].epoch) in w.stopped)
    && TrustSafe(w, k)
  }

  const START := World(0, [], map[], {}, {})

  lemma InvStart(k: LeaseKey)
    ensures Inv(START, k)
  {
  }

  lemma ViewIsPast(w: World, k: LeaseKey, m: nat)
    requires m <= |w.chain| && k in ViewAt(w, m)
    ensures k in Current(w) && Forward(ViewAt(w, m)[k], Current(w)[k])
  {
    LeaseOnlyMovesForward(w.chain, m, |w.chain|, k);
    assert w.chain[..|w.chain|] == w.chain;
  }

  lemma ActTick(w: World, k: LeaseKey, to: nat, window: nat)
    requires Inv(w, k) && window <= 5_001 && Enabled(w, k, Tick(to), window)
    ensures Inv(Act(w, k, Tick(to), window), k)
  {
    var w' := Act(w, k, Tick(to), window);
    forall p | p in w'.pending ensures PendingSafe(w', k, p) {
      assert PendingSafe(w, k, p);
    }
    forall m: nat, node | m <= |w'.chain| && Trusts(w', k, m, node)
      ensures k in Current(w') && Current(w')[k].epoch == ViewAt(w', m)[k].epoch
    {
      assert ViewAt(w', m) == ViewAt(w, m);
      assert Trusts(w, k, m, node);
    }
  }

  /** Sending a record off, or giving the unit back, changes nobody's view. */
  lemma Sends(w: World, w': World, k: LeaseKey, p: Pending)
    requires Inv(w, k) && w'.now == w.now && w'.chain == w.chain && w'.seen == w.seen && w.stopped <= w'.stopped
    requires w'.pending == w.pending + {p} && PendingSafe(w', k, p)
    ensures Inv(w', k)
  {
    forall q | q in w'.pending ensures PendingSafe(w', k, q) {
      assert q != p ==> PendingSafe(w, k, q);
    }
    forall m: nat, node | m <= |w'.chain| && Trusts(w', k, m, node)
      ensures k in Current(w') && Current(w')[k].epoch == ViewAt(w', m)[k].epoch
    {
      assert Trusts(w, k, m, node);
    }
  }

  lemma ActSend(w: World, k: LeaseKey, a: Action, window: nat)
    requires Inv(w, k) && window <= 5_001 && Enabled(w, k, a, window) && (a.Take? || a.Renew? || a.GiveBack?)
    ensures Inv(Act(w, k, a, window), k)
  {
    hide Inv, Fold;
    var w' := Act(w, k, a, window);
    assert w.seen[a.node] <= |w.chain|;
    if !a.Take? {
      ViewIsPast(w, k, w.seen[a.node]);
    }
    var p :| p in w'.pending && w'.pending == w.pending + {p} && PendingSafe(w', k, p);
    Sends(w, w', k, p);
  }

  lemma ActPoll(w: World, k: LeaseKey, node: u64, to: nat, window: nat)
    requires Inv(w, k) && window <= 5_001 && Enabled(w, k, Poll(node, to), window)
    ensures Inv(Act(w, k, Poll(node, to), window), k)
  {
    var w' := Act(w, k, Poll(node, to), window);
    forall p | p in w'.pending ensures PendingSafe(w', k, p) {
      assert PendingSafe(w, k, p);
    }
    forall m: nat, n | m <= |w'.chain| && Trusts(w', k, m, n)
      ensures k in Current(w') && Current(w')[k].epoch == ViewAt(w', m)[k].epoch
    {
      assert Trusts(w, k, m, n);
    }
  }

  // ----- a record lands -----

  lemma Grows(w: World, r: Record)
    ensures Fold(map[], w.chain + [r]) == Step(Current(w), r)
    ensures forall m: nat :: m <= |w.chain| ==> (w.chain + [r])[..m] == w.chain[..m]
  {
    assert (w.chain + [r])[..|w.chain|] == w.chain;
  }

  /** A landing grant never extends a lease that somebody has already seen to be over. */
  lemma LandKeepsTake(t: Table, k: LeaseKey, now: nat, p: Pending, q: Pending)
    requires q.kind.Taking? && TakeSafe(t, k, q) && q.checkedAt <= now
    requires p.kind.Taking? ==> TakeSafe(t, k, p) && now <= p.checkedAt + 5_001
    requires p.kind.Renewing? ==> RenewSafe(t, k, p) && now <= p.checkedAt + 5_001
    requires p.kind.Releasing? ==> p.record.LeaseRelease?
    ensures TakeSafe(Step(t, p.record), k, q)
  {
  }

  lemma LandKeepsOthers(t: Table, stopped: set<(u64, u32)>, k: LeaseKey, r: Record, q: Pending)
    ensures q.kind.Renewing? && RenewSafe(t, k, q) ==> RenewSafe(Step(t, r), k, q)
    ensures q.kind.Releasing? && ReleaseSafe(t, stopped, k, q) ==> ReleaseSafe(Step(t, r), stopped, k, q)
  {
  }

  /** A grant that raises the epoch finds nobody still trusting the old one. */
  lemma LandKeepsTrust(w: World, k: LeaseKey, p: Pending, m: nat, node: u64, window: nat)
    requires Inv(w, k) && window <= 5_001 && Enabled(w, k, Land(p), window) && m <= |w.chain| && Trusts(w, k, m, node)
    ensures k in Step(Current(w), p.record) && Step(Current(w), p.record)[k].epoch == ViewAt(w, m)[k].epoch
  {
    hide Fold;
    assert PendingSafe(w, k, p);
    ViewIsPast(w, k, m);
  }

  lemma ActLand(w: World, k: LeaseKey, p: Pending, window: nat)
    requires Inv(w, k) && window <= 5_001 && Enabled(w, k, Land(p), window)
    ensures Inv(Act(w, k, Land(p), window), k)
  {
    hide Fold, Trusts;
    var w' := Act(w, k, Land(p), window);
    Grows(w, p.record);
    assert PendingSafe(w, k, p);
    forall q | q in w'.pending ensures PendingSafe(w', k, q) {
      assert PendingSafe(w, k, q);
      if q.kind.Taking? {
        LandKeepsTake(Current(w), k, w.now, p, q);
      }
      LandKeepsOthers(Current(w), w.stopped, k, p.record, q);
    }
    LandReleased(w, k, p, window);
    forall m: nat, node | m <= |w'.chain| && Trusts(w', k, m, node)
      ensures k in Current(w') && k in ViewAt(w', m) && Current(w')[k].epoch == ViewAt(w', m)[k].epoch
    {
      TrustsHas(w', k, m, node);
      if m <= |w.chain| {
        TrustsSame(w, w', k, m, node);
        LandKeepsTrust(w, k, p, m, node, window);
      } else {
        assert w'.chain[..m] == w'.chain;
      }
    }
  }

  lemma TrustsSame(w: World, w': World, k: LeaseKey, m: nat, node: u64)
    requires m <= |w.chain| && m <= |w'.chain| && w'.chain[..m] == w.chain[..m]
    requires w.now == w'.now < CLOCK_END && w'.stopped == w.stopped
    ensures Trusts(w', k, m, node) == Trusts(w, k, m, node) && ViewAt(w', m) == ViewAt(w, m)
  {
  }

  lemma TrustsHas(w: World, k: LeaseKey, m: nat, node: u64)
    requires m <= |w.chain| && w.now < CLOCK_END && Trusts(w, k, m, node)
    ensures k in ViewAt(w, m)
  {
  }

  lemma LandReleased(w: World, k: LeaseKey, p: Pending, window: nat)
    requires Inv(w, k) && window <= 5_001 && Enabled(w, k, Land(p), window)
    ensures var t := Step(Current(w), p.record); k in t && t[k].released ==> (t[k].node, t[k].epoch) in w.stopped
  {
    hide Fold, TrustSafe;
    assert PendingSafe(w, k, p);
  }

  lemma InvNext(w: World, k: LeaseKey, a: Action, window: nat)
    requires Inv(w, k) && window <= 5_001 && Enabled(w, k, a, window)
    ensures Inv(Act(w, k, a, window), k)
  {
    hide Inv, Enabled, Act;
    match a
    case Tick(to) => ActTick(w, k, to, window);
    case Poll(node, to) => ActPoll(w, k, node, to, window);
    case Land(p) => ActLand(w, k, p, window);
    case Take(_, _) => ActSend(w, k, a, window);
    case Renew(_, _) => ActSend(w, k, a, window);
    case GiveBack(_) => ActSend(w, k, a, window);
  }

  // ----- whole runs -----

  ghost predicate Run(ws: seq<World>, actions: seq<Action>, k: LeaseKey, window: nat) {
    && |ws| == |actions| + 1 && ws[0] == START
    && forall i :: 0 <= i < |actions| ==>
         Enabled(ws[i], k, actions[i], window) && ws[i + 1] == Act(ws[i], k, actions[i], window)
  }

  lemma {:induction false} RunSafe(ws: seq<World>, actions: seq<Action>, k: LeaseKey, window: nat, n: nat)
    requires Run(ws, actions, k, window) && window <= 5_001 && n < |ws|
    ensures Inv(ws[n], k)
  {
    hide Inv, Act, Enabled;
    if n == 0 {
      InvStart(k);
    } else {
      var i := n - 1;
      RunSafe(ws, actions, k, window, i);
      assert Enabled(ws[i], k, actions[i], window) && ws[n] == Act(ws[i], k, actions[i], window);
      InvNext(ws[i], k, actions[i], window);
    }
  }

  /**
   * Lease safety: at no point of any run does a node whose own view lets it write the unit coexist with a grant of a
   * higher epoch. It holds the unit on the whole chain, so its commits pass the fence, and no other node may write.
   */
  lemma OneWriter(ws: seq<World>, actions: seq<Action>, k: LeaseKey, window: nat, n: nat, a: u64, b: u64)
    requires Run(ws, actions, k, window) && window <= 5_001 && n < |ws|
    requires MayWrite(ws[n], k, a)
    ensures HoldsEpoch(Current(ws[n]), k, a, ViewAt(ws[n], ws[n].seen[a])[k].epoch)
    ensures MayWrite(ws[n], k, b) ==> a == b
  {
    hide Fold;
    RunSafe(ws, actions, k, window, n);
    var w := ws[n];
    ViewIsPast(w, k, w.seen[a]);
    if MayWrite(w, k, b) {
      ViewIsPast(w, k, w.seen[b]);
    }
  }

  // ----- how late a grant may land -----

  const UNIT := LeaseKey(DOMAIN_CRAWL_PART, 0)
  const GRANT := LeaseGrant(1, DOMAIN_CRAWL_PART, 0, 1, 60_000)
  const RENEWAL := LeaseGrant(1, DOMAIN_CRAWL_PART, 0, 1, 114_999)
  const TAKE := LeaseGrant(2, DOMAIN_CRAWL_PART, 0, 2, 120_001)

  const P1 := Pending(Taking, GRANT, 1, 0)
  const P2 := Pending(Renewing, RENEWAL, 1, 54_999)
  const P3 := Pending(Taking, TAKE, 2, 60_001)

  /** Node 1 renews at the last moment, node 2 takes the expired unit, and the renewal lands 5002 ms after its check. */
  const LATE_ACTIONS :=
    [Poll(1, 0), Take(1, 60_000), Land(P1), Poll(1, 1), Tick(54_999), Renew(1, 114_999), Tick(60_001), Poll(2, 1),
     Take(2, 120_001), Land(P2), Poll(1, 2), Land(P3), Poll(2, 3)]

  function LateWorld(i: nat): World {
    World(if i <= 4 then 0 else if i <= 6 then 54_999 else 60_001,
          if i <= 2 then [] else if i <= 9 then [GRANT] else if i <= 11 then [GRANT, RENEWAL] else [GRANT, RENEWAL, TAKE],
          if i == 0 then map[] else if i <= 3 then map[1 := 0] else if i <= 7 then map[1 := 1]
          else if i <= 10 then map[1 := 1, 2 := 1] else if i <= 12 then map[1 := 2, 2 := 1] else map[1 := 2, 2 := 3],
          if i <= 1 then {} else if i <= 5 then {P1} else if i <= 8 then {P1, P2} else {P1, P2, P3},
          {})
  }

  lemma LateFolds()
    ensures Fold(map[], []) == map[]
    ensures Fold(map[], [GRANT]) == map[UNIT := Lease(DOMAIN_CRAWL_PART, 0, 1, 1, 60_000, false)]
    ensures Fold(map[], [GRANT, RENEWAL]) == map[UNIT := Lease(DOMAIN_CRAWL_PART, 0, 1, 1, 114_999, false)]
    ensures Fold(map[], [GRANT, RENEWAL, TAKE]) == map[UNIT := Lease(DOMAIN_CRAWL_PART, 0, 2, 2, 120_001, false)]
  {
    FoldConcat(map[], [], [GRANT]);
    assert [] + [GRANT] == [GRANT];
    FoldConcat(map[], [GRANT], [RENEWAL]);
    assert [GRANT] + [RENEWAL] == [GRANT, RENEWAL];
    FoldConcat(map[], [GRANT, RENEWAL], [TAKE]);
    assert [GRANT, RENEWAL] + [TAKE] == [GRANT, RENEWAL, TAKE];
  }

  lemma LateViews(i: nat)
    requires i <= 13
    ensures Current(LateWorld(i)) == Fold(map[], LateWorld(i).chain)
    ensures |LateWorld(i).chain| >= 1 ==> ViewAt(LateWorld(i), 1) == Fold(map[], [GRANT])
    ensures |LateWorld(i).chain| >= 2 ==> ViewAt(LateWorld(i), 2) == Fold(map[], [GRANT, RENEWAL])
    ensures |LateWorld(i).chain| >= 3 ==> ViewAt(LateWorld(i), 3) == Fold(map[], [GRANT, RENEWAL, TAKE])
  {
    var c := LateWorld(i).chain;
    assert |c| >= 1 ==> c[..1] == [GRANT];
    assert |c| >= 2 ==> c[..2] == [GRANT, RENEWAL];
    assert |c| >= 3 ==> c[..3] == [GRANT, RENEWAL, TAKE];
  }

  lemma LateOpening(i: nat, window: nat)
    requires 0 <= i < 5 && window >= 5_002
    ensures Enabled(LateWorld(i), UNIT, LATE_ACTIONS[i], window)
    ensures Act(LateWorld(i), UNIT, LATE_ACTIONS[i], window) == LateWorld(i + 1)
  {
    hide Fold;
    LateViews(i);
    LateFolds();
    assert Enabled(LateWorld(i), UNIT, LATE_ACTIONS[i], window);
    var w' := Act(LateWorld(i), UNIT, LATE_ACTIONS[i], window);
    if i == 0 { assert w' == LateWorld(1); }
    if i == 1 { assert w' == LateWorld(2); }
    if i == 2 { assert w' == LateWorld(3); }
    if i == 3 { assert w' == LateWorld(4); }
    if i == 4 { assert w' == LateWorld(5); }
  }

  lemma LateMiddle(i: nat, window: nat)
    requires 5 <= i < 9 && window >= 5_002
    ensures Enabled(LateWorld(i), UNIT, LATE_ACTIONS[i], window)
    ensures Act(LateWorld(i), UNIT, LATE_ACTIONS[i], window) == LateWorld(i + 1)
  {
    hide Fold;
    LateViews(i);
    LateFolds();
    assert Enabled(LateWorld(i), UNIT, LATE_ACTIONS[i], window);
    var w' := Act(LateWorld(i), UNIT, LATE_ACTIONS[i], window);
    if i == 5 { assert w' == LateWorld(6); }
    if i == 6 { assert w' == LateWorld(7); }
    if i == 7 { assert w' == LateWorld(8); }
    if i == 8 { assert w' == LateWorld(9); }
  }

  lemma LateEnding(i: nat, window: nat)
    requires 9 <= i < 13 && window >= 5_002
    ensures Enabled(LateWorld(i), UNIT, LATE_ACTIONS[i], window)
    ensures Act(LateWorld(i), UNIT, LATE_ACTIONS[i], window) == LateWorld(i + 1)
  {
    hide Fold;
    LateViews(i);
    LateFolds();
    assert Enabled(LateWorld(i), UNIT, LATE_ACTIONS[i], window);
    var w' := Act(LateWorld(i), UNIT, LATE_ACTIONS[i], window);
    if i == 9 { assert w' == LateWorld(10); }
    if i == 10 { assert w' == LateWorld(11); }
    if i == 11 { assert w' == LateWorld(12); }
    if i == 12 { assert w' == LateWorld(13); }
  }

  lemma LateTwoWriters()
    ensures MayWrite(LateWorld(13), UNIT, 1) && MayWrite(LateWorld(13), UNIT, 2)
  {
    hide Fold;
    LateViews(13);
    LateFolds();
  }

  /** Nobody shares the unit, at any point of any run. */
  ghost predicate Exclusive(window: nat) {
    forall ws, actions, k, n: nat, a, b ::
      Run(ws, actions, k, window) && n < |ws| && MayWrite(ws[n], k, a) && MayWrite(ws[n], k, b) ==> a == b
  }

  /**
   * The slack is exactly what the landing time may use up: two nodes never share a unit if and only if every grant
   * lands within 5001 ms of its check, one past the slack because a lease is over only after its deadline.
   */
  lemma SlackIsExact(window: nat)
    ensures Exclusive(window) <==> window <= 5_001
  {
    hide MayWrite, Enabled, Act, Trusts, LateWorld;
    if window <= 5_001 {
      forall ws, actions, k, n: nat, a, b |
        Run(ws, actions, k, window) && n < |ws| && MayWrite(ws[n], k, a) && MayWrite(ws[n], k, b)
        ensures a == b
      {
        OneWriter(ws, actions, k, window, n, a, b);
      }
    } else {
      var ws := seq(14, (i: nat) => LateWorld(i));
      LateBegins();
      forall i | 0 <= i < 13
        ensures Enabled(ws[i], UNIT, LATE_ACTIONS[i], window)
        ensures ws[i + 1] == Act(ws[i], UNIT, LATE_ACTIONS[i], window)
      {
        if i < 5 { LateOpening(i, window); } else if i < 9 { LateMiddle(i, window); } else { LateEnding(i, window); }
      }
      assert Run(ws, LATE_ACTIONS, UNIT, window);
      LateTwoWriters();
      assert MayWrite(ws[13], UNIT, 1) && MayWrite(ws[13], UNIT, 2);
    }
  }

  lemma LateBegins()
    ensures LateWorld(0) == START
  {
  }
}
