/** Block-max WAND, TraverseBMW of serve/traverse.go: exactly the exhaustive top k, in at most one turn a posting. */
module TraverseBmw {
  import opened Bytes
  import opened Postings
  import opened Ranking
  import opened TopHeap
  import opened TraversalSteps
  import opened TraversalState
  import opened Cursor
  import opened CursorSet

  /** The order's terms, in the order of their current docids. */
  ghost predicate SortedBy(order: seq<nat>, keys: seq<u32>) {
    && (forall i :: 0 <= i < |order| ==> order[i] < |keys|)
    && forall i, j :: 0 <= i < j < |order| ==> keys[order[i]] <= keys[order[j]]
  }

  /** keys holds every cursor's current docid. */
  ghost predicate KeysAre(lists: seq<seq<Posting>>, at: seq<nat>, keys: seq<u32>) {
    && |keys| == |lists| == |at|
    && forall t :: 0 <= t < |lists| ==> keys[t] == DocidAt(lists[t], at[t])
  }

  /** The first t cursors have read their blocks, and keys holds where they stand. */
  ghost predicate KeysTo(cs: seq<TermCursor>, at: seq<nat>, t: nat, keys: seq<u32>)
    reads cs
  {
    && |keys| == t <= |cs| == |at|
    && forall u :: 0 <= u < t ==> cs[u].Ready() && keys[u] == DocidAt(cs[u].list, at[u])
  }

  method KeyOf(cs: seq<TermCursor>, t: nat, ghost keys: seq<u32>, ghost at: seq<nat>) returns (d: u32, ghost at': seq<nat>)
    requires AllValid(cs) && Apart(cs) && at == Positions(cs) && KeysTo(cs, at, t, keys) && t < |cs|
    modifies Footprint(cs)
    ensures AllValid(cs) && at' == Positions(cs) && KeysTo(cs, at', t + 1, keys + [d]) && Forward(at, at')
    ensures NoErr(cs) ==> old(NoErr(cs)) && at' == at
  {
    hide TermCursor.Valid, TermCursor.At, TermCursor.Ready, DocidAt, NoErr;
    d := DocidOf(cs, t);
    at' := Positions(cs);
  }

  /** The Docid calls of the sort's comparator: every cursor reads the block it stands in. */
  method GatherKeys(cs: seq<TermCursor>) returns (keys: seq<u32>, ghost at: seq<nat>)
    requires AllValid(cs) && Apart(cs)
    modifies Footprint(cs)
    ensures AllValid(cs) && AllReady(cs) && at == Positions(cs) && KeysAre(Lists(cs), at, keys)
    ensures NoErr(cs) ==> old(NoErr(cs)) && at == old(Positions(cs))
    ensures Forward(old(Positions(cs)), at)
  {
    hide TermCursor.Valid, TermCursor.At, TermCursor.Ready, DocidAt, NoErr;
    keys, at := [], Positions(cs);
    for t := 0 to |cs|
      invariant AllValid(cs) && at == Positions(cs) && KeysTo(cs, at, t, keys)
      invariant NoErr(cs) ==> old(NoErr(cs)) && at == old(Positions(cs))
      invariant Forward(old(Positions(cs)), at)
    {
      hide KeysTo;
      var d;
      d, at := KeyOf(cs, t, keys, at);
      keys := keys + [d];
    }
  }

  /** slices.SortFunc by docid; the library sort stands here as an insertion sort by swaps. */
  method SortByDocid(order0: seq<nat>, keys: seq<u32>) returns (order: seq<nat>)
    requires Order(order0, |keys|)
    ensures Order(order, |keys|) && SortedBy(order, keys)
  {
    order := order0;
    for i := 0 to |order0|
      invariant Order(order, |keys|)
      invariant SortedBy(order[..i], keys)
    {
      order := SinkLast(order, keys, i);
    }
    assert order[..|order0|] == order;
  }

  /** Moves slot i down among the sorted slots below it. */
  method SinkLast(order0: seq<nat>, keys: seq<u32>, i: nat) returns (order: seq<nat>)
    requires Order(order0, |keys|) && i < |order0| && SortedBy(order0[..i], keys)
    ensures Order(order, |keys|) && SortedBy(order[..i + 1], keys)
  {
    order := order0;
    var j := i;
    while j > 0 && keys[order[j - 1]] > keys[order[j]]
      invariant 0 <= j <= i && Order(order, |keys|)
      invariant forall a, b :: 0 <= a < b <= i && b != j ==> keys[order[a]] <= keys[order[b]]
    {
      SwapOrder(order, |keys|, j - 1, j);
      order := order[j - 1 := order[j]][j := order[j - 1]];
      j := j - 1;
    }
  }

  /** The pivot loop: the first prefix of the order whose bounds sum past theta. */
  method FindPivot(cs: seq<TermCursor>, order: seq<nat>, keys: seq<u32>, theta: nat, ghost bounds: seq<nat>)
    returns (pivot: int, ghost m: nat)
    requires |keys| == |cs| && Order(order, |cs|) && |bounds| == |cs|
    requires forall i :: 0 <= i < |cs| ==> bounds[i] == cs[order[i]].bound
    ensures -1 <= pivot < |cs| && m <= |cs| && SumTo(bounds, m) <= theta
    ensures pivot >= 0 ==> m == pivot && keys[order[pivot]] != EXHAUSTED
    ensures pivot < 0 ==> m == |cs| || keys[order[m]] == EXHAUSTED
  {
    var acc := 0;
    m := 0;
    for i := 0 to |order|
      invariant m == i && acc == SumTo(bounds, i) <= theta
    {
      if keys[order[i]] == EXHAUSTED {
        return -1, i;
      }
      acc := acc + cs[order[i]].bound;
      if acc > theta {
        return i, i;
      }
      m := i + 1;
    }
    pivot := -1;
  }

  /** bb holds the block bounds of the first i terms, and bacc is their sum. */
  ghost predicate Bounding(lists: seq<seq<Posting>>, at: seq<nat>, order: seq<nat>, i: nat, bb: seq<nat>, bacc: nat, pd: u32) {
    && |at| == |lists| && Order(order, |lists|) && |bb| == i <= |order| && bacc == SumTo(bb, i)
    && forall j :: 0 <= j < i ==> Tf(lists[order[j]], at[order[j]], pd) <= bb[j]
  }

  lemma BoundingMore(lists: seq<seq<Posting>>, at: seq<nat>, order: seq<nat>, i: nat, bb: seq<nat>, bacc: nat, pd: u32, b: nat)
    requires Bounding(lists, at, order, i, bb, bacc, pd) && i < |order| && Tf(lists[order[i]], at[order[i]], pd) <= b
    ensures Bounding(lists, at, order, i + 1, bb + [b], bacc + b, pd)
  {
    hide Tf;
    SumSame(bb, bb + [b], i);
  }

  /** The terms left out stand past pd: the bounds cover all it has left. */
  lemma BoundingEnds(lists: seq<seq<Posting>>, at: seq<nat>, order: seq<nat>, keys: seq<u32>, i: nat, bb: seq<nat>, bacc: nat,
                     pivot: nat, pd: u32)
    requires Bounding(lists, at, order, i, bb, bacc, pd) && InLists(lists, at)
    requires KeysAre(lists, at, keys) && SortedBy(order, keys) && pivot < |order| && pd == keys[order[pivot]]
    requires i == |order| || (i > pivot && keys[order[i]] != pd)
    ensures Left(lists, at, pd) <= bacc
  {
    hide Tf, Left, DocidAt;
    forall j | i <= j < |order| ensures Tf(lists[order[j]], at[order[j]], pd) == 0 {
      assert keys[order[i]] <= keys[order[j]] && keys[order[pivot]] <= keys[order[i]];
      TfPast(lists[order[j]], at[order[j]], pd);
    }
    LeftBounded(lists, at, order, i, bb, pd);
  }

  /** What blocks can add to pd: the cursors up to the pivot and those on pd cover all that pd has left. */
  method BlockBounds(cs: seq<TermCursor>, order: seq<nat>, keys: seq<u32>, pivot: nat, pd: u32, ghost at: seq<nat>)
    returns (bacc: nat)
    requires AllValid(cs) && at == Positions(cs) && InLists(Lists(cs), at) && KeysAre(Lists(cs), at, keys)
    requires Order(order, |cs|) && SortedBy(order, keys) && pivot < |cs| && pd == keys[order[pivot]]
    ensures Left(Lists(cs), at, pd) <= bacc
  {
    hide TermCursor.Valid, TermCursor.At, Left, Footprint, InLists, SumTo;
    bacc := 0;
    ghost var lists, bb: seq<nat> := Lists(cs), [];
    var i := 0;
    NoneBounded(lists, at, order, pd);
    while i < |order| && (i <= pivot || keys[order[i]] == pd)
      invariant 0 <= i <= |order| && Bounding(lists, at, order, i, bb, bacc, pd)
    {
      hide Bounding;
      var b := BlockBoundOf(cs, order[i], pd, at);
      BoundingMore(lists, at, order, i, bb, bacc, pd, b);
      bb := bb + [b as nat];
      bacc := bacc + b;
      i := i + 1;
    }
    BoundingEnds(lists, at, order, keys, i, bb, bacc, pivot, pd);
  }

  lemma NoneBounded(lists: seq<seq<Posting>>, at: seq<nat>, order: seq<nat>, pd: u32)
    requires |at| == |lists| && Order(order, |lists|)
    ensures Bounding(lists, at, order, 0, [], 0, pd)
  {
  }

  /** Below the pivot docid nothing left can beat theta: only the terms before the pivot reach there. */
  lemma BelowPivot(lists: seq<seq<Posting>>, at: seq<nat>, order: seq<nat>, keys: seq<u32>, m: nat, bounds: seq<nat>,
                   limit: int, theta: nat, d: u32)
    requires InLists(lists, at) && KeysAre(lists, at, keys) && Order(order, |lists|) && SortedBy(order, keys)
    requires m <= |lists| == |bounds| && SumTo(bounds, m) <= theta
    requires m < |lists| ==> limit <= keys[order[m]]
    requires forall i, j :: 0 <= i < |lists| && 0 <= j < |lists[order[i]]| ==> lists[order[i]][j].tf <= bounds[i]
    requires d < limit
    ensures Left(lists, at, d) <= theta
  {
    hide Left;
    forall i | 0 <= i < m ensures Tf(lists[order[i]], at[order[i]], d) <= bounds[i] {
      TfBound(lists[order[i]], at[order[i]], d, bounds[i]);
    }
    forall i | m <= i < |order| ensures Tf(lists[order[i]], at[order[i]], d) == 0 {
      assert keys[order[m]] <= keys[order[i]];
      TfPast(lists[order[i]], at[order[i]], d);
    }
    LeftBounded(lists, at, order, m, bounds, d);
  }

  /** The first i terms of the order have given up their posting of pd, and s is the sum of those. */
  ghost predicate Scoring(lists: seq<seq<Posting>>, order: seq<nat>, at: seq<nat>, now: seq<nat>, i: nat, s: nat,
                          pd: u32, hits: seq<Hit>, k: nat, deleted: u32 -> bool, ok: bool) {
    && |at| == |lists| && i <= |order| && Order(order, |lists|)
    && Forward(at, now)
    && (i > 0 ==> now[order[0]] > at[order[0]])
    && (forall j :: i <= j < |order| ==> now[order[j]] == at[order[j]])
    && (forall j :: 0 <= j < i ==> Tf(lists[order[j]], now[order[j]], pd) == 0)
    && (ok ==> InvBut(lists, now, hits, k, deleted, pd) && s + Left(lists, now, pd) == Left(lists, at, pd))
  }

  lemma ScoringStep(lists: seq<seq<Posting>>, order: seq<nat>, at: seq<nat>, now: seq<nat>, i: nat, s: nat,
                    pd: u32, hits: seq<Hit>, k: nat, deleted: u32 -> bool, ok: bool)
    requires Scoring(lists, order, at, now, i, s, pd, hits, k, deleted, ok) && AllWalkable(lists) && i < |order|
    requires DocidAt(lists[order[i]], at[order[i]]) == pd < EXHAUSTED
    ensures now[order[i]] < |lists[order[i]]|
    ensures Scoring(lists, order, at, now[order[i] := now[order[i]] + 1], i + 1, s + lists[order[i]][now[order[i]]].tf,
                    pd, hits, k, deleted, ok)
  {
    hide InvBut, Left, Tf, Walkable;
    var t := order[i];
    assert now[t] == at[t];
    TfConsume(lists[t], now[t]);
    if ok {
      ConsumeBut(lists, now, t, hits, k, deleted, pd);
    }
    assert forall j :: 0 <= j < |order| && j != i ==> order[j] != t;
  }

  lemma ScoringEnd(lists: seq<seq<Posting>>, order: seq<nat>, keys: seq<u32>, at: seq<nat>, now: seq<nat>, i: nat,
                   s: nat, pd: u32, hits: seq<Hit>, k: nat, deleted: u32 -> bool)
    requires Scoring(lists, order, at, now, i, s, pd, hits, k, deleted, true) && AllWalkable(lists)
    requires KeysAre(lists, at, keys) && SortedBy(order, keys)
    requires i == |order| || keys[order[i]] > pd
    ensures s == Left(lists, at, pd) && Left(lists, now, pd) == 0
  {
    hide InvBut, Left, Tf, Walkable, DocidAt;
    forall j | 0 <= j < |order| ensures Tf(lists[order[j]], now[order[j]], pd) == 0 {
      if j >= i {
        assert keys[order[i]] <= keys[order[j]];
        TfPast(lists[order[j]], now[order[j]], pd);
      }
    }
    LeftBounded(lists, now, order, 0, [], pd);
  }

  /** The scoring loop: every cursor at pd gives up its posting. */
  method ScoreDoc(cs: seq<TermCursor>, order: seq<nat>, keys: seq<u32>, pd: u32,
                  ghost at: seq<nat>, ghost hits: seq<Hit>, ghost k: nat, ghost deleted: u32 -> bool) returns (s: nat)
    requires AllValid(cs) && Apart(cs) && AllReady(cs)
    requires at == Positions(cs) && KeysAre(Lists(cs), at, keys) && Order(order, |cs|) && SortedBy(order, keys)
    requires |cs| > 0 && keys[order[0]] == pd < EXHAUSTED
    requires NoErr(cs) ==> Inv(Lists(cs), at, hits, k, deleted)
    modifies Footprint(cs)
    ensures AllValid(cs) && Forward(at, Positions(cs)) && Positions(cs)[order[0]] > at[order[0]]
    ensures NoErr(cs) <==> old(NoErr(cs))
    ensures NoErr(cs) ==> && InvBut(Lists(cs), Positions(cs), hits, k, deleted, pd)
                          && s == Left(Lists(cs), at, pd) && Left(Lists(cs), Positions(cs), pd) == 0
  {
    hide TermCursor.Valid, TermCursor.At, TermCursor.Ready, Left, Inv, InvBut, Scoring, AllWalkable, Apart, Footprint, SortedBy, DocidAt;
    s := 0;
    ghost var lists, ok, now := Lists(cs), NoErr(cs), at;
    PositionsInLists(cs);
    ScoringStart(lists, order, at, pd, hits, k, deleted, ok);
    var i := 0;
    while i < |order| && keys[order[i]] == pd
      invariant 0 <= i <= |order|
      invariant ScoreState(cs, order, at, now, i, s, pd, hits, k, deleted, ok)
    {
      s, now := ScoreOne(cs, order, at, now, i, s, pd, hits, k, deleted, ok);
      i := i + 1;
    }
    ScoringFacts(lists, order, keys, at, now, i, s, pd, hits, k, deleted, ok);
  }

  ghost predicate ScoreState(cs: seq<TermCursor>, order: seq<nat>, at: seq<nat>, now: seq<nat>, i: nat, s: nat,
                             pd: u32, hits: seq<Hit>, k: nat, deleted: u32 -> bool, ok: bool)
    reads Footprint(cs), cs
  {
    && AllValid(cs) && Apart(cs) && now == Positions(cs) && (NoErr(cs) <==> ok)
    && Order(order, |cs|) && i <= |order| && ReadyIn(cs, order, i, |order|)
    && Scoring(Lists(cs), order, at, now, i, s, pd, hits, k, deleted, ok)
  }

  /** One cursor at pd gives up its posting. */
  method ScoreOne(cs: seq<TermCursor>, order: seq<nat>, ghost at: seq<nat>, ghost now: seq<nat>, i: nat, s: nat,
                  pd: u32, ghost hits: seq<Hit>, ghost k: nat, ghost deleted: u32 -> bool, ghost ok: bool)
    returns (s': nat, ghost now': seq<nat>)
    requires ScoreState(cs, order, at, now, i, s, pd, hits, k, deleted, ok) && i < |order|
    requires DocidAt(cs[order[i]].list, at[order[i]]) == pd < EXHAUSTED
    modifies Footprint(cs)
    ensures ScoreState(cs, order, at, now', i + 1, s', pd, hits, k, deleted, ok)
  {
    hide TermCursor.Valid, TermCursor.At, Scoring, Apart, DocidAt, NoErr, AllWalkable, Footprint, ReadyIn;
    WalkableLists(cs);
    ScoringStep(Lists(cs), order, at, now, i, s, pd, hits, k, deleted, ok);
    var tf;
    tf, now' := TakeIn(cs, order, i, |order|, now);
    s' := s + tf;
  }

  lemma ScoringStart(lists: seq<seq<Posting>>, order: seq<nat>, at: seq<nat>, pd: u32, hits: seq<Hit>, k: nat,
                     deleted: u32 -> bool, ok: bool)
    requires |at| == |lists| && Order(order, |lists|) && (ok ==> Inv(lists, at, hits, k, deleted))
    ensures Scoring(lists, order, at, at, 0, 0, pd, hits, k, deleted, ok)
  {
  }

  lemma ScoringFacts(lists: seq<seq<Posting>>, order: seq<nat>, keys: seq<u32>, at: seq<nat>, now: seq<nat>, i: nat,
                     s: nat, pd: u32, hits: seq<Hit>, k: nat, deleted: u32 -> bool, ok: bool)
    requires Scoring(lists, order, at, now, i, s, pd, hits, k, deleted, ok) && AllWalkable(lists)
    requires KeysAre(lists, at, keys) && SortedBy(order, keys)
    requires |order| > 0 && keys[order[0]] == pd && (i == |order| || keys[order[i]] != pd)
    ensures Forward(at, now) && now[order[0]] > at[order[0]]
    ensures ok ==> InvBut(lists, now, hits, k, deleted, pd) && s == Left(lists, at, pd) && Left(lists, now, pd) == 0
  {
    hide InvBut, Left, Tf, Walkable, DocidAt;
    if i < |order| {
      assert i > 0 && keys[order[0]] <= keys[order[i]];
    }
    if ok {
      ScoringEnd(lists, order, keys, at, now, i, s, pd, hits, k, deleted);
    }
  }

  // ----- the traversal -----

  /** A pivot below which nothing left can beat theta; none at all when nothing left can. */
  ghost predicate Planned(lists: seq<seq<Posting>>, at: seq<nat>, order: seq<nat>, keys: seq<u32>, pivot: int, theta: nat) {
    && InLists(lists, at) && KeysAre(lists, at, keys) && Order(order, |lists|) && SortedBy(order, keys)
    && -1 <= pivot < |lists| && (pivot >= 0 ==> keys[order[pivot]] < EXHAUSTED)
    && Hopeless(lists, at, if pivot < 0 then EXHAUSTED else keys[order[pivot]], theta)
  }

  /** Nothing below the limit can beat theta. */
  ghost predicate Hopeless(lists: seq<seq<Posting>>, at: seq<nat>, limit: int, theta: nat)
    requires InLists(lists, at)
  {
    forall d: u32 :: d < limit ==> Left(lists, at, d) <= theta
  }

  /** The start of a turn: where every cursor stands, and the pivot. */
  method Plan(cs: seq<TermCursor>, order0: seq<nat>, theta: nat)
    returns (order: seq<nat>, keys: seq<u32>, pivot: int, ghost at: seq<nat>)
    requires AllValid(cs) && Apart(cs) && Order(order0, |cs|)
    modifies Footprint(cs)
    ensures AllValid(cs) && AllReady(cs) && at == Positions(cs)
    ensures NoErr(cs) ==> old(NoErr(cs)) && at == old(Positions(cs))
    ensures Forward(old(Positions(cs)), at)
    ensures Planned(Lists(cs), at, order, keys, pivot, theta)
  {
    hide TermCursor.Valid, TermCursor.At, TermCursor.Ready, Left, SumTo, DocidAt, NoErr, Footprint, InLists, SortedBy, Hopeless;
    keys, at := GatherKeys(cs);
    order := SortByDocid(order0, keys);
    PositionsInLists(cs);
    BoundsHold(cs, order);
    ghost var m;
    pivot, m := FindPivot(cs, order, keys, theta, Bounds(cs, order));
    PlanHolds(Lists(cs), at, order, keys, m, Bounds(cs, order), if pivot < 0 then EXHAUSTED else keys[order[pivot]], theta);
  }

  lemma PlanHolds(lists: seq<seq<Posting>>, at: seq<nat>, order: seq<nat>, keys: seq<u32>, m: nat, bounds: seq<nat>,
                  limit: int, theta: nat)
    requires InLists(lists, at) && KeysAre(lists, at, keys) && Order(order, |lists|) && SortedBy(order, keys)
    requires m <= |lists| == |bounds| && SumTo(bounds, m) <= theta
    requires m < |lists| ==> limit <= keys[order[m]]
    requires forall i, j :: 0 <= i < |lists| && 0 <= j < |lists[order[i]]| ==> lists[order[i]][j].tf <= bounds[i]
    ensures Hopeless(lists, at, limit, theta)
  {
    hide Left, SumTo, DocidAt;
    forall d: u32 | d < limit ensures Left(lists, at, d) <= theta {
      BelowPivot(lists, at, order, keys, m, bounds, limit, theta, d);
    }
  }

  /** A turn that moves the leading cursor to target without scoring. */
  method MoveLead(cs: seq<TermCursor>, t: nat, target: u32, ghost at: seq<nat>, ghost hits: seq<Hit>, ghost k: nat,
                  ghost deleted: u32 -> bool)
    requires AllValid(cs) && Apart(cs) && t < |cs| && at == Positions(cs) && InLists(Lists(cs), at)
    requires DocidAt(cs[t].list, at[t]) < target
    requires NoErr(cs) ==> Inv(Lists(cs), at, hits, k, deleted)
    requires k >= 1 && forall d: u32 :: d < target ==> Left(Lists(cs), at, d) <= Floor(hits, k)
    modifies Footprint(cs)
    ensures AllValid(cs) && Forward(at, Positions(cs)) && Positions(cs)[t] > at[t]
    ensures NoErr(cs) ==> old(NoErr(cs)) && Inv(Lists(cs), Positions(cs), hits, k, deleted)
  {
    hide TermCursor.Valid, TermCursor.At, TermCursor.Ready, Left, Floor, Inv, Walkable;
    ghost var lists := Lists(cs);
    if NoErr(cs) {
      SkipTo(lists, at, t, target, hits, k, deleted);
    }
    ghost var now := AdvanceOf(cs, t, target, at);
  }

  /** The rest of a turn, once there is a pivot: the bound check, then a move or a scored document. */
  method Act(cs: seq<TermCursor>, h: Heap, order: seq<nat>, keys: seq<u32>, pivot: nat, theta: nat,
             deleted: u32 -> bool, ghost at: seq<nat>)
    requires AllValid(cs) && Apart(cs) && AllReady(cs) && h.Valid() && h !in Footprint(cs)
    requires at == Positions(cs) && Planned(Lists(cs), at, order, keys, pivot, theta) && theta == Floor(h.hits, h.k)
    requires NoErr(cs) ==> Inv(Lists(cs), at, h.hits, h.k, deleted)
    modifies Footprint(cs), h`hits
    ensures AllValid(cs) && h.Valid() && Forward(at, Positions(cs)) && Positions(cs)[order[0]] > at[order[0]]
    ensures NoErr(cs) ==> old(NoErr(cs)) && Inv(Lists(cs), Positions(cs), h.hits, h.k, deleted)
  {
    hide TermCursor.Valid, TermCursor.At, TermCursor.Ready, Left, Floor, Inv, InvBut, Ordered, Walkable, Offered, Apart,
         Footprint, DocidAt;
    var pd, lead := keys[order[pivot]], order[0];
    assert keys[lead] <= pd;
    var bacc := BlockBounds(cs, order, keys, pivot, pd, at);
    if bacc <= theta {
      // No document up to this target can beat theta, so the leading cursor may skip to it.
      var shallow := ShallowOf(cs, lead, at);
      var target := if shallow < pd + 1 then shallow else pd + 1;
      forall d: u32 | d < target ensures Left(Lists(cs), at, d) <= theta {
        assert d < pd || d == pd;
      }
      MoveLead(cs, lead, target, at, h.hits, h.k, deleted);
    } else if keys[lead] == pd {
      var s := ScoreDoc(cs, order, keys, pd, at, h.hits, h.k, deleted);
      WalkableLists(cs);
      OfferScored(cs, h, pd, s, theta, at, deleted);
    } else {
      MoveLead(cs, lead, pd, at, h.hits, h.k, deleted);
    }
  }

  method ShallowOf(cs: seq<TermCursor>, t: nat, ghost at: seq<nat>) returns (d: u32)
    requires AllValid(cs) && t < |cs| && at == Positions(cs)
    ensures DocidAt(cs[t].list, at[t]) < d || DocidAt(cs[t].list, at[t]) == EXHAUSTED
  {
    hide TermCursor.Valid, TermCursor.At;
    cs[t].AtInList();
    d := cs[t].ShallowNext();
    if cs[t].done {
      DoneAt(cs[t]);
    }
  }

  lemma DoneAt(c: TermCursor)
    requires c.Valid() && c.done
    ensures DocidAt(c.list, c.At()) == EXHAUSTED
  {
  }

  /** One turn of TraverseBMW's loop. */
  method Turn(cs: seq<TermCursor>, h: Heap, order0: seq<nat>, deleted: u32 -> bool, ghost turns: nat)
    returns (order: seq<nat>, more: bool)
    requires Between(cs, h, order0, deleted, turns) && h !in Footprint(cs)
    modifies Footprint(cs), h`hits
    ensures NoErr(cs) ==> old(NoErr(cs))
    ensures Between(cs, h, order, deleted, if more then turns + 1 else turns)
    ensures !more ==> Finished(cs, h)
    ensures more ==> RestOf(cs) < old(RestOf(cs))
  {
    hide TermCursor.Valid, TermCursor.At, TermCursor.Ready, Left, Floor, Inv, Rest, Apart, Footprint, InLists, Forward,
         NoErr, TotalDf, Finished, Planned, Order;
    var keys, pivot;
    ghost var at;
    ghost var lists, at0 := Lists(cs), Positions(cs);
    var theta := h.Threshold();
    order, keys, pivot, at := Plan(cs, order0, theta);
    PlannedOrder(lists, at, order, keys, pivot, theta);
    PositionsInLists(cs);
    more := pivot >= 0;
    if more {
      Act(cs, h, order, keys, pivot, theta, deleted, at);
      PositionsInLists(cs);
      RestDrops(lists, at0, at, Positions(cs), order[0]);
    } else {
      RestNoMore(lists, at0, at);
      NothingPlanned(cs, h, at, order, keys, pivot, theta);
    }
  }

  lemma PlannedOrder(lists: seq<seq<Posting>>, at: seq<nat>, order: seq<nat>, keys: seq<u32>, pivot: int, theta: nat)
    requires Planned(lists, at, order, keys, pivot, theta)
    ensures Order(order, |lists|) && (pivot >= 0 ==> |order| > 0 && order[0] < |lists|)
  {
  }

  lemma NothingPlanned(cs: seq<TermCursor>, h: Heap, at: seq<nat>, order: seq<nat>, keys: seq<u32>, pivot: int, theta: nat)
    requires h.Valid() && at == Positions(cs) && theta == Floor(h.hits, h.k)
    requires Planned(Lists(cs), at, order, keys, pivot, theta) && pivot < 0
    ensures Finished(cs, h)
  {
    hide Left, Floor, Ordered;
  }

  /** TraverseBMW's loop. */
  method Turns(cs: seq<TermCursor>, h: Heap, order0: seq<nat>, deleted: u32 -> bool)
    returns (ghost order: seq<nat>, ghost turns: nat)
    requires Between(cs, h, order0, deleted, 0) && h !in Footprint(cs)
    modifies Footprint(cs), h`hits
    ensures Between(cs, h, order, deleted, turns) && Finished(cs, h)
  {
    hide Between, Finished, Footprint, RestOf;
    var current := order0;
    turns := 0;
    var more := true;
    while more
      invariant Between(cs, h, current, deleted, turns)
      invariant !more ==> Finished(cs, h)
      decreases more, RestOf(cs)
    {
      current, more := Turn(cs, h, current, deleted, turns);
      if more {
        turns := turns + 1;
      }
    }
    order := current;
  }

  /**
   * serve/traverse.go TraverseBMW. Unless a read failed, the hits are the top k of exhaustive scoring over the
   * undeleted union; and the loop turns at most once for every posting of every term.
   */
  method TraverseBMW(cs: seq<TermCursor>, k: nat, deleted: u32 -> bool)
    returns (hits: seq<Hit>, err: Option<CursorError>, ghost turns: nat)
    requires AllValid(cs) && Apart(cs) && k >= 1 && Positions(cs) == Starts(|cs|)
    modifies Footprint(cs)
    ensures AllValid(cs) && (err == None <==> NoErr(cs))
    ensures err == None ==> IsTopK(Lists(cs), hits, k, deleted)
    ensures turns <= TotalDf(Lists(cs))
  {
    hide TermCursor.Valid, TermCursor.At, IsTopK, TotalDf, Apart, Between, Finished, Order;
    var h := new Heap(k);
    OutsideFootprint(cs, h);
    var order0 := Identity(|cs|);
    IdentityOrder(|cs|);
    StartsBetween(cs, h, order0, deleted);
    ghost var order;
    order, turns := Turns(cs, h, order0, deleted);
    hits := Drain(cs, h, order, deleted, turns);
    err := CursorErr(cs);
  }
}
