/** MaxScore, TraverseMaxScore of serve/traverse.go: exactly the exhaustive top k, in at most one turn a posting. */
module TraverseMax {
  import opened Bytes
  import opened Postings
  import opened Ranking
  import opened TopHeap
  import opened TraversalSteps
  import opened TraversalState
  import opened Cursor
  import opened CursorSet

  /** slices.SortFunc by bound; the library sort stands here as an insertion sort by swaps. */
  method SortByBound(cs: seq<TermCursor>) returns (order: seq<nat>)
    ensures Order(order, |cs|)
    ensures forall i, j :: 0 <= i < j < |cs| ==> cs[order[i]].bound <= cs[order[j]].bound
  {
    order := Identity(|cs|);
    IdentityOrder(|cs|);
    for i := 0 to |cs|
      invariant Order(order, |cs|)
      invariant forall a, b :: 0 <= a < b < i ==> cs[order[a]].bound <= cs[order[b]].bound
    {
      var j := i;
      while j > 0 && cs[order[j - 1]].bound > cs[order[j]].bound
        invariant 0 <= j <= i && Order(order, |cs|)
        invariant forall a, b :: 0 <= a < b <= i && b != j ==> cs[order[a]].bound <= cs[order[b]].bound
      {
        SwapOrder(order, |cs|, j - 1, j);
        order := order[j - 1 := order[j]][j := order[j - 1]];
        j := j - 1;
      }
    }
  }

  /** Every prefix sum of the bounds. */
  ghost predicate Prefixes(prefix: seq<nat>, bounds: seq<nat>) {
    |prefix| == |bounds| + 1 && forall i :: 0 <= i <= |bounds| ==> prefix[i] == SumTo(bounds, i)
  }

  ghost predicate PrefixesOf(cs: seq<TermCursor>, order: seq<nat>, prefix: seq<nat>) {
    Order(order, |cs|) && |prefix| == |cs| + 1 && Prefixes(prefix, Bounds(cs, order))
  }

  method SumPrefixes(cs: seq<TermCursor>, order: seq<nat>) returns (prefix: seq<nat>)
    requires Order(order, |cs|)
    ensures PrefixesOf(cs, order, prefix)
  {
    prefix := [0];
    for i := 0 to |order|
      invariant |prefix| == i + 1 && forall j :: 0 <= j <= i ==> prefix[j] == SumTo(Bounds(cs, order), j)
    {
      prefix := prefix + [prefix[i] + cs[order[i]].bound];
    }
  }

  /** The partition: the terms before it cannot beat theta together. */
  method Partition(prefix: seq<nat>, theta: nat) returns (part: nat)
    requires |prefix| >= 1 && prefix[0] == 0
    ensures part < |prefix| && prefix[part] <= theta
    ensures part + 1 < |prefix| ==> prefix[part + 1] > theta
  {
    part := 0;
    while part < |prefix| - 1 && prefix[part + 1] <= theta
      invariant part < |prefix| && prefix[part] <= theta
    {
      part := part + 1;
    }
  }

  /** The terms in slots part to i of the order stand at d or past it. */
  ghost predicate Reached(lists: seq<seq<Posting>>, at: seq<nat>, order: seq<nat>, part: nat, i: nat, d: u32) {
    && |at| == |lists| && Order(order, |lists|) && i <= |order|
    && forall j :: part <= j < i ==> DocidAt(lists[order[j]], at[order[j]]) >= d
  }

  /** Every essential cursor stands at d or past it. */
  ghost predicate EssentialFrom(lists: seq<seq<Posting>>, at: seq<nat>, order: seq<nat>, part: nat, d: u32) {
    Reached(lists, at, order, part, |order|, d)
  }

  /** The essential cursor in slot w stands at d. */
  ghost predicate StandsOn(lists: seq<seq<Posting>>, at: seq<nat>, order: seq<nat>, part: nat, w: nat, d: u32) {
    && |at| == |lists| && Order(order, |lists|) && part <= w < |order|
    && DocidAt(lists[order[w]], at[order[w]]) == d < EXHAUSTED
  }

  /** Where the term in slot i of the order stands. */
  ghost function SlotDocid(lists: seq<seq<Posting>>, at: seq<nat>, order: seq<nat>, i: nat): u32 {
    if |at| == |lists| && i < |order| && order[i] < |lists| then DocidAt(lists[order[i]], at[order[i]]) else EXHAUSTED
  }

  lemma LookMore(lists: seq<seq<Posting>>, at: seq<nat>, at': seq<nat>, order: seq<nat>, part: nat, i: nat, w: nat, d: u32,
                 e: u32)
    requires Reached(lists, at, order, part, i, d) && part <= i < |order| && |at'| == |at|
    requires forall u :: 0 <= u < |at| && u != order[i] ==> at'[u] == at[u]
    requires e == DocidAt(lists[order[i]], at'[order[i]])
    requires d < EXHAUSTED ==> w < i && StandsOn(lists, at, order, part, w, d)
    ensures var d', w' := if e < d then e else d, if e < d then i else w;
            && Reached(lists, at', order, part, i + 1, d')
            && (d' < EXHAUSTED ==> w' < i + 1 && StandsOn(lists, at', order, part, w', d'))
  {
    hide DocidAt;
    assert forall j :: 0 <= j < i ==> order[j] != order[i];
  }

  /** The least docid of the essential cursors, and one that stands there. */
  method LeastEssential(cs: seq<TermCursor>, order: seq<nat>, part: nat)
    returns (d: u32, ghost w: nat, ghost at: seq<nat>)
    requires AllValid(cs) && Apart(cs) && Order(order, |cs|) && part <= |cs|
    modifies Footprint(cs)
    ensures AllValid(cs) && at == Positions(cs) && Forward(old(Positions(cs)), at)
    ensures NoErr(cs) ==> old(NoErr(cs)) && at == old(Positions(cs))
    ensures ReadyIn(cs, order, part, |order|) && EssentialFrom(Lists(cs), at, order, part, d)
    ensures d < EXHAUSTED ==> StandsOn(Lists(cs), at, order, part, w, d)
  {
    hide TermCursor.Valid, TermCursor.At, TermCursor.Ready, DocidAt, NoErr, StandsOn, Apart;
    d, w, at := EXHAUSTED, part, Positions(cs);
    for i := part to |order|
      invariant AllValid(cs) && at == Positions(cs) && Forward(old(Positions(cs)), at)
      invariant NoErr(cs) ==> old(NoErr(cs)) && at == old(Positions(cs))
      invariant ReadyIn(cs, order, part, i) && Reached(Lists(cs), at, order, part, i, d)
      invariant d < EXHAUSTED ==> w < i && StandsOn(Lists(cs), at, order, part, w, d)
    {
      hide Order, ReadyIn, Reached;
      var e, at' := DocidIn(cs, order, part, i, at);
      LookMore(Lists(cs), at, at', order, part, i, w, d, e);
      at := at';
      if e < d {
        d, w := e, i;
      }
    }
  }

  /** Below limit nothing left can beat theta: only the non-essential terms reach there. */
  lemma BelowEssential(lists: seq<seq<Posting>>, at: seq<nat>, order: seq<nat>, part: nat, bounds: seq<nat>,
                       limit: u32, theta: nat, e: u32)
    requires InLists(lists, at) && EssentialFrom(lists, at, order, part, limit)
    requires part <= |lists| == |bounds| && SumTo(bounds, part) <= theta
    requires forall i, j :: 0 <= i < |lists| && 0 <= j < |lists[order[i]]| ==> lists[order[i]][j].tf <= bounds[i]
    requires e < limit
    ensures Left(lists, at, e) <= theta
  {
    hide Left;
    forall i | 0 <= i < part ensures Tf(lists[order[i]], at[order[i]], e) <= bounds[i] {
      TfBound(lists[order[i]], at[order[i]], e, bounds[i]);
    }
    forall i | part <= i < |order| ensures Tf(lists[order[i]], at[order[i]], e) == 0 {
      TfPast(lists[order[i]], at[order[i]], e);
    }
    LeftBounded(lists, at, order, part, bounds, e);
  }

  // ----- the essential side -----

  /** Essential terms part..i-1 have given up their posting of d, and s is the sum of those. */
  ghost predicate Gathering(lists: seq<seq<Posting>>, order: seq<nat>, part: nat, at: seq<nat>, now: seq<nat>, i: nat,
                            s: nat, d: u32, w: nat, hits: seq<Hit>, k: nat, deleted: u32 -> bool, ok: bool) {
    && |at| == |lists| && Order(order, |lists|) && part <= i <= |order|
    && Forward(at, now) && (part <= w < i ==> now[order[w]] > at[order[w]])
    && (forall j :: i <= j < |order| ==> now[order[j]] == at[order[j]])
    && (forall j :: part <= j < i ==> Tf(lists[order[j]], now[order[j]], d) == 0)
    && (ok ==> InvBut(lists, now, hits, k, deleted, d) && s + Left(lists, now, d) == Left(lists, at, d))
  }

  lemma GatherTake(lists: seq<seq<Posting>>, order: seq<nat>, part: nat, at: seq<nat>, now: seq<nat>, now': seq<nat>, i: nat,
                   s: nat, s': nat, d: u32, w: nat, hits: seq<Hit>, k: nat, deleted: u32 -> bool, ok: bool)
    requires Gathering(lists, order, part, at, now, i, s, d, w, hits, k, deleted, ok) && AllWalkable(lists)
    requires i < |order| && DocidAt(lists[order[i]], at[order[i]]) == d < EXHAUSTED
    requires now[order[i]] < |lists[order[i]]| && now' == now[order[i] := now[order[i]] + 1]
    requires s' == s + lists[order[i]][now[order[i]]].tf
    ensures Gathering(lists, order, part, at, now', i + 1, s', d, w, hits, k, deleted, ok)
  {
    hide InvBut, Left, Tf, Walkable;
    var t := order[i];
    assert now[t] == at[t];
    TfConsume(lists[t], now[t]);
    if ok {
      ConsumeBut(lists, now, t, hits, k, deleted, d);
    }
    assert forall j :: 0 <= j < |order| && j != i ==> order[j] != t;
  }

  lemma GatherPass(lists: seq<seq<Posting>>, order: seq<nat>, part: nat, at: seq<nat>, now: seq<nat>, i: nat,
                   s: nat, d: u32, w: nat, hits: seq<Hit>, k: nat, deleted: u32 -> bool, ok: bool)
    requires Gathering(lists, order, part, at, now, i, s, d, w, hits, k, deleted, ok) && AllWalkable(lists)
    requires i < |order| && i != w && DocidAt(lists[order[i]], at[order[i]]) > d
    ensures Gathering(lists, order, part, at, now, i + 1, s, d, w, hits, k, deleted, ok)
  {
    hide InvBut, Left, Tf, Walkable, DocidAt;
    TfPast(lists[order[i]], now[order[i]], d);
  }

  ghost predicate GatherState(cs: seq<TermCursor>, order: seq<nat>, part: nat, at: seq<nat>, now: seq<nat>, i: nat,
                              s: nat, d: u32, w: nat, hits: seq<Hit>, k: nat, deleted: u32 -> bool, ok: bool)
    reads Footprint(cs), cs
  {
    && AllValid(cs) && Apart(cs) && now == Positions(cs) && (NoErr(cs) <==> ok)
    && i <= |order| && ReadyIn(cs, order, i, |order|)
    && EssentialFrom(Lists(cs), at, order, part, d) && StandsOn(Lists(cs), at, order, part, w, d)
    && Gathering(Lists(cs), order, part, at, now, i, s, d, w, hits, k, deleted, ok)
  }

  /** One essential cursor: it gives up its posting of d when it stands there. */
  method GatherOne(cs: seq<TermCursor>, order: seq<nat>, ghost part: nat, ghost at: seq<nat>, ghost now: seq<nat>,
                   i: nat, s: nat, d: u32, ghost w: nat, ghost hits: seq<Hit>, ghost k: nat,
                   ghost deleted: u32 -> bool, ghost ok: bool)
    returns (s': nat, ghost now': seq<nat>)
    requires GatherState(cs, order, part, at, now, i, s, d, w, hits, k, deleted, ok) && i < |order|
    modifies Footprint(cs)
    ensures GatherState(cs, order, part, at, now', i + 1, s', d, w, hits, k, deleted, ok)
  {
    hide TermCursor.Valid, TermCursor.At, TermCursor.Ready, Gathering, Apart, NoErr, AllWalkable, Footprint, ReadyIn,
         EssentialFrom, StandsOn, DocidAt, Order;
    WalkableLists(cs);
    StandsAt(Lists(cs), order, part, at, now, i, s, d, w, hits, k, deleted, ok);
    var here := PeekIn(cs, order, i, |order|, now);
    if here == d {
      OnList(Lists(cs)[order[i]], now[order[i]], d);
      var tf;
      tf, now' := TakeIn(cs, order, i, |order|, now);
      s' := s + tf;
      GatherTake(Lists(cs), order, part, at, now, now', i, s, s', d, w, hits, k, deleted, ok);
    } else {
      ReadyRest(cs, order, i, |order|);
      s', now' := s, now;
      GatherPass(Lists(cs), order, part, at, now, i, s, d, w, hits, k, deleted, ok);
    }
  }

  lemma OnList(list: seq<Posting>, p: nat, d: u32)
    requires DocidAt(list, p) == d < EXHAUSTED
    ensures p < |list|
  {
  }

  lemma StandsAt(lists: seq<seq<Posting>>, order: seq<nat>, part: nat, at: seq<nat>, now: seq<nat>, i: nat,
                 s: nat, d: u32, w: nat, hits: seq<Hit>, k: nat, deleted: u32 -> bool, ok: bool)
    requires Gathering(lists, order, part, at, now, i, s, d, w, hits, k, deleted, ok) && i < |order|
    requires EssentialFrom(lists, at, order, part, d) && StandsOn(lists, at, order, part, w, d)
    ensures Order(order, |lists|) && order[i] < |lists| == |now| == |at| && now[order[i]] == at[order[i]] && d < EXHAUSTED
    ensures DocidAt(lists[order[i]], at[order[i]]) >= d && (i == w ==> DocidAt(lists[order[i]], at[order[i]]) == d)
  {
    hide DocidAt;
  }

  /** The loop over the essential cursors. */
  method ConsumeEssential(cs: seq<TermCursor>, order: seq<nat>, part: nat, d: u32, ghost w: nat, ghost at: seq<nat>,
                          ghost hits: seq<Hit>, ghost k: nat, ghost deleted: u32 -> bool)
    returns (s: nat, ghost now: seq<nat>)
    requires AllValid(cs) && Apart(cs) && at == Positions(cs) && EssentialFrom(Lists(cs), at, order, part, d)
    requires part <= |order| && ReadyIn(cs, order, part, |order|) && StandsOn(Lists(cs), at, order, part, w, d)
    requires NoErr(cs) ==> Inv(Lists(cs), at, hits, k, deleted)
    modifies Footprint(cs)
    ensures GatherState(cs, order, part, at, now, |order|, s, d, w, hits, k, deleted, old(NoErr(cs)))
  {
    hide TermCursor.Valid, TermCursor.At, Inv, Gathering, Apart, Footprint, EssentialFrom, StandsOn, ReadyIn;
    s, now := 0, at;
    ghost var ok := NoErr(cs);
    GatherStart(Lists(cs), order, part, at, d, w, hits, k, deleted, ok);
    var i := part;
    while i < |order|
      invariant part <= i <= |order|
      invariant GatherState(cs, order, part, at, now, i, s, d, w, hits, k, deleted, ok)
    {
      s, now := GatherOne(cs, order, part, at, now, i, s, d, w, hits, k, deleted, ok);
      i := i + 1;
    }
  }

  lemma GatherStart(lists: seq<seq<Posting>>, order: seq<nat>, part: nat, at: seq<nat>, d: u32, w: nat,
                    hits: seq<Hit>, k: nat, deleted: u32 -> bool, ok: bool)
    requires EssentialFrom(lists, at, order, part, d) && part <= |order|
    requires ok ==> Inv(lists, at, hits, k, deleted)
    ensures Gathering(lists, order, part, at, at, part, 0, d, w, hits, k, deleted, ok)
  {
  }

  // ----- probing -----

  /** Terms i and up hold nothing of d any more; what was taken and what is left make up d's score from at. */
  ghost predicate Probing(lists: seq<seq<Posting>>, order: seq<nat>, at: seq<nat>, now: seq<nat>, i: nat, s: nat,
                          d: u32, theta: nat, hits: seq<Hit>, k: nat, deleted: u32 -> bool, ok: bool) {
    && |at| == |lists| && Order(order, |lists|) && i <= |order| && Forward(at, now)
    && (forall j :: i <= j < |order| ==> Tf(lists[order[j]], now[order[j]], d) == 0)
    && (ok ==> && InvBut(lists, now, hits, k, deleted, d) && Floor(hits, k) == theta
               && s + Left(lists, now, d) == Left(lists, at, d)
               && forall e: u32 :: e < d ==> Left(lists, now, e) <= theta)
  }

  lemma ProbingStart(lists: seq<seq<Posting>>, order: seq<nat>, part: nat, at: seq<nat>, now: seq<nat>, s: nat,
                     d: u32, w: nat, theta: nat, bounds: seq<nat>, hits: seq<Hit>, k: nat, deleted: u32 -> bool,
                     ok: bool)
    requires Gathering(lists, order, part, at, now, |order|, s, d, w, hits, k, deleted, ok)
    requires InLists(lists, at) && EssentialFrom(lists, at, order, part, d) && k >= 1 && theta == Floor(hits, k)
    requires part <= |lists| == |bounds| && SumTo(bounds, part) <= theta
    requires forall i, j :: 0 <= i < |lists| && 0 <= j < |lists[order[i]]| ==> lists[order[i]][j].tf <= bounds[i]
    ensures Probing(lists, order, at, now, part, s, d, theta, hits, k, deleted, ok)
  {
    hide InvBut, Left, Tf, Walkable, Floor;
    forall e: u32 | e < d ensures Left(lists, now, e) <= theta {
      BelowEssential(lists, at, order, part, bounds, d, theta, e);
      LeftShrinks(lists, at, now, e);
    }
  }

  /** With terms i and up done, what is left of d is within the bounds of the terms below i. */
  lemma ProbeBound(lists: seq<seq<Posting>>, order: seq<nat>, at: seq<nat>, now: seq<nat>, i: nat, s: nat, d: u32,
                   theta: nat, hits: seq<Hit>, k: nat, deleted: u32 -> bool, bounds: seq<nat>)
    requires Probing(lists, order, at, now, i, s, d, theta, hits, k, deleted, true) && |bounds| == |lists|
    requires forall i, j :: 0 <= i < |lists| && 0 <= j < |lists[order[i]]| ==> lists[order[i]][j].tf <= bounds[i]
    ensures Left(lists, at, d) <= s + SumTo(bounds, i)
  {
    hide InvBut, Left, Floor;
    forall j | 0 <= j < i ensures Tf(lists[order[j]], now[order[j]], d) <= bounds[j] {
      TfBound(lists[order[j]], now[order[j]], d, bounds[j]);
    }
    LeftBounded(lists, now, order, i, bounds, d);
  }

  /** The same with term i - 1's bound tightened to its block. */
  lemma ProbeBlockBound(lists: seq<seq<Posting>>, order: seq<nat>, at: seq<nat>, now: seq<nat>, i: nat, s: nat, d: u32,
                        theta: nat, hits: seq<Hit>, k: nat, deleted: u32 -> bool, bounds: seq<nat>, bb: nat)
    requires Probing(lists, order, at, now, i, s, d, theta, hits, k, deleted, true) && |bounds| == |lists| && i > 0
    requires forall i, j :: 0 <= i < |lists| && 0 <= j < |lists[order[i]]| ==> lists[order[i]][j].tf <= bounds[i]
    requires Tf(lists[order[i - 1]], now[order[i - 1]], d) <= bb
    ensures Left(lists, at, d) <= s + bb + SumTo(bounds, i - 1)
  {
    hide InvBut, Left, Floor;
    var tight := bounds[i - 1 := bb];
    forall j | 0 <= j < i ensures Tf(lists[order[j]], now[order[j]], d) <= tight[j] {
      if j < i - 1 {
        TfBound(lists[order[j]], now[order[j]], d, bounds[j]);
      }
    }
    LeftBounded(lists, now, order, i, tight, d);
    SumSame(bounds, tight, i - 1);
  }

  /** Term i - 1 advanced to d. */
  lemma ProbeSkip(lists: seq<seq<Posting>>, order: seq<nat>, at: seq<nat>, now: seq<nat>, now': seq<nat>, i: nat,
                  s: nat, d: u32, theta: nat, hits: seq<Hit>, k: nat, deleted: u32 -> bool, ok: bool)
    requires Probing(lists, order, at, now, i, s, d, theta, hits, k, deleted, ok) && AllWalkable(lists) && i > 0
    requires Forward(now, now') && forall u :: 0 <= u < |now| && u != order[i - 1] ==> now'[u] == now[u]
    requires now[order[i - 1]] <= |lists[order[i - 1]]|
    requires ok ==> now' == now[order[i - 1] := FirstFrom(lists[order[i - 1]], now[order[i - 1]], d)]
    ensures Probing(lists, order, at, now', i, s, d, theta, hits, k, deleted, ok)
  {
    hide InvBut, Left, Tf, Walkable, Floor, FirstFrom;
    assert forall j :: i <= j < |order| ==> order[j] != order[i - 1];
    if ok {
      SkipBut(lists, now, order[i - 1], hits, k, deleted, d);
      forall e: u32 | e < d ensures Left(lists, now', e) <= theta {
        LeftShrinks(lists, now, now', e);
      }
    }
  }

  /** Term i - 1 stands at d and gives up its posting. */
  lemma ProbeTake(lists: seq<seq<Posting>>, order: seq<nat>, at: seq<nat>, now: seq<nat>, now': seq<nat>, i: nat, s: nat,
                  s': nat, d: u32, theta: nat, hits: seq<Hit>, k: nat, deleted: u32 -> bool, ok: bool)
    requires Probing(lists, order, at, now, i, s, d, theta, hits, k, deleted, ok) && AllWalkable(lists) && i > 0
    requires DocidAt(lists[order[i - 1]], now[order[i - 1]]) == d < EXHAUSTED
    requires now[order[i - 1]] < |lists[order[i - 1]]| && now' == now[order[i - 1] := now[order[i - 1]] + 1]
    requires s' == s + lists[order[i - 1]][now[order[i - 1]]].tf
    ensures Probing(lists, order, at, now', i - 1, s', d, theta, hits, k, deleted, ok)
  {
    hide InvBut, Left, Tf, Walkable, Floor;
    var t := order[i - 1];
    TfConsume(lists[t], now[t]);
    if ok {
      ConsumeBut(lists, now, t, hits, k, deleted, d);
      forall e: u32 | e < d ensures Left(lists, now', e) <= theta {
        LeftShrinks(lists, now, now', e);
      }
    }
    assert forall j :: i <= j < |order| ==> order[j] != t;
  }

  /** Term i - 1 stands past d: it has nothing for it. */
  lemma ProbePass(lists: seq<seq<Posting>>, order: seq<nat>, at: seq<nat>, now: seq<nat>, i: nat, s: nat, d: u32,
                  theta: nat, hits: seq<Hit>, k: nat, deleted: u32 -> bool, ok: bool)
    requires Probing(lists, order, at, now, i, s, d, theta, hits, k, deleted, ok) && AllWalkable(lists) && i > 0
    requires DocidAt(lists[order[i - 1]], now[order[i - 1]]) > d
    ensures Probing(lists, order, at, now, i - 1, s, d, theta, hits, k, deleted, ok)
  {
    hide InvBut, Left, Tf, Walkable, Floor, DocidAt;
    TfPast(lists[order[i - 1]], now[order[i - 1]], d);
  }

  lemma ProbeEnd(lists: seq<seq<Posting>>, order: seq<nat>, at: seq<nat>, now: seq<nat>, s: nat, d: u32,
                 theta: nat, hits: seq<Hit>, k: nat, deleted: u32 -> bool)
    requires Probing(lists, order, at, now, 0, s, d, theta, hits, k, deleted, true)
    ensures s == Left(lists, at, d) && Left(lists, now, d) == 0
  {
    hide InvBut, Left, Floor;
    LeftBounded(lists, now, order, 0, [], d);
  }

  ghost predicate ProbeState(cs: seq<TermCursor>, order: seq<nat>, at: seq<nat>, now: seq<nat>, i: nat, s: nat,
                             d: u32, theta: nat, hits: seq<Hit>, k: nat, deleted: u32 -> bool)
    reads Footprint(cs), cs
  {
    && AllValid(cs) && Apart(cs) && now == Positions(cs) && Order(order, |cs|)
    && Probing(Lists(cs), order, at, now, i, s, d, theta, hits, k, deleted, NoErr(cs))
  }

  /** One non-essential term: the two bound checks, and then the cursor is brought to d. */
  method ProbeOne(cs: seq<TermCursor>, order: seq<nat>, prefix: seq<nat>, ghost at: seq<nat>, ghost now: seq<nat>,
                  i: nat, s: nat, d: u32, theta: nat, ghost hits: seq<Hit>, ghost k: nat, ghost deleted: u32 -> bool)
    returns (s': nat, dropped: bool, ghost now': seq<nat>)
    requires ProbeState(cs, order, at, now, i, s, d, theta, hits, k, deleted) && 0 < i <= |order| && d < EXHAUSTED
    requires PrefixesOf(cs, order, prefix)
    modifies Footprint(cs)
    ensures NoErr(cs) ==> old(NoErr(cs))
    ensures ProbeState(cs, order, at, now', if dropped then i else i - 1, s', d, theta, hits, k, deleted)
    ensures Forward(now, now')
    ensures dropped && NoErr(cs) ==> Left(Lists(cs), at, d) <= theta
  {
    hide TermCursor.Valid, TermCursor.At, TermCursor.Ready, Left, Probing, Apart, AllWalkable, Footprint, NoErr, DocidAt,
         FirstFrom;
    s', now', dropped := s, now, true;
    BoundsHold(cs, order);
    if NoErr(cs) {
      ProbeBound(Lists(cs), order, at, now, i, s, d, theta, hits, k, deleted, Bounds(cs, order));
    }
    if s + prefix[i] <= theta {
      return;
    }
    var t := order[i - 1];
    var bb := BlockBoundOf(cs, t, d, now);
    if NoErr(cs) {
      ProbeBlockBound(Lists(cs), order, at, now, i, s, d, theta, hits, k, deleted, Bounds(cs, order), bb);
    }
    if s + bb + prefix[i - 1] <= theta {
      // ProbeBlockBound: all that is left of d is at most theta.
      return;
    }
    dropped := false;
    s', now' := ProbeInto(cs, order, at, now, i, s, d, theta, hits, k, deleted);
  }

  /** The end of a probe: Advance, and the posting consumed when it is d's. */
  method ProbeInto(cs: seq<TermCursor>, order: seq<nat>, ghost at: seq<nat>, ghost now: seq<nat>, i: nat, s: nat,
                   d: u32, theta: nat, ghost hits: seq<Hit>, ghost k: nat, ghost deleted: u32 -> bool)
    returns (s': nat, ghost now': seq<nat>)
    requires ProbeState(cs, order, at, now, i, s, d, theta, hits, k, deleted) && 0 < i <= |order| && d < EXHAUSTED
    modifies Footprint(cs)
    ensures NoErr(cs) ==> old(NoErr(cs))
    ensures ProbeState(cs, order, at, now', i - 1, s', d, theta, hits, k, deleted)
    ensures Forward(now, now')
  {
    hide TermCursor.Valid, ProbeState, ReadyIn, Footprint, NoErr, SlotDocid;
    var here;
    ghost var mid;
    here, mid := BringTo(cs, order, at, now, i, s, d, theta, hits, k, deleted);
    s', now' := TakeOrPass(cs, order, at, mid, i, s, d, here, theta, hits, k, deleted);
  }

  /** The probed cursor, brought to d: it gives up its posting when it stands there. */
  method TakeOrPass(cs: seq<TermCursor>, order: seq<nat>, ghost at: seq<nat>, ghost now: seq<nat>, i: nat, s: nat,
                    d: u32, here: u32, ghost theta: nat, ghost hits: seq<Hit>, ghost k: nat, ghost deleted: u32 -> bool)
    returns (s': nat, ghost now': seq<nat>)
    requires ProbeState(cs, order, at, now, i, s, d, theta, hits, k, deleted) && 0 < i <= |order| && d < EXHAUSTED
    requires ReadyIn(cs, order, i - 1, i) && d <= here == SlotDocid(Lists(cs), now, order, i - 1)
    modifies Footprint(cs)
    ensures NoErr(cs) ==> old(NoErr(cs))
    ensures ProbeState(cs, order, at, now', i - 1, s', d, theta, hits, k, deleted)
    ensures Forward(now, now')
  {
    hide TermCursor.Valid, TermCursor.At, Probing, Apart, AllWalkable, Footprint, NoErr, DocidAt, ReadyIn;
    WalkableLists(cs);
    ghost var lists, ok := Lists(cs), NoErr(cs);
    if here == d {
      OnList(lists[order[i - 1]], now[order[i - 1]], d);
      var tf;
      tf, now' := TakeIn(cs, order, i - 1, i, now);
      s' := s + tf;
      ProbeTake(lists, order, at, now, now', i, s, s', d, theta, hits, k, deleted, ok);
    } else {
      s', now' := s, now;
      ProbePass(lists, order, at, now, i, s, d, theta, hits, k, deleted, ok);
    }
  }

  /** Advance on the probed cursor. */
  method ProbeAdvance(cs: seq<TermCursor>, order: seq<nat>, ghost at: seq<nat>, ghost now: seq<nat>, i: nat,
                      ghost s: nat, d: u32, ghost theta: nat, ghost hits: seq<Hit>, ghost k: nat,
                      ghost deleted: u32 -> bool)
    returns (ghost now': seq<nat>)
    requires ProbeState(cs, order, at, now, i, s, d, theta, hits, k, deleted) && 0 < i <= |order|
    modifies Footprint(cs)
    ensures NoErr(cs) ==> old(NoErr(cs))
    ensures ProbeState(cs, order, at, now', i, s, d, theta, hits, k, deleted)
    ensures Forward(now, now') && SlotDocid(Lists(cs), now', order, i - 1) >= d
  {
    hide TermCursor.Valid, TermCursor.At, TermCursor.Ready, Left, Probing, Apart, Footprint, FirstFrom, NoErr, DocidAt,
         Walkable;
    var t := order[i - 1];
    ghost var ok := NoErr(cs);
    PositionsInLists(cs);
    now' := AdvanceOf(cs, t, d, now);
    PositionsInLists(cs);
    LandsPast(cs[t].list, now[t], now'[t], d);
    Weaken(Lists(cs), order, at, now, i, s, d, theta, hits, k, deleted, ok, NoErr(cs));
    ProbeSkip(Lists(cs), order, at, now, now', i, s, d, theta, hits, k, deleted, NoErr(cs));
  }

  lemma LandsPast(list: seq<Posting>, from: nat, p: nat, d: u32)
    requires Walkable(list) && from <= |list| && p <= |list|
    requires p == |list| || p >= FirstFrom(list, from, d)
    ensures DocidAt(list, p) >= d
  {
    FirstFromSkips(list, from, d);
    var f := FirstFrom(list, from, d);
    if f < p < |list| {
      assert list[f].docid < list[p].docid;
    }
  }

  /** Advance and then Docid on the probed cursor. */
  method BringTo(cs: seq<TermCursor>, order: seq<nat>, ghost at: seq<nat>, ghost now: seq<nat>, i: nat, ghost s: nat,
                 d: u32, ghost theta: nat, ghost hits: seq<Hit>, ghost k: nat, ghost deleted: u32 -> bool)
    returns (here: u32, ghost now': seq<nat>)
    requires ProbeState(cs, order, at, now, i, s, d, theta, hits, k, deleted) && 0 < i <= |order|
    modifies Footprint(cs)
    ensures NoErr(cs) ==> old(NoErr(cs))
    ensures ProbeState(cs, order, at, now', i, s, d, theta, hits, k, deleted) && ReadyIn(cs, order, i - 1, i)
    ensures Forward(now, now')
    ensures d <= here == SlotDocid(Lists(cs), now', order, i - 1)
  {
    hide TermCursor.Valid, TermCursor.At, TermCursor.Ready, Left, Probing, Apart, Footprint, FirstFrom, NoErr, DocidAt,
         Walkable;
    var t := order[i - 1];
    ghost var mid := ProbeAdvance(cs, order, at, now, i, s, d, theta, hits, k, deleted);
    ghost var ok := NoErr(cs);
    here := DocidOf(cs, t);
    now' := Positions(cs);
    PositionsInLists(cs);
    StaysPast(cs[t].list, mid[t], now'[t], d);
    Weaken(Lists(cs), order, at, mid, i, s, d, theta, hits, k, deleted, ok, NoErr(cs));
    ProbeMoved(Lists(cs), order, at, mid, now', i, s, d, theta, hits, k, deleted, NoErr(cs));
  }

  lemma StaysPast(list: seq<Posting>, p: nat, q: nat, d: u32)
    requires Walkable(list) && p <= q && DocidAt(list, p) >= d
    ensures DocidAt(list, q) >= d
  {
    if p < q < |list| {
      assert list[p].docid < list[q].docid;
    }
  }

  lemma ProbeMoved(lists: seq<seq<Posting>>, order: seq<nat>, at: seq<nat>, now: seq<nat>, now': seq<nat>, i: nat,
                   s: nat, d: u32, theta: nat, hits: seq<Hit>, k: nat, deleted: u32 -> bool, ok: bool)
    requires Probing(lists, order, at, now, i, s, d, theta, hits, k, deleted, ok) && i > 0
    requires Forward(now, now') && forall u :: 0 <= u < |now| && u != order[i - 1] ==> now'[u] == now[u]
    requires ok ==> now' == now
    ensures Probing(lists, order, at, now', i, s, d, theta, hits, k, deleted, ok)
  {
    hide InvBut, Left, Tf, Floor;
    assert forall j :: i <= j < |order| ==> order[j] != order[i - 1];
  }

  lemma Weaken(lists: seq<seq<Posting>>, order: seq<nat>, at: seq<nat>, now: seq<nat>, i: nat, s: nat, d: u32,
               theta: nat, hits: seq<Hit>, k: nat, deleted: u32 -> bool, ok: bool, ok': bool)
    requires Probing(lists, order, at, now, i, s, d, theta, hits, k, deleted, ok) && (ok' ==> ok)
    ensures Probing(lists, order, at, now, i, s, d, theta, hits, k, deleted, ok')
  {
  }

  /** The probes of the non-essential terms: the whole score of d, or -1 when it is shown to be at most theta. */
  method ProbeRest(cs: seq<TermCursor>, order: seq<nat>, prefix: seq<nat>, part: nat, ghost at: seq<nat>,
                   ghost now: seq<nat>, s0: nat, d: u32, theta: nat, ghost hits: seq<Hit>, ghost k: nat,
                   ghost deleted: u32 -> bool)
    returns (s: int, ghost now': seq<nat>)
    requires ProbeState(cs, order, at, now, part, s0, d, theta, hits, k, deleted) && part <= |order| && d < EXHAUSTED
    requires PrefixesOf(cs, order, prefix)
    modifies Footprint(cs)
    ensures NoErr(cs) ==> old(NoErr(cs))
    ensures AllValid(cs) && now' == Positions(cs) && Forward(now, now')
    ensures NoErr(cs) ==> InvBut(Lists(cs), now', hits, k, deleted, d)
    ensures NoErr(cs) ==> || (s == -1 && Left(Lists(cs), at, d) <= theta)
                          || (s == Left(Lists(cs), at, d) && Left(Lists(cs), now', d) == 0)
  {
    hide TermCursor.Valid, TermCursor.At, Left, InvBut, Apart, Footprint, NoErr, PrefixesOf, Probing;
    var sum := s0;
    now' := now;
    var i := part;
    while i > 0
      invariant 0 <= i <= part && Forward(now, now') && (NoErr(cs) ==> old(NoErr(cs)))
      invariant ProbeState(cs, order, at, now', i, sum, d, theta, hits, k, deleted)
      decreases i
    {
      var dropped;
      ghost var was := now';
      sum, dropped, now' := ProbeOne(cs, order, prefix, at, now', i, sum, d, theta, hits, k, deleted);
      if dropped {
        ProbingInv(Lists(cs), order, at, now', i, sum, d, theta, hits, k, deleted, NoErr(cs));
        return -1, now';
      }
      i := i - 1;
    }
    s := sum;
    ProbingInv(Lists(cs), order, at, now', 0, sum, d, theta, hits, k, deleted, NoErr(cs));
    if NoErr(cs) {
      ProbeEnd(Lists(cs), order, at, now', sum, d, theta, hits, k, deleted);
    }
  }

  lemma ProbingInv(lists: seq<seq<Posting>>, order: seq<nat>, at: seq<nat>, now: seq<nat>, i: nat, s: nat, d: u32,
                   theta: nat, hits: seq<Hit>, k: nat, deleted: u32 -> bool, ok: bool)
    requires Probing(lists, order, at, now, i, s, d, theta, hits, k, deleted, ok)
    ensures ok ==> InvBut(lists, now, hits, k, deleted, d)
  {
  }

  /** One document of the loop: gathered from the essential terms, probed in the rest, and offered. */
  method ScoreLeast(cs: seq<TermCursor>, h: Heap, order: seq<nat>, prefix: seq<nat>, part: nat, theta: nat, d: u32,
                    ghost w: nat, ghost at: seq<nat>, deleted: u32 -> bool)
    requires AllValid(cs) && Apart(cs) && h.Valid() && h !in Footprint(cs) && theta == Floor(h.hits, h.k)
    requires at == Positions(cs) && InLists(Lists(cs), at) && EssentialFrom(Lists(cs), at, order, part, d)
    requires ReadyIn(cs, order, part, |order|) && StandsOn(Lists(cs), at, order, part, w, d)
    requires PrefixesOf(cs, order, prefix) && part <= |cs| && prefix[part] <= theta
    requires NoErr(cs) ==> Inv(Lists(cs), at, h.hits, h.k, deleted)
    modifies Footprint(cs), h`hits
    ensures AllValid(cs) && h.Valid() && Forward(at, Positions(cs)) && Positions(cs)[order[w]] > at[order[w]]
    ensures NoErr(cs) ==> old(NoErr(cs)) && Inv(Lists(cs), Positions(cs), h.hits, h.k, deleted)
  {
    hide TermCursor.Valid, TermCursor.At, TermCursor.Ready, Left, Floor, Inv, InvBut, Ordered, Walkable, Offered, Apart,
         Footprint, DocidAt, EssentialFrom, Probing, Gathering;
    ghost var ok := NoErr(cs);
    var s, now := ConsumeEssential(cs, order, part, d, w, at, h.hits, h.k, deleted);
    BoundsHold(cs, order);
    ProbingStart(Lists(cs), order, part, at, now, s, d, w, theta, Bounds(cs, order), h.hits, h.k, deleted, ok);
    GatherMoved(Lists(cs), order, part, at, now, s, d, w, h.hits, h.k, deleted, ok);
    var total, now' := ProbeRest(cs, order, prefix, part, at, now, s, d, theta, h.hits, h.k, deleted);
    WalkableLists(cs);
    OfferScored(cs, h, d, total, theta, at, deleted);
  }

  lemma GatherMoved(lists: seq<seq<Posting>>, order: seq<nat>, part: nat, at: seq<nat>, now: seq<nat>, s: nat, d: u32,
                    w: nat, hits: seq<Hit>, k: nat, deleted: u32 -> bool, ok: bool)
    requires Gathering(lists, order, part, at, now, |order|, s, d, w, hits, k, deleted, ok) && part <= w < |order|
    ensures Forward(at, now) && now[order[w]] > at[order[w]]
  {
  }

  /** Nothing is left to beat theta with, from the given partition on. */
  lemma MaxFinished(cs: seq<TermCursor>, h: Heap, order: seq<nat>, prefix: seq<nat>, part: nat, theta: nat, at: seq<nat>)
    requires AllValid(cs) && h.Valid() && theta == Floor(h.hits, h.k)
    requires at == Positions(cs) && PrefixesOf(cs, order, prefix) && part <= |cs| && prefix[part] <= theta
    requires EssentialFrom(Lists(cs), at, order, part, EXHAUSTED)
    ensures Finished(cs, h)
  {
    hide TermCursor.Valid, TermCursor.At, Left, EssentialFrom, Floor, Ordered;
    PositionsInLists(cs);
    BoundsHold(cs, order);
    forall e: u32 | e < EXHAUSTED ensures Left(Lists(cs), at, e) <= theta {
      BelowEssential(Lists(cs), at, order, part, Bounds(cs, order), EXHAUSTED, theta, e);
    }
  }

  lemma NoEssential(lists: seq<seq<Posting>>, at: seq<nat>, order: seq<nat>, d: u32)
    requires |at| == |lists| && Order(order, |lists|)
    ensures EssentialFrom(lists, at, order, |lists|, d)
  {
  }

  lemma LeastMoved(lists: seq<seq<Posting>>, at0: seq<nat>, at: seq<nat>, now: seq<nat>, order: seq<nat>, part: nat, w: nat,
                   d: u32)
    requires InLists(lists, at0) && InLists(lists, at) && InLists(lists, now) && Forward(at0, at) && Forward(at, now)
    requires StandsOn(lists, at, order, part, w, d) && now[order[w]] > at[order[w]]
    ensures Rest(lists, now) < Rest(lists, at0)
  {
    hide Rest, InLists, Forward, DocidAt;
    RestDrops(lists, at0, at, now, order[w]);
  }

  /** One turn of TraverseMaxScore's loop. */
  method Turn(cs: seq<TermCursor>, h: Heap, order: seq<nat>, prefix: seq<nat>, deleted: u32 -> bool, ghost turns: nat)
    returns (more: bool)
    requires Between(cs, h, order, deleted, turns) && h !in Footprint(cs) && PrefixesOf(cs, order, prefix)
    modifies Footprint(cs), h`hits
    ensures NoErr(cs) ==> old(NoErr(cs))
    ensures Between(cs, h, order, deleted, if more then turns + 1 else turns)
    ensures !more ==> Finished(cs, h)
    ensures more ==> RestOf(cs) < old(RestOf(cs))
  {
    hide TermCursor.Valid, TermCursor.At, TermCursor.Ready, Left, Floor, Inv, Rest, Apart, Footprint, PrefixesOf, Finished,
         EssentialFrom, StandsOn, ReadyIn, InLists, Forward, Order, NoErr, TotalDf;
    ghost var lists, at0 := Lists(cs), Positions(cs);
    var theta := h.Threshold();
    PrefixStart(cs, order, prefix);
    var part := Partition(prefix, theta);
    if part >= |cs| {
      NoEssential(lists, at0, order, EXHAUSTED);
      MaxFinished(cs, h, order, prefix, part, theta, at0);
      return false;
    }
    var d, w, at := LeastEssential(cs, order, part);
    PositionsInLists(cs);
    RestNoMore(lists, at0, at);
    if d == EXHAUSTED {
      MaxFinished(cs, h, order, prefix, part, theta, at);
      return false;
    }
    ScoreLeast(cs, h, order, prefix, part, theta, d, w, at, deleted);
    PositionsInLists(cs);
    LeastMoved(lists, at0, at, Positions(cs), order, part, w, d);
    more := true;
  }

  lemma PrefixStart(cs: seq<TermCursor>, order: seq<nat>, prefix: seq<nat>)
    requires PrefixesOf(cs, order, prefix)
    ensures |prefix| == |cs| + 1 && prefix[0] == 0
  {
    assert prefix[0] == SumTo(Bounds(cs, order), 0);
  }

  /** TraverseMaxScore's loop. */
  method Turns(cs: seq<TermCursor>, h: Heap, order: seq<nat>, prefix: seq<nat>, deleted: u32 -> bool)
    returns (ghost turns: nat)
    requires Between(cs, h, order, deleted, 0) && h !in Footprint(cs) && PrefixesOf(cs, order, prefix)
    modifies Footprint(cs), h`hits
    ensures Between(cs, h, order, deleted, turns) && Finished(cs, h)
  {
    hide Between, Finished, Footprint, RestOf, PrefixesOf;
    turns := 0;
    var more := true;
    while more
      invariant Between(cs, h, order, deleted, turns)
      invariant !more ==> Finished(cs, h)
      decreases more, RestOf(cs)
    {
      more := Turn(cs, h, order, prefix, deleted, turns);
      if more {
        turns := turns + 1;
      }
    }
  }

  /**
   * serve/traverse.go TraverseMaxScore. Unless a read failed, the hits are the top k of exhaustive scoring over the
   * undeleted union; and the loop turns at most once for every posting of every term.
   */
  method TraverseMaxScore(cs: seq<TermCursor>, k: nat, deleted: u32 -> bool)
    returns (hits: seq<Hit>, err: Option<CursorError>, ghost turns: nat)
    requires AllValid(cs) && Apart(cs) && k >= 1 && Positions(cs) == Starts(|cs|)
    modifies Footprint(cs)
    ensures AllValid(cs) && (err == None <==> NoErr(cs))
    ensures err == None ==> IsTopK(Lists(cs), hits, k, deleted)
    ensures turns <= TotalDf(Lists(cs))
  {
    hide TermCursor.Valid, TermCursor.At, IsTopK, TotalDf, Apart, Between, Finished, PrefixesOf, Order;
    var h := new Heap(k);
    OutsideFootprint(cs, h);
    var order := SortByBound(cs);
    var prefix := SumPrefixes(cs, order);
    StartsBetween(cs, h, order, deleted);
    turns := Turns(cs, h, order, prefix, deleted);
    hits := Drain(cs, h, order, deleted, turns);
    err := CursorErr(cs);
  }
}
