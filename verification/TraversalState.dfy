/** What both traversals of serve/traverse.go share: the state between turns, the offer, and the end. */
module TraversalState {
  import opened Bytes
  import opened Postings
  import opened Ranking
  import opened TopHeap
  import opened TraversalSteps
  import opened Cursor
  import opened CursorSet

  function Identity(n: nat): (order: seq<nat>)
    ensures |order| == n && forall t :: 0 <= t < n ==> order[t] == t
  {
    seq(n, i requires i >= 0 => i)
  }

  lemma IdentityOrder(n: nat)
    ensures Order(Identity(n), n)
  {
    forall t | 0 <= t < n ensures t in Identity(n) {
      assert Identity(n)[t] == t;
    }
  }

  lemma SwapOrder(order: seq<nat>, n: nat, i: nat, j: nat)
    requires Order(order, n) && i < j < n
    ensures Order(order[i := order[j]][j := order[i]], n)
  {
    var s := order[i := order[j]][j := order[i]];
    forall t | 0 <= t < n ensures t in s {
      assert t in order;
      var p :| 0 <= p < |order| && order[p] == t;
      assert s[if p == i then j else if p == j then i else p] == t;
    }
  }

  lemma WalkableLists(cs: seq<TermCursor>)
    requires AllValid(cs)
    ensures AllWalkable(Lists(cs))
  {
    hide TermCursor.Valid;
    PositionsInLists(cs);
  }

  /** The bounds of the terms in the given order. */
  ghost function Bounds(cs: seq<TermCursor>, order: seq<nat>): (b: seq<nat>)
    requires Order(order, |cs|)
    ensures |b| == |cs| && forall i :: 0 <= i < |cs| ==> b[i] == cs[order[i]].bound
  {
    seq(|cs|, i requires 0 <= i < |cs| => cs[order[i]].bound as nat)
  }

  lemma BoundsHold(cs: seq<TermCursor>, order: seq<nat>)
    requires Order(order, |cs|) && AllValid(cs)
    ensures forall i, j :: 0 <= i < |cs| && 0 <= j < |Lists(cs)[order[i]]| ==>
              Lists(cs)[order[i]][j].tf <= Bounds(cs, order)[i]
  {
    forall i, j | 0 <= i < |cs| && 0 <= j < |Lists(cs)[order[i]]|
      ensures Lists(cs)[order[i]][j].tf <= Bounds(cs, order)[i]
    {
      var c := cs[order[i]];
      assert c.Valid();
      c.BoundHolds(j);
    }
  }

  method BlockBoundOf(cs: seq<TermCursor>, t: nat, d: u32, ghost at: seq<nat>) returns (bb: byte)
    requires AllValid(cs) && t < |cs| && at == Positions(cs)
    ensures Tf(cs[t].list, at[t], d) <= bb
  {
    hide TermCursor.Valid, TermCursor.At;
    bb := cs[t].BlockBound(d);
    TfBound(cs[t].list, at[t], d, bb);
  }

  // ----- cursors taken in a given order -----

  /** The terms in slots a to b of the order have read the blocks they stand in. */
  ghost predicate ReadyIn(cs: seq<TermCursor>, order: seq<nat>, a: nat, b: nat)
    reads cs
  {
    Order(order, |cs|) && b <= |order| && forall j :: a <= j < b ==> cs[order[j]].Ready()
  }

  lemma ReadyRest(cs: seq<TermCursor>, order: seq<nat>, a: nat, b: nat)
    requires ReadyIn(cs, order, a, b) && a < b
    ensures ReadyIn(cs, order, a + 1, b)
  {
    hide TermCursor.Ready;
  }

  /** c.Docid() on the term in slot i: one more term has read its block. */
  method DocidIn(cs: seq<TermCursor>, order: seq<nat>, ghost a: nat, i: nat, ghost at: seq<nat>)
    returns (d: u32, ghost at': seq<nat>)
    requires AllValid(cs) && Apart(cs) && at == Positions(cs) && a <= i < |order| && ReadyIn(cs, order, a, i)
    modifies Footprint(cs)
    ensures AllValid(cs) && at' == Positions(cs) && ReadyIn(cs, order, a, i + 1)
    ensures Forward(at, at') && forall u :: 0 <= u < |cs| && u != order[i] ==> at'[u] == at[u]
    ensures NoErr(cs) ==> old(NoErr(cs)) && at' == at
    ensures d == DocidAt(Lists(cs)[order[i]], at'[order[i]])
  {
    hide TermCursor.Valid, TermCursor.At, TermCursor.Ready, DocidAt, NoErr;
    d := DocidOf(cs, order[i]);
    at' := Positions(cs);
  }

  /** The same on a term that has read its block: nothing moves. */
  method PeekIn(cs: seq<TermCursor>, order: seq<nat>, i: nat, ghost b: nat, ghost at: seq<nat>) returns (d: u32)
    requires AllValid(cs) && at == Positions(cs) && i < b && ReadyIn(cs, order, i, b)
    ensures d == DocidAt(Lists(cs)[order[i]], at[order[i]])
  {
    hide TermCursor.Valid, TermCursor.At, DocidAt;
    d := cs[order[i]].Peek();
  }

  /** c.Impact() and then c.Next() on the term in slot i. */
  method TakeIn(cs: seq<TermCursor>, order: seq<nat>, i: nat, ghost b: nat, ghost at: seq<nat>)
    returns (tf: byte, ghost at': seq<nat>)
    requires AllValid(cs) && Apart(cs) && at == Positions(cs) && i < b && ReadyIn(cs, order, i, b)
    requires at[order[i]] < |Lists(cs)[order[i]]|
    modifies Footprint(cs)
    ensures AllValid(cs) && at' == Positions(cs) && (NoErr(cs) <==> old(NoErr(cs))) && ReadyIn(cs, order, i + 1, b)
    ensures tf == Lists(cs)[order[i]][at[order[i]]].tf && at' == at[order[i] := at[order[i]] + 1]
  {
    hide TermCursor.Valid, TermCursor.At, TermCursor.Ready, NoErr;
    assert forall j :: i < j < b ==> order[j] != order[i];
    tf, at' := ConsumeOf(cs, order[i], at);
  }

  ghost function TotalDf(lists: seq<seq<Posting>>): nat {
    Rest(lists, Starts(|lists|))
  }

  lemma RestNoMore(lists: seq<seq<Posting>>, at0: seq<nat>, at: seq<nat>)
    requires InLists(lists, at0) && InLists(lists, at) && Forward(at0, at)
    ensures Rest(lists, at) <= Rest(lists, at0)
  {
    hide Rest, Walkable;
    RestShrinks(lists, at0, at);
  }

  /** A cursor that moved on leaves fewer postings. */
  lemma RestDrops(lists: seq<seq<Posting>>, at0: seq<nat>, at: seq<nat>, now: seq<nat>, t: nat)
    requires InLists(lists, at0) && InLists(lists, at) && InLists(lists, now) && Forward(at0, at) && Forward(at, now)
    requires t < |lists| && now[t] > at[t]
    ensures Rest(lists, now) < Rest(lists, at0)
  {
    hide Rest, Walkable;
    RestShrinks(lists, at0, at);
    RestShrinks(lists, at, now);
  }

  /** The postings that are left over all the cursors. */
  ghost function RestOf(cs: seq<TermCursor>): nat
    reads cs
  {
    if InLists(Lists(cs), Positions(cs)) then Rest(Lists(cs), Positions(cs)) else 0
  }

  /** What holds between the turns of the main loop. */
  ghost predicate Between(cs: seq<TermCursor>, h: Heap, order: seq<nat>, deleted: u32 -> bool, turns: nat)
    reads Footprint(cs), cs, h
  {
    && AllValid(cs) && Apart(cs) && h.Valid() && Order(order, |cs|)
    && InLists(Lists(cs), Positions(cs))
    && turns + RestOf(cs) <= TotalDf(Lists(cs))
    && (NoErr(cs) ==> Inv(Lists(cs), Positions(cs), h.hits, h.k, deleted))
  }

  ghost predicate Finished(cs: seq<TermCursor>, h: Heap)
    reads cs, h
  {
    h.k >= 1 && forall d: u32 :: d < EXHAUSTED ==> Left(Lists(cs), Positions(cs), d) <= Floor(h.hits, h.k)
  }

  /**
   * The end of a scoring turn: the document goes to the heap when it beats theta and is not excluded. s is its whole
   * left score, or something at most theta when that score was shown to be at most theta.
   */
  method OfferScored(cs: seq<TermCursor>, h: Heap, d: u32, s: int, theta: nat, ghost at: seq<nat>,
                     deleted: u32 -> bool)
    requires AllValid(cs) && h.Valid() && h !in Footprint(cs) && theta == Floor(h.hits, h.k)
    requires AllWalkable(Lists(cs)) && Forward(at, Positions(cs))
    requires NoErr(cs) ==> && Inv(Lists(cs), at, h.hits, h.k, deleted)
                           && InvBut(Lists(cs), Positions(cs), h.hits, h.k, deleted, d)
    requires NoErr(cs) ==> || (s <= theta && Left(Lists(cs), at, d) <= theta)
                           || (s == Left(Lists(cs), at, d) && Left(Lists(cs), Positions(cs), d) == 0)
    modifies h`hits
    ensures h.Valid() && AllValid(cs)
    ensures NoErr(cs) == old(NoErr(cs)) && Positions(cs) == old(Positions(cs))
    ensures NoErr(cs) ==> Inv(Lists(cs), Positions(cs), h.hits, h.k, deleted)
  {
    hide TermCursor.Valid, TermCursor.At, Left, Floor, Inv, InvBut, Ordered, Offered, Walkable;
    ghost var hits, now := h.hits, Positions(cs);
    if s > theta && !deleted(d) {
      h.Offer(d, s);
      if NoErr(cs) {
        DocOffered(Lists(cs), at, now, hits, h.hits, h.k, deleted, d, s);
      }
    } else if NoErr(cs) {
      DocDropped(Lists(cs), at, now, hits, h.k, deleted, d);
    }
  }

  /** cursorErr: some cursor's error, if any cursor has one. */
  method CursorErr(cs: seq<TermCursor>) returns (err: Option<CursorError>)
    ensures err == None <==> NoErr(cs)
    ensures err.Some? ==> exists t :: 0 <= t < |cs| && cs[t].err == err
  {
    for t := 0 to |cs|
      invariant forall u :: 0 <= u < t ==> cs[u].err == None
    {
      if cs[t].err.Some? {
        return cs[t].err;
      }
    }
    err := None;
  }

  /** The end of a traversal: the drained heap is the exhaustive top k. */
  method Drain(cs: seq<TermCursor>, h: Heap, ghost order: seq<nat>, deleted: u32 -> bool, ghost turns: nat)
    returns (hits: seq<Hit>)
    requires Between(cs, h, order, deleted, turns) && Finished(cs, h)
    ensures AllValid(cs) && turns <= TotalDf(Lists(cs))
    ensures NoErr(cs) ==> IsTopK(Lists(cs), hits, h.k, deleted)
  {
    hide TermCursor.Valid, TermCursor.At, Left, Floor, Inv, Ordered, Walkable, IsTopK, Canonical, Apart, TotalDf, RestOf;
    hits := h.Sorted();
    WalkableLists(cs);
    if NoErr(cs) {
      InvEnd(Lists(cs), Positions(cs), h.hits, h.k, deleted, hits);
    }
  }

  lemma StartsBetween(cs: seq<TermCursor>, h: Heap, order: seq<nat>, deleted: u32 -> bool)
    requires AllValid(cs) && Apart(cs) && h.Valid() && h.hits == [] && Order(order, |cs|)
    requires Positions(cs) == Starts(|cs|)
    ensures Between(cs, h, order, deleted, 0)
  {
    hide TermCursor.Valid, TermCursor.At, Apart, Inv, Rest, Order;
    PositionsInLists(cs);
    InvStart(Lists(cs), h.k, deleted);
  }
}
