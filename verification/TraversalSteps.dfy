/** What one turn of a traversal does to the invariant of Ranking, on values. */
module TraversalSteps {
  import opened Bytes
  import opened Postings
  import opened Ranking
  import opened TopHeap

  /** Between turns: the heap holds true scores of consumed documents, and every document is settled at its floor. */
  ghost predicate Inv(lists: seq<seq<Posting>>, at: seq<nat>, hits: seq<Hit>, k: nat, deleted: u32 -> bool) {
    && |at| == |lists| && k >= 1
    && TrueHits(lists, hits, k, deleted)
    && (forall h :: h in hits ==> Left(lists, at, h.docid) == 0)
    && forall d: u32 :: Settled(lists, at, hits, deleted, Floor(hits, k), d)
  }

  lemma InvStart(lists: seq<seq<Posting>>, k: nat, deleted: u32 -> bool)
    requires k >= 1
    ensures Inv(lists, Starts(|lists|), [], k, deleted)
  {
    hide Score, Left, Tf;
  }

  // ----- ends of a traversal -----

  /** No document can beat the floor on what is left: every undeleted document outside the heap is at most the floor. */
  lemma InvEnd(lists: seq<seq<Posting>>, at: seq<nat>, hits: seq<Hit>, k: nat, deleted: u32 -> bool, out: seq<Hit>)
    requires Inv(lists, at, hits, k, deleted) && Ordered(hits) && AllWalkable(lists)
    requires forall d: u32 :: d < EXHAUSTED ==> Left(lists, at, d) <= Floor(hits, k)
    requires multiset(out) == multiset(hits) && |out| == |hits| && Canonical(out)
    ensures IsTopK(lists, out, k, deleted)
  {
    hide Score, Left, Ordered, Canonical, AllWalkable;
    forall h | h in out ensures h in hits && h.score >= Floor(hits, k) {
      assert h in multiset(out);
      FloorIsLeast(hits, k, h);
    }
    forall d: u32 | !deleted(d) && Score(lists, d) > 0 && !InHits(out, d)
      ensures |out| == k && forall i :: 0 <= i < |out| ==> out[i].score >= Score(lists, d)
    {
      NoSentinel(lists, d);
      SameMembers(hits, out, d);
      if Untouched(lists, at, d) {
        UntouchedScore(lists, at, d);
      }
      assert Settled(lists, at, hits, deleted, Floor(hits, k), d);
      assert Score(lists, d) <= Floor(hits, k);
      assert forall i :: 0 <= i < |out| ==> out[i] in out;
    }
  }

  lemma SameMembers(a: seq<Hit>, b: seq<Hit>, d: int)
    requires multiset(a) == multiset(b)
    ensures InHits(a, d) ==> InHits(b, d)
  {
    if InHits(a, d) {
      var i :| 0 <= i < |a| && a[i].docid == d;
      assert a[i] in multiset(a);
      HeldIn(b, a[i]);
    }
  }

  lemma NoSentinel(lists: seq<seq<Posting>>, d: u32)
    requires AllWalkable(lists) && Score(lists, d) > 0
    ensures d < EXHAUSTED
  {
    if d == EXHAUSTED {
      forall t | 0 <= t < |lists| ensures Tf(lists[t], 0, d) == 0 {
        TfNone(lists[t], 0, d);
      }
      SumTailZero(Shares(lists, Starts(|lists|), d), 0, |lists|);
    }
  }

  lemma {:induction false} TfNone(list: seq<Posting>, from: nat, d: int)
    requires forall j :: 0 <= j < |list| ==> list[j].docid != d
    ensures Tf(list, from, d) == 0
    decreases |list| - from
  {
    if from < |list| {
      TfNone(list, from + 1, d);
    }
  }

  // ----- moving over documents that cannot qualify -----

  lemma StaysConsumed(lists: seq<seq<Posting>>, at: seq<nat>, at': seq<nat>, hits: seq<Hit>)
    requires |at| == |lists| && AllWalkable(lists) && Forward(at, at')
    requires forall h :: h in hits ==> Left(lists, at, h.docid) == 0
    ensures forall h :: h in hits ==> Left(lists, at', h.docid) == 0
  {
    hide Left;
    forall h | h in hits ensures Left(lists, at', h.docid) == 0 {
      LeftShrinks(lists, at, at', h.docid);
    }
  }

  /** Advancing term t to target is safe when no document below target can beat the floor on what is left. */
  lemma SkipTo(lists: seq<seq<Posting>>, at: seq<nat>, t: nat, target: int, hits: seq<Hit>, k: nat,
               deleted: u32 -> bool)
    requires Inv(lists, at, hits, k, deleted) && AllWalkable(lists) && t < |lists| && at[t] <= |lists[t]|
    requires forall d: u32 :: d < target ==> Left(lists, at, d) <= Floor(hits, k)
    ensures Inv(lists, at[t := FirstFrom(lists[t], at[t], target)], hits, k, deleted)
  {
    hide TrueHits, Score, Left, Floor;
    StaysConsumed(lists, at, at[t := FirstFrom(lists[t], at[t], target)], hits);
    var at' := at[t := FirstFrom(lists[t], at[t], target)];
    FirstFromSkips(lists[t], at[t], target);
    forall d: u32 ensures Settled(lists, at', hits, deleted, Floor(hits, k), d) {
      if d >= target {
        TfMove(lists[t], at[t], at'[t], d);
      }
      SkipSettled(lists, at, at', hits, deleted, Floor(hits, k), d);
    }
  }

  // ----- one document scored -----

  /** The invariant for every document but d, whose postings are being consumed. */
  ghost predicate InvBut(lists: seq<seq<Posting>>, at: seq<nat>, hits: seq<Hit>, k: nat, deleted: u32 -> bool, d: u32) {
    && |at| == |lists| && k >= 1
    && TrueHits(lists, hits, k, deleted)
    && (forall h :: h in hits ==> Left(lists, at, h.docid) == 0)
    && forall e: u32 :: e != d ==> Settled(lists, at, hits, deleted, Floor(hits, k), e)
  }

  /** Consuming a posting of d: its tf leaves what is left of d, and no other document notices. */
  lemma ConsumeBut(lists: seq<seq<Posting>>, at: seq<nat>, t: nat, hits: seq<Hit>, k: nat, deleted: u32 -> bool, d: u32)
    requires InvBut(lists, at, hits, k, deleted, d) && AllWalkable(lists)
    requires t < |lists| && at[t] < |lists[t]| && lists[t][at[t]].docid == d
    ensures var at' := at[t := at[t] + 1];
            && InvBut(lists, at', hits, k, deleted, d)
            && Left(lists, at', d) + lists[t][at[t]].tf == Left(lists, at, d)
            && Tf(lists[t], at'[t], d) == 0
  {
    hide TrueHits, Score, Left, Floor;
    var at' := at[t := at[t] + 1];
    ConsumeOne(lists, at, t);
    StaysConsumed(lists, at, at', hits);
    forall e: u32 | e != d ensures Settled(lists, at', hits, deleted, Floor(hits, k), e) {
      SkipSettled(lists, at, at', hits, deleted, Floor(hits, k), e);
    }
  }

  /** Advancing a term to d while d is being scored: only documents below d are stepped over. */
  lemma SkipBut(lists: seq<seq<Posting>>, at: seq<nat>, t: nat, hits: seq<Hit>, k: nat, deleted: u32 -> bool, d: u32)
    requires InvBut(lists, at, hits, k, deleted, d) && AllWalkable(lists) && t < |lists| && at[t] <= |lists[t]|
    requires forall e: u32 :: e < d ==> Left(lists, at, e) <= Floor(hits, k)
    ensures var at' := at[t := FirstFrom(lists[t], at[t], d)];
            && InvBut(lists, at', hits, k, deleted, d)
            && Left(lists, at', d) == Left(lists, at, d)
            && Tf(lists[t], at'[t], d) == Tf(lists[t], at[t], d)
  {
    hide TrueHits, Score, Left, Floor;
    var at' := at[t := FirstFrom(lists[t], at[t], d)];
    FirstFromSkips(lists[t], at[t], d);
    StaysConsumed(lists, at, at', hits);
    TfMove(lists[t], at[t], at'[t], d);
    LeftSame(lists, at, at', d);
    forall e: u32 | e != d ensures Settled(lists, at', hits, deleted, Floor(hits, k), e) {
      if e >= d {
        TfMove(lists[t], at[t], at'[t], e);
      }
      SkipSettled(lists, at, at', hits, deleted, Floor(hits, k), e);
    }
  }

  /** d dropped: its left score could not beat the floor, so the heap stays as it is. */
  lemma DocDropped(lists: seq<seq<Posting>>, at: seq<nat>, at': seq<nat>, hits: seq<Hit>, k: nat,
                   deleted: u32 -> bool, d: u32)
    requires Inv(lists, at, hits, k, deleted) && AllWalkable(lists) && Forward(at, at')
    requires InvBut(lists, at', hits, k, deleted, d)
    requires Left(lists, at, d) <= Floor(hits, k) || deleted(d)
    ensures Inv(lists, at', hits, k, deleted)
  {
    hide TrueHits, Score, Left, Floor;
    if !deleted(d) {
      SkipSettled(lists, at, at', hits, deleted, Floor(hits, k), d);
    }
  }

  /** What a heap holds after an offer. */
  lemma OfferedMembers(hits: seq<Hit>, hits': seq<Hit>, k: nat, h: Hit)
    requires k >= 1 && Offered(hits, hits', k, h) && h.score > Floor(hits, k)
    requires Ordered(hits) && Ordered(hits')
    requires |hits| <= k && |hits'| == if |hits| < k then |hits| + 1 else k
    ensures h in hits'
    ensures forall g :: g in hits' ==> g == h || g in hits
    ensures forall g :: g in hits ==> g in hits' || g.score <= Floor(hits', k)
    ensures Floor(hits, k) <= Floor(hits', k)
  {
    assert h in multiset(hits');
    forall g | g in hits' ensures g == h || g in hits {
      assert g in multiset(hits');
      assert multiset(hits) - multiset{g} <= multiset(hits);
      if g !in hits {
        assert g !in multiset(hits);
      }
    }
    if |hits| == k {
      assert hits'[0] in hits';
      assert hits'[0] == h || hits'[0] in hits;
      if hits'[0] != h {
        FloorIsLeast(hits, k, hits'[0]);
      }
      forall g | g in hits ensures g in hits' || g.score <= Floor(hits', k) {
        assert g in multiset(hits);
        if g != hits[0] {
          assert g in multiset(hits');
        }
      }
    } else {
      forall g | g in hits ensures g in hits' {
        assert g in multiset(hits);
        assert g in multiset(hits');
      }
    }
  }

  /** A true hit for a document not yet held keeps the hits true. */
  lemma OfferedTrue(lists: seq<seq<Posting>>, hits: seq<Hit>, hits': seq<Hit>, k: nat, deleted: u32 -> bool, h: Hit)
    requires k >= 1 && Offered(hits, hits', k, h) && h.score > Floor(hits, k) && Ordered(hits) && Ordered(hits')
    requires TrueHits(lists, hits, k, deleted) && |hits'| == if |hits| < k then |hits| + 1 else k
    requires h.score == Score(lists, h.docid) && !deleted(h.docid) && !InHits(hits, h.docid)
    ensures TrueHits(lists, hits', k, deleted)
  {
    hide Score, Ordered;
    OfferedMembers(hits, hits', k, h);
    HeldIn(hits, h);
    assert h !in multiset(hits);
    forall g: Hit ensures multiset(hits')[g] <= 1 {
      assert multiset(hits)[g] <= 1;
    }
  }

  /** d scored past the floor, all its postings consumed, and offered: the invariant holds at the new floor. */
  lemma DocOffered(lists: seq<seq<Posting>>, at: seq<nat>, at': seq<nat>, hits: seq<Hit>, hits': seq<Hit>, k: nat,
                   deleted: u32 -> bool, d: u32, s: nat)
    requires Inv(lists, at, hits, k, deleted) && AllWalkable(lists) && Forward(at, at')
    requires InvBut(lists, at', hits, k, deleted, d)
    requires s == Left(lists, at, d) > Floor(hits, k) && !deleted(d) && Left(lists, at', d) == 0
    requires Offered(hits, hits', k, Hit(d, s)) && Ordered(hits) && Ordered(hits')
    requires |hits'| == if |hits| < k then |hits| + 1 else k
    ensures Inv(lists, at', hits', k, deleted)
  {
    hide Score, Left, Floor, Ordered, Offered, Untouched, AllWalkable, Tf, Forward;
    NotHeld(lists, at, hits, k, deleted, d);
    assert Settled(lists, at, hits, deleted, Floor(hits, k), d);
    FullScore(lists, at, hits, deleted, Floor(hits, k), d);
    OfferedTrue(lists, hits, hits', k, deleted, Hit(d, s));
    OfferedMembers(hits, hits', k, Hit(d, s));
    forall e: u32 ensures Settled(lists, at', hits', deleted, Floor(hits', k), e) {
      if e == d {
        HeldIn(hits', Hit(d, s));
      } else {
        StaysSettled(lists, at', hits, hits', k, deleted, e);
      }
    }
  }

  lemma HeldIn(hits: seq<Hit>, h: Hit)
    ensures h in hits ==> InHits(hits, h.docid)
  {
    if h in hits {
      var i :| 0 <= i < |hits| && hits[i] == h;
    }
  }

  /** A held document has nothing left, so one with something left is not in the heap yet. */
  lemma NotHeld(lists: seq<seq<Posting>>, at: seq<nat>, hits: seq<Hit>, k: nat, deleted: u32 -> bool, d: u32)
    requires Inv(lists, at, hits, k, deleted)
    ensures InHits(hits, d) ==> Left(lists, at, d) == 0
  {
    if InHits(hits, d) {
      var i :| 0 <= i < |hits| && hits[i].docid == d;
      assert hits[i] in hits;
    }
  }

  lemma StaysSettled(lists: seq<seq<Posting>>, at: seq<nat>, hits: seq<Hit>, hits': seq<Hit>, k: nat,
                     deleted: u32 -> bool, e: u32)
    requires |at| == |lists| && k >= 1 && Settled(lists, at, hits, deleted, Floor(hits, k), e)
    requires TrueHits(lists, hits, k, deleted)
    requires forall g :: g in hits ==> g in hits' || g.score <= Floor(hits', k)
    requires Floor(hits, k) <= Floor(hits', k)
    ensures Settled(lists, at, hits', deleted, Floor(hits', k), e)
  {
    hide Score, Floor;
    if InHits(hits, e) {
      var i :| 0 <= i < |hits| && hits[i].docid == e;
      assert hits[i] in hits;
      HeldIn(hits', hits[i]);
    }
  }

  // ----- bounds on what is left -----

  /** What is left of d is within bounds on the first m terms of an order, when the rest have nothing for it. */
  lemma LeftBounded(lists: seq<seq<Posting>>, at: seq<nat>, order: seq<nat>, m: nat, bounds: seq<nat>, d: int)
    requires |at| == |lists| && Order(order, |lists|) && m <= |order| && m <= |bounds|
    requires forall i :: 0 <= i < m ==> Tf(lists[order[i]], at[order[i]], d) <= bounds[i]
    requires forall i :: m <= i < |order| ==> Tf(lists[order[i]], at[order[i]], d) == 0
    ensures Left(lists, at, d) <= SumTo(bounds, m)
  {
    SumBoundedAlong(Shares(lists, at, d), order, m, bounds);
  }

  /** The postings still ahead, over all terms: every turn of a traversal takes at least one away. */
  function Rest(lists: seq<seq<Posting>>, at: seq<nat>): nat
    requires |at| == |lists| && forall t :: 0 <= t < |lists| ==> at[t] <= |lists[t]|
  {
    SumTo(Ahead(lists, at), |lists|)
  }

  function Ahead(lists: seq<seq<Posting>>, at: seq<nat>): (f: seq<nat>)
    requires |at| == |lists| && forall t :: 0 <= t < |lists| ==> at[t] <= |lists[t]|
    ensures |f| == |lists| && forall t :: 0 <= t < |lists| ==> f[t] == |lists[t]| - at[t]
  {
    seq(|lists|, t requires 0 <= t < |lists| && at[t] <= |lists[t]| => |lists[t]| - at[t])
  }

  lemma {:induction false} SumStrict(f: seq<nat>, g: seq<nat>, m: nat, i: nat)
    requires i < m <= |f| && m <= |g| && (forall j :: 0 <= j < m ==> f[j] <= g[j]) && f[i] < g[i]
    ensures SumTo(f, m) < SumTo(g, m)
  {
    if i < m - 1 {
      SumStrict(f, g, m - 1, i);
    } else {
      SumBelow(f, g, m - 1);
    }
  }

  lemma RestShrinks(lists: seq<seq<Posting>>, at: seq<nat>, at': seq<nat>)
    requires |at| == |lists| && Forward(at, at')
    requires forall t :: 0 <= t < |lists| ==> at'[t] <= |lists[t]|
    ensures (forall t :: 0 <= t < |lists| ==> at[t] <= |lists[t]|) && Rest(lists, at') <= Rest(lists, at)
    ensures (exists t :: 0 <= t < |lists| && at[t] < at'[t]) ==> Rest(lists, at') < Rest(lists, at)
  {
    assert forall t :: 0 <= t < |lists| ==> at[t] <= at'[t];
    SumBelow(Ahead(lists, at'), Ahead(lists, at), |lists|);
    if t :| 0 <= t < |lists| && at[t] < at'[t] {
      SumStrict(Ahead(lists, at'), Ahead(lists, at), |lists|, t);
    }
  }
}
