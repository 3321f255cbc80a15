/**
 * Ranked retrieval on values: what a traversal must return, and what may be skipped on the way.
 * A term is its postings list and a position in it; scores add up the tfs of a document.
 */
module Ranking {
  import opened Bytes
  import opened Postings

  /** serve/traverse.go Hit. */
  datatype Hit = Hit(docid: u32, score: nat)

  /** docidExhausted: above every docid that can be walked. */
  const EXHAUSTED: u32 := 0xFFFF_FFFF

  /** A list a cursor can walk: docids strictly increasing and below the sentinel, and no tf of zero. */
  ghost predicate Walkable(list: seq<Posting>) {
    && (forall i, j :: 0 <= i < j < |list| ==> list[i].docid < list[j].docid)
    && (forall i :: 0 <= i < |list| ==> list[i].docid < EXHAUSTED && list[i].tf >= 1)
  }

  // ----- one list -----

  /** What the postings from position `from` on contribute to document d. */
  function Tf(list: seq<Posting>, from: nat, d: int): nat
    decreases |list| - from
  {
    if from >= |list| then 0 else if list[from].docid == d then list[from].tf else Tf(list, from + 1, d)
  }

  /** The docid at a position, the sentinel past the end. */
  function DocidAt(list: seq<Posting>, at: nat): u32 {
    if at < |list| then list[at].docid else EXHAUSTED
  }

  /** The first position at or after `from` whose docid is at least d. */
  function FirstFrom(list: seq<Posting>, from: nat, d: int): (p: nat)
    ensures p >= from
    ensures from <= |list| ==> p <= |list|
    decreases |list| - from
  {
    if from >= |list| || list[from].docid >= d then from else FirstFrom(list, from + 1, d)
  }

  lemma {:induction false} FirstFromIs(list: seq<Posting>, from: nat, d: int, p: nat)
    requires from <= p <= |list|
    requires forall j :: from <= j < p ==> list[j].docid < d
    requires p < |list| ==> list[p].docid >= d
    ensures FirstFrom(list, from, d) == p
    decreases p - from
  {
    if from < p {
      FirstFromIs(list, from + 1, d, p);
    }
  }

  lemma {:induction false} FirstFromSkips(list: seq<Posting>, from: nat, d: int)
    ensures forall j :: from <= j < FirstFrom(list, from, d) && j < |list| ==> list[j].docid < d
    ensures FirstFrom(list, from, d) < |list| ==> list[FirstFrom(list, from, d)].docid >= d
    decreases |list| - from
  {
    if from < |list| && list[from].docid < d {
      FirstFromSkips(list, from + 1, d);
    }
  }

  lemma {:induction false} TfPast(list: seq<Posting>, from: nat, d: int)
    requires Walkable(list) && DocidAt(list, from) > d
    ensures Tf(list, from, d) == 0
    decreases |list| - from
  {
    if from < |list| {
      if from + 1 < |list| {
        assert list[from].docid < list[from + 1].docid;
      }
      TfPast(list, from + 1, d);
    }
  }

  /** Moving over postings of other documents leaves d's contribution as it was. */
  lemma {:induction false} TfMove(list: seq<Posting>, from: nat, upto: nat, d: int)
    requires from <= upto && forall j :: from <= j < upto && j < |list| ==> list[j].docid != d
    ensures Tf(list, from, d) == Tf(list, upto, d)
    decreases upto - from
  {
    if from < upto {
      TfMove(list, from + 1, upto, d);
    }
  }

  lemma {:induction false} TfShrinks(list: seq<Posting>, from: nat, upto: nat, d: int)
    requires Walkable(list) && from <= upto
    ensures Tf(list, upto, d) <= Tf(list, from, d)
    decreases upto - from
  {
    if from < upto {
      TfShrinks(list, from + 1, upto, d);
      if from < |list| && list[from].docid == d {
        TfPast(list, from + 1, d) by {
          assert from + 1 < |list| ==> list[from].docid < list[from + 1].docid;
        }
      }
    }
  }

  lemma {:induction false} TfBound(list: seq<Posting>, from: nat, d: int, b: nat)
    requires forall j :: from <= j < |list| && list[j].docid == d ==> list[j].tf <= b
    ensures Tf(list, from, d) <= b
    decreases |list| - from
  {
    if from < |list| && list[from].docid != d {
      TfBound(list, from + 1, d, b);
    }
  }

  /** Consuming the posting at a position takes away exactly what it contributed. */
  lemma TfConsume(list: seq<Posting>, at: nat)
    requires Walkable(list) && at < |list|
    ensures Tf(list, at, list[at].docid) == list[at].tf && Tf(list, at + 1, list[at].docid) == 0
  {
    assert at + 1 < |list| ==> list[at].docid < list[at + 1].docid;
    TfPast(list, at + 1, list[at].docid);
  }

  // ----- sums -----

  function SumTo(f: seq<nat>, m: nat): nat
    requires m <= |f|
  {
    if m == 0 then 0 else SumTo(f, m - 1) + f[m - 1]
  }

  lemma {:induction false} SumUpdate(f: seq<nat>, m: nat, i: nat, x: nat)
    requires i < m <= |f|
    ensures SumTo(f[i := x], m) + f[i] == SumTo(f, m) + x
  {
    if i < m - 1 {
      SumUpdate(f, m - 1, i, x);
    } else {
      SumSame(f, f[i := x], m - 1);
    }
  }

  lemma {:induction false} SumSame(f: seq<nat>, g: seq<nat>, m: nat)
    requires m <= |f| && m <= |g| && forall i :: 0 <= i < m ==> f[i] == g[i]
    ensures SumTo(f, m) == SumTo(g, m)
  {
    if m > 0 {
      SumSame(f, g, m - 1);
    }
  }

  lemma {:induction false} SumBelow(f: seq<nat>, g: seq<nat>, m: nat)
    requires m <= |f| && m <= |g| && forall i :: 0 <= i < m ==> f[i] <= g[i]
    ensures SumTo(f, m) <= SumTo(g, m)
  {
    if m > 0 {
      SumBelow(f, g, m - 1);
    }
  }

  lemma {:induction false} SumTailZero(f: seq<nat>, m: nat, n: nat)
    requires m <= n <= |f| && forall i :: m <= i < n ==> f[i] == 0
    ensures SumTo(f, n) == SumTo(f, m)
    decreases n
  {
    if m < n {
      SumTailZero(f, m, n - 1);
    }
  }

  // ----- an order of the terms -----

  /** order lists every term number below n once. */
  ghost predicate Order(order: seq<nat>, n: nat) {
    && |order| == n
    && (forall i :: 0 <= i < n ==> order[i] < n)
    && (forall i, j :: 0 <= i < j < n ==> order[i] != order[j])
    && (forall t :: 0 <= t < n ==> t in order)
  }

  /** The values of f in the given order. */
  function Along(f: seq<nat>, order: seq<nat>): (g: seq<nat>)
    requires forall i :: 0 <= i < |order| ==> order[i] < |f|
    ensures |g| == |order| && forall i :: 0 <= i < |order| ==> g[i] == f[order[i]]
  {
    seq(|order|, i requires 0 <= i < |order| => f[order[i]])
  }

  function Cleared(f: seq<nat>, order: seq<nat>, m: nat): (g: seq<nat>)
    requires m <= |order|
    ensures |g| == |f| && forall t :: 0 <= t < |f| ==> g[t] == if t in order[..m] then 0 else f[t]
  {
    seq(|f|, t requires 0 <= t < |f| => if t in order[..m] then 0 else f[t])
  }

  lemma ClearedStep(f: seq<nat>, order: seq<nat>, m: nat)
    requires Order(order, |f|) && 1 <= m <= |order|
    ensures order[m - 1] < |f| && Cleared(f, order, m) == Cleared(f, order, m - 1)[order[m - 1] := 0]
    ensures Cleared(f, order, m - 1)[order[m - 1]] == f[order[m - 1]]
    ensures SumTo(Along(f, order), m) == SumTo(Along(f, order), m - 1) + f[order[m - 1]]
  {
    var t := order[m - 1];
    assert order[..m] == order[..m - 1] + [t];
    assert t !in order[..m - 1];
  }

  lemma SplitStep(f: seq<nat>, order: seq<nat>, m: nat)
    requires Order(order, |f|) && 1 <= m <= |order|
    ensures SumTo(Along(f, order), m) + SumTo(Cleared(f, order, m), |f|)
         == SumTo(Along(f, order), m - 1) + SumTo(Cleared(f, order, m - 1), |f|)
  {
    ClearedStep(f, order, m);
    hide Order, Cleared, Along, SumTo;
    SumUpdate(Cleared(f, order, m - 1), |f|, order[m - 1], 0);
  }

  lemma NoneCleared(f: seq<nat>, order: seq<nat>)
    requires Order(order, |f|)
    ensures SumTo(f, |f|) == SumTo(Along(f, order), 0) + SumTo(Cleared(f, order, 0), |f|)
  {
    assert Cleared(f, order, 0) == f;
  }

  lemma {:induction false} SumSplit(f: seq<nat>, order: seq<nat>, m: nat)
    requires Order(order, |f|) && m <= |order|
    ensures SumTo(f, |f|) == SumTo(Along(f, order), m) + SumTo(Cleared(f, order, m), |f|)
  {
    hide Order, Cleared, Along, SumTo;
    if m == 0 {
      NoneCleared(f, order);
    } else {
      SumSplit(f, order, m - 1);
      SplitStep(f, order, m);
    }
  }

  lemma AllCleared(f: seq<nat>, order: seq<nat>)
    requires Order(order, |f|)
    ensures forall t :: 0 <= t < |f| ==> Cleared(f, order, |order|)[t] == 0
  {
    assert order[..|order|] == order;
  }

  /** Summing in any order of the terms gives the same total. */
  lemma SumAnyOrder(f: seq<nat>, order: seq<nat>)
    requires Order(order, |f|)
    ensures SumTo(Along(f, order), |f|) == SumTo(f, |f|)
  {
    SumSplit(f, order, |order|);
    AllCleared(f, order);
    hide Order;
    SumTailZero(Cleared(f, order, |order|), 0, |f|);
  }

  /** A total is at most a bound on its first m terms in some order, when the terms past them are zero. */
  lemma SumBoundedAlong(f: seq<nat>, order: seq<nat>, m: nat, bounds: seq<nat>)
    requires Order(order, |f|) && m <= |order| && m <= |bounds|
    requires forall i :: 0 <= i < m ==> f[order[i]] <= bounds[i]
    requires forall i :: m <= i < |order| ==> f[order[i]] == 0
    ensures SumTo(f, |f|) <= SumTo(bounds, m)
  {
    SumAnyOrder(f, order);
    SumTailZero(Along(f, order), m, |order|);
    SumBelow(Along(f, order), bounds, m);
  }

  // ----- scores -----

  ghost predicate AllWalkable(lists: seq<seq<Posting>>) {
    forall t :: 0 <= t < |lists| ==> Walkable(lists[t])
  }

  /** What each term still has for document d. */
  function Shares(lists: seq<seq<Posting>>, at: seq<nat>, d: int): (f: seq<nat>)
    requires |at| == |lists|
    ensures |f| == |lists| && forall t :: 0 <= t < |lists| ==> f[t] == Tf(lists[t], at[t], d)
  {
    seq(|lists|, t requires 0 <= t < |lists| => Tf(lists[t], at[t], d))
  }

  /** The score document d would get from the unconsumed postings alone. */
  function Left(lists: seq<seq<Posting>>, at: seq<nat>, d: int): nat
    requires |at| == |lists|
  {
    SumTo(Shares(lists, at, d), |lists|)
  }

  function Starts(n: nat): (at: seq<nat>)
    ensures |at| == n && forall t :: 0 <= t < n ==> at[t] == 0
  {
    seq(n, _ => 0)
  }

  /** Exhaustive scoring: every posting of d in every list. */
  function Score(lists: seq<seq<Posting>>, d: int): nat {
    Left(lists, Starts(|lists|), d)
  }

  /** Every posting of d is still ahead of its cursor. */
  ghost predicate Untouched(lists: seq<seq<Posting>>, at: seq<nat>, d: int)
    requires |at| == |lists|
  {
    forall t :: 0 <= t < |lists| ==> Tf(lists[t], at[t], d) == Tf(lists[t], 0, d)
  }

  lemma UntouchedScore(lists: seq<seq<Posting>>, at: seq<nat>, d: int)
    requires |at| == |lists| && Untouched(lists, at, d)
    ensures Left(lists, at, d) == Score(lists, d)
  {
    SumSame(Shares(lists, at, d), Shares(lists, Starts(|lists|), d), |lists|);
  }

  lemma LeftBelowScore(lists: seq<seq<Posting>>, at: seq<nat>, d: int)
    requires |at| == |lists| && AllWalkable(lists)
    ensures Left(lists, at, d) <= Score(lists, d)
  {
    forall t | 0 <= t < |lists| ensures Tf(lists[t], at[t], d) <= Tf(lists[t], 0, d) {
      TfShrinks(lists[t], 0, at[t], d);
    }
    SumBelow(Shares(lists, at, d), Shares(lists, Starts(|lists|), d), |lists|);
  }

  /** Cursors only move forward, so what is left only shrinks. */
  ghost predicate Forward(at: seq<nat>, at': seq<nat>) {
    |at| == |at'| && forall t :: 0 <= t < |at| ==> at[t] <= at'[t]
  }

  lemma LeftShrinks(lists: seq<seq<Posting>>, at: seq<nat>, at': seq<nat>, d: int)
    requires |at| == |lists| && AllWalkable(lists) && Forward(at, at')
    ensures Left(lists, at', d) <= Left(lists, at, d)
  {
    forall t | 0 <= t < |lists| ensures Tf(lists[t], at'[t], d) <= Tf(lists[t], at[t], d) {
      TfShrinks(lists[t], at[t], at'[t], d);
    }
    SumBelow(Shares(lists, at', d), Shares(lists, at, d), |lists|);
  }

  lemma LeftSame(lists: seq<seq<Posting>>, at: seq<nat>, at': seq<nat>, d: int)
    requires |at| == |at'| == |lists|
    requires forall t :: 0 <= t < |lists| ==> Tf(lists[t], at'[t], d) == Tf(lists[t], at[t], d)
    ensures Left(lists, at', d) == Left(lists, at, d)
  {
    SumSame(Shares(lists, at', d), Shares(lists, at, d), |lists|);
  }

  /** Consuming one posting of d moves its tf out of what is left and touches no other document. */
  lemma ConsumeOne(lists: seq<seq<Posting>>, at: seq<nat>, t: nat)
    requires |at| == |lists| && t < |lists| && AllWalkable(lists) && at[t] < |lists[t]|
    ensures var d, at' := lists[t][at[t]].docid, at[t := at[t] + 1];
            && Left(lists, at', d) + lists[t][at[t]].tf == Left(lists, at, d)
            && Tf(lists[t], at'[t], d) == 0
    ensures forall e: int :: e != lists[t][at[t]].docid ==> Tf(lists[t], at[t] + 1, e) == Tf(lists[t], at[t], e)
  {
    var d, at' := lists[t][at[t]].docid, at[t := at[t] + 1];
    TfConsume(lists[t], at[t]);
    var f, g := Shares(lists, at, d), Shares(lists, at', d);
    assert g == f[t := 0];
    SumUpdate(f, |f|, t, 0);
  }

  // ----- the traversal invariant -----

  ghost predicate InHits(hits: seq<Hit>, d: int) {
    exists i :: 0 <= i < |hits| && hits[i].docid == d
  }

  /** The hits are undeleted documents at their exhaustive scores, each at most once, at most k of them. */
  ghost predicate TrueHits(lists: seq<seq<Posting>>, hits: seq<Hit>, k: nat, deleted: u32 -> bool) {
    && |hits| <= k
    && (forall h :: h in hits ==> h.score == Score(lists, h.docid) && h.score > 0 && !deleted(h.docid))
    && (forall h: Hit :: multiset(hits)[h] <= 1)
  }

  /**
   * Document d is untouched, or excluded, or its score cannot beat the threshold, or it sits in the heap.
   */
  ghost predicate Settled(lists: seq<seq<Posting>>, at: seq<nat>, hits: seq<Hit>, deleted: u32 -> bool,
                          theta: nat, d: u32)
    requires |at| == |lists|
  {
    || Untouched(lists, at, d)
    || deleted(d)
    || Score(lists, d) <= theta
    || InHits(hits, d)
  }

  /** Advancing cursors over documents whose left score cannot beat theta keeps every document settled. */
  lemma SkipSettled(lists: seq<seq<Posting>>, at: seq<nat>, at': seq<nat>, hits: seq<Hit>, deleted: u32 -> bool,
                    theta: nat, d: u32)
    requires |at| == |lists| && AllWalkable(lists) && Forward(at, at')
    requires Settled(lists, at, hits, deleted, theta, d)
    requires Left(lists, at, d) <= theta
          || forall t :: 0 <= t < |lists| ==> Tf(lists[t], at'[t], d) == Tf(lists[t], at[t], d)
    ensures Settled(lists, at', hits, deleted, theta, d)
  {
    LeftShrinks(lists, at, at', d);
    if Untouched(lists, at, d) {
      UntouchedScore(lists, at, d);
    }
  }

  /** A document with postings left that scores past theta has not been touched, so what is left is its score. */
  lemma FullScore(lists: seq<seq<Posting>>, at: seq<nat>, hits: seq<Hit>, deleted: u32 -> bool, theta: nat, d: u32)
    requires |at| == |lists| && AllWalkable(lists)
    requires Settled(lists, at, hits, deleted, theta, d) && !deleted(d)
    requires Left(lists, at, d) > theta && !InHits(hits, d)
    ensures Untouched(lists, at, d) && Left(lists, at, d) == Score(lists, d)
  {
    LeftBelowScore(lists, at, d);
    UntouchedScore'(lists, at, d);
  }

  lemma UntouchedScore'(lists: seq<seq<Posting>>, at: seq<nat>, d: int)
    requires |at| == |lists|
    ensures Untouched(lists, at, d) ==> Left(lists, at, d) == Score(lists, d)
  {
    if Untouched(lists, at, d) {
      UntouchedScore(lists, at, d);
    }
  }

  // ----- the result -----

  predicate Before(a: Hit, b: Hit) {
    a.score > b.score || (a.score == b.score && a.docid <= b.docid)
  }

  /** Score descending, docid ascending. */
  ghost predicate Canonical(hits: seq<Hit>) {
    forall i, j :: 0 <= i < j < |hits| ==> Before(hits[i], hits[j])
  }

  /** The top k of exhaustive scoring over the undeleted union, in canonical order. */
  ghost predicate IsTopK(lists: seq<seq<Posting>>, hits: seq<Hit>, k: nat, deleted: u32 -> bool) {
    && TrueHits(lists, hits, k, deleted)
    && Canonical(hits)
    && forall d: u32 :: !deleted(d) && Score(lists, d) > 0 && !InHits(hits, d) ==>
         |hits| == k && forall i :: 0 <= i < |hits| ==> hits[i].score >= Score(lists, d)
  }

  function DocSet(hits: seq<Hit>): set<int> {
    set h | h in hits :: h.docid as int
  }

  lemma {:induction false} DocSetSize(hits: seq<Hit>)
    ensures |DocSet(hits)| <= |hits|
    ensures (forall i, j :: 0 <= i < j < |hits| ==> hits[i].docid != hits[j].docid) ==> |DocSet(hits)| == |hits|
  {
    if hits != [] {
      var front, last := hits[..|hits| - 1], hits[|hits| - 1];
      DocSetSize(front);
      assert hits == front + [last];
      assert DocSet(hits) == DocSet(front) + {last.docid as int};
      if forall i, j :: 0 <= i < j < |hits| ==> hits[i].docid != hits[j].docid {
        assert last.docid as int !in DocSet(front);
      }
    } else {
      assert DocSet(hits) == {};
    }
  }

  lemma CountsTwice(s: seq<Hit>, i: nat, j: nat)
    requires i < j < |s| && s[i] == s[j]
    ensures multiset(s)[s[i]] >= 2
  {
    assert s == s[..j] + s[j..];
    assert s[i] in s[..j] && s[j] in s[j..] by {
      assert s[..j][i] == s[i] && s[j..][0] == s[j];
    }
  }

  lemma TrueHitsDistinct(lists: seq<seq<Posting>>, hits: seq<Hit>, k: nat, deleted: u32 -> bool, i: nat, j: nat)
    requires TrueHits(lists, hits, k, deleted) && i < j < |hits|
    ensures hits[i].docid != hits[j].docid
  {
    hide Score;
    assert hits[i] in hits && hits[j] in hits;
    if hits[i] == hits[j] {
      CountsTwice(hits, i, j);
    }
  }

  /** More distinct documents than there are hits: one of them is not among the hits. */
  lemma OneIsMissing(lead: seq<Hit>, rest: seq<Hit>) returns (p: nat)
    requires |rest| < |lead| && forall i, j :: 0 <= i < j < |lead| ==> lead[i].docid != lead[j].docid
    ensures p < |lead| && !InHits(rest, lead[p].docid)
  {
    DocSetSize(lead);
    DocSetSize(rest);
    if DocSet(lead) <= DocSet(rest) {
      Cardinality(DocSet(lead), DocSet(rest));
    }
    forall d | InHits(rest, d) ensures d in DocSet(rest) {
      var q :| 0 <= q < |rest| && rest[q].docid == d;
      assert rest[q] in rest;
    }
    var d :| d in DocSet(lead) && d !in DocSet(rest);
    p :| 0 <= p < |lead| && lead[p].docid == d;
  }

  /** A document that would beat rank i, and is not above it, cannot be: rank i scores no less. */
  lemma NoWorseThan(lists: seq<seq<Posting>>, hits: seq<Hit>, k: nat, deleted: u32 -> bool, i: nat, d: u32)
    requires IsTopK(lists, hits, k, deleted) && i < k && !deleted(d) && Score(lists, d) > 0
    requires forall q :: 0 <= q < i && q < |hits| ==> hits[q].docid != d
    ensures i < |hits| && hits[i].score >= Score(lists, d)
  {
    hide Score;
    if InHits(hits, d) {
      var q :| 0 <= q < |hits| && hits[q].docid == d;
      assert hits[q] in hits && i <= q;
      assert i < q ==> Before(hits[i], hits[q]);
    }
  }

  lemma TopPrefix(lists: seq<seq<Posting>>, a: seq<Hit>, b: seq<Hit>, k: nat, deleted: u32 -> bool, i: nat)
    requires IsTopK(lists, a, k, deleted) && IsTopK(lists, b, k, deleted) && i < |a|
    ensures i < |b| && b[i].score >= a[i].score
  {
    hide Score, IsTopK, InHits, DocSet;
    var lead, rest := a[..i + 1], b[..if i < |b| then i else |b|];
    forall p, q | 0 <= p < q < |lead| ensures lead[p].docid != lead[q].docid {
      TopIsTrue(lists, a, k, deleted, p);
      TrueHitsDistinct(lists, a, k, deleted, p, q);
    }
    var p := OneIsMissing(lead, rest);
    TopIsTrue(lists, a, k, deleted, p);
    NotAmong(rest, a[p].docid);
    assert forall q :: 0 <= q < |rest| ==> b[q] == rest[q];
    NoWorseThan(lists, b, k, deleted, i, a[p].docid);
    if p < i {
      TopInOrder(lists, a, k, deleted, p, i);
    }
  }

  lemma NotAmong(hits: seq<Hit>, d: int)
    requires !InHits(hits, d)
    ensures forall q :: 0 <= q < |hits| ==> hits[q].docid != d
  {
  }

  lemma TopIsTrue(lists: seq<seq<Posting>>, a: seq<Hit>, k: nat, deleted: u32 -> bool, p: nat)
    requires IsTopK(lists, a, k, deleted) && p < |a|
    ensures TrueHits(lists, a, k, deleted) && |a| <= k
    ensures a[p].score == Score(lists, a[p].docid) > 0 && !deleted(a[p].docid)
  {
    hide Score;
    assert a[p] in a;
  }

  lemma TopInOrder(lists: seq<seq<Posting>>, a: seq<Hit>, k: nat, deleted: u32 -> bool, p: nat, i: nat)
    requires IsTopK(lists, a, k, deleted) && p < i < |a|
    ensures a[p].score >= a[i].score
  {
    hide Score;
    assert Before(a[p], a[i]);
  }

  lemma Cardinality<T>(a: set<T>, b: set<T>)
    requires a <= b
    ensures |a| <= |b|
  {
    assert b == a + (b - a);
  }

  /** An answer is by falling score and, at equal scores, by rising docid, and names no document twice. */
  lemma TopKInOrder(lists: seq<seq<Posting>>, hits: seq<Hit>, k: nat, deleted: u32 -> bool, i: nat, j: nat)
    requires IsTopK(lists, hits, k, deleted) && i < j < |hits|
    ensures hits[i].score > hits[j].score || (hits[i].score == hits[j].score && hits[i].docid < hits[j].docid)
  {
    hide Score;
    TrueHitsDistinct(lists, hits, k, deleted, i, j);
    assert Before(hits[i], hits[j]);
  }

  /** The top-k scores are determined: any two results that qualify have the same score at every rank. */
  lemma TopKUnique(lists: seq<seq<Posting>>, a: seq<Hit>, b: seq<Hit>, k: nat, deleted: u32 -> bool)
    requires IsTopK(lists, a, k, deleted) && IsTopK(lists, b, k, deleted)
    ensures |a| == |b| && forall i :: 0 <= i < |a| ==> a[i].score == b[i].score
  {
    hide IsTopK;
    forall i | 0 <= i < |a| ensures i < |b| && b[i].score >= a[i].score {
      TopPrefix(lists, a, b, k, deleted, i);
    }
    forall i | 0 <= i < |b| ensures i < |a| && a[i].score >= b[i].score {
      TopPrefix(lists, b, a, k, deleted, i);
    }
    if |a| > 0 {
      TopPrefix(lists, a, b, k, deleted, |a| - 1);
    }
    if |b| > 0 {
      TopPrefix(lists, b, a, k, deleted, |b| - 1);
    }
  }
}
