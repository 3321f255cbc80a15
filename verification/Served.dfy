/** What a served answer is worth, serve/server.go: the best of every document of every listed shard. */
module Served {
  import opened Bytes
  import opened Postings
  import opened Ranking
  import opened Serve

  /** Every undeleted document with a score, each once: what scoring everything would give. */
  ghost predicate Exhaustive(lists: seq<seq<Posting>>, full: seq<Hit>, deleted: u32 -> bool) {
    && TrueHits(lists, full, |full|, deleted)
    && forall d: u32 :: !deleted(d) && Score(lists, d) > 0 ==> InHits(full, d)
  }

  /** The same for the documents below n. */
  ghost predicate ExhaustiveBelow(lists: seq<seq<Posting>>, full: seq<Hit>, deleted: u32 -> bool, n: nat) {
    && TrueHits(lists, full, |full|, deleted) && (forall h :: h in full ==> h.docid < n)
    && forall d: u32 :: d < n && !deleted(d) && Score(lists, d) > 0 ==> InHits(full, d)
  }

  lemma StillIn(full: seq<Hit>, h: Hit, d: int)
    ensures InHits(full + [h], d) <==> InHits(full, d) || d == h.docid
  {
    var more := full + [h];
    assert more[|full|] == h;
    if InHits(full, d) {
      var i :| 0 <= i < |full| && full[i].docid == d;
      assert more[i].docid == d;
    }
  }

  lemma {:induction false} SomeBelow(lists: seq<seq<Posting>>, deleted: u32 -> bool, n: nat) returns (full: seq<Hit>)
    requires n <= 0x1_0000_0000
    ensures ExhaustiveBelow(lists, full, deleted, n)
  {
    hide Score, InHits;
    full := [];
    if n > 0 {
      var d: u32 := n - 1;
      full := SomeBelow(lists, deleted, n - 1);
      if !deleted(d) && Score(lists, d) > 0 {
        var h := Hit(d, Score(lists, d));
        assert h !in full && multiset(full + [h]) == multiset(full) + multiset{h};
        forall e ensures InHits(full + [h], e) <==> InHits(full, e) || e == h.docid {
          StillIn(full, h, e);
        }
        full := full + [h];
      }
    }
  }

  /** Exhaustive scoring always has a result. */
  lemma SomeFull(lists: seq<seq<Posting>>, deleted: u32 -> bool) returns (full: seq<Hit>)
    ensures Exhaustive(lists, full, deleted)
  {
    full := SomeBelow(lists, deleted, 0x1_0000_0000);
  }

  // ----- multisets of hits -----

  lemma LessOne(a: multiset<Hit>, b: multiset<Hit>, h: Hit)
    requires a + multiset{h} <= b + multiset{h}
    ensures a <= b
  {
    forall x ensures a[x] <= b[x] {
      assert (a + multiset{h})[x] <= (b + multiset{h})[x];
    }
  }

  function Without<T>(s: seq<T>, j: nat): (t: seq<T>)
    requires j < |s|
    ensures |t| == |s| - 1
  {
    s[..j] + s[j + 1..]
  }

  lemma TakeOut<T>(s: seq<T>, j: nat)
    requires j < |s|
    ensures multiset(s) == multiset(Without(s, j)) + multiset{s[j]}
  {
    assert s == s[..j] + [s[j]] + s[j + 1..];
  }

  lemma GlobalTakeOut(shard: nat, s: seq<Hit>, j: nat)
    requires j < |s|
    ensures multiset(GlobalHits(shard, s)) == multiset(GlobalHits(shard, Without(s, j))) + multiset{Global(shard, s[j])}
  {
    TakeOut(GlobalHits(shard, s), j);
    assert GlobalHits(shard, Without(s, j)) == Without(GlobalHits(shard, s), j);
  }

  lemma OneLess(a: seq<Hit>, b: seq<Hit>, j: nat)
    requires a != [] && j < |b| && b[j] == a[0] && multiset(a) <= multiset(b)
    ensures multiset(Without(a, 0)) <= multiset(Without(b, j))
  {
    hide Without;
    TakeOut(a, 0);
    TakeOut(b, j);
    LessOne(multiset(Without(a, 0)), multiset(Without(b, j)), a[0]);
  }

  lemma GlobalBack(shard: nat, a: seq<Hit>, b: seq<Hit>, j: nat)
    requires a != [] && j < |b| && b[j] == a[0]
    requires multiset(GlobalHits(shard, Without(a, 0))) <= multiset(GlobalHits(shard, Without(b, j)))
    ensures multiset(GlobalHits(shard, a)) <= multiset(GlobalHits(shard, b))
  {
    hide Without, GlobalHits, Global;
    GlobalTakeOut(shard, a, 0);
    GlobalTakeOut(shard, b, j);
  }

  lemma {:induction false} MapSubset(shard: nat, a: seq<Hit>, b: seq<Hit>)
    requires multiset(a) <= multiset(b)
    ensures multiset(GlobalHits(shard, a)) <= multiset(GlobalHits(shard, b))
    decreases |a|
  {
    hide GlobalHits, Without;
    if a == [] {
      NothingGlobal(shard);
    } else {
      assert a[0] in multiset(a) && a[0] in b;
      var j :| 0 <= j < |b| && b[j] == a[0];
      OneLess(a, b, j);
      MapSubset(shard, Without(a, 0), Without(b, j));
      GlobalBack(shard, a, b, j);
    }
  }

  lemma NothingGlobal(shard: nat)
    ensures GlobalHits(shard, []) == []
  {
  }

  lemma HitsWithin(lists: seq<seq<Posting>>, hits: seq<Hit>, k: nat, full: seq<Hit>, deleted: u32 -> bool)
    requires TrueHits(lists, hits, k, deleted) && Exhaustive(lists, full, deleted)
    ensures multiset(hits) <= multiset(full)
  {
    hide Score;
    forall h: Hit ensures multiset(hits)[h] <= multiset(full)[h] {
      if h in multiset(hits) {
        assert h in hits;
        var i :| 0 <= i < |full| && full[i].docid == h.docid;
        assert full[i] in full && full[i] == h;
      }
    }
  }

  lemma {:induction false} AtMostOnce(shard: nat, hits: seq<Hit>, x: Entry)
    requires forall i, j :: 0 <= i < j < |hits| ==> hits[i].docid != hits[j].docid
    ensures multiset(GlobalHits(shard, hits))[x] <= 1
  {
    if hits != [] {
      var n := |hits| - 1;
      AtMostOnce(shard, hits[..n], x);
      assert GlobalHits(shard, hits) == GlobalHits(shard, hits[..n]) + [Global(shard, hits[n])];
      forall i | 0 <= i < n ensures GlobalHits(shard, hits[..n])[i] != Global(shard, hits[n]) {
        assert hits[..n][i].docid == hits[i].docid;
      }
    }
  }

  /** A document that exhaustive scoring has and the shard's answer lacks: the answer is full of hits no worse. */
  lemma LeftBehind(lists: seq<seq<Posting>>, hits: seq<Hit>, c: nat, full: seq<Hit>, deleted: u32 -> bool, shard: nat, x: Entry)
    requires IsTopK(lists, hits, c, deleted) && Exhaustive(lists, full, deleted)
    requires multiset(GlobalHits(shard, full))[x] > multiset(GlobalHits(shard, hits))[x]
    ensures |hits| == c && forall i :: 0 <= i < |hits| ==> GlobalHits(shard, hits)[i].score >= x.score
  {
    hide Score, Canonical;
    forall i, j | 0 <= i < j < |full| ensures full[i].docid != full[j].docid {
      TrueHitsDistinct(lists, full, |full|, deleted, i, j);
    }
    AtMostOnce(shard, full, x);
    assert x in GlobalHits(shard, full) && x !in GlobalHits(shard, hits);
    var i :| 0 <= i < |full| && GlobalHits(shard, full)[i] == x;
    var h := full[i];
    assert h in full;
    forall j | 0 <= j < |hits| ensures hits[j].docid != h.docid {
      assert hits[j] in hits && GlobalHits(shard, hits)[j] in GlobalHits(shard, hits);
    }
    assert !InHits(hits, h.docid);
  }

  // ----- all shards -----

  /** Every shard answered with its own top c. */
  ghost predicate AllTop(lists: seq<seq<seq<Posting>>>, results: seq<seq<Hit>>, c: nat, deleted: u32 -> bool) {
    |results| == |lists| && forall i :: 0 <= i < |lists| ==> IsTopK(lists[i], results[i], c, deleted)
  }

  ghost predicate AllExhaustive(lists: seq<seq<seq<Posting>>>, fulls: seq<seq<Hit>>, deleted: u32 -> bool) {
    |fulls| == |lists| && forall i :: 0 <= i < |lists| ==> Exhaustive(lists[i], fulls[i], deleted)
  }

  lemma {:induction false} AllFull(lists: seq<seq<seq<Posting>>>, deleted: u32 -> bool) returns (fulls: seq<seq<Hit>>)
    ensures AllExhaustive(lists, fulls, deleted)
  {
    hide Exhaustive;
    fulls := [];
    if lists != [] {
      fulls := AllFull(lists[..|lists| - 1], deleted);
      var full := SomeFull(lists[|lists| - 1], deleted);
      fulls := fulls + [full];
    }
  }

  lemma {:induction false} UnionWithin(shards: seq<nat>, results: seq<seq<Hit>>, fulls: seq<seq<Hit>>)
    requires |shards| == |results| == |fulls|
    requires forall i :: 0 <= i < |shards| ==> multiset(results[i]) <= multiset(fulls[i])
    ensures Union(shards, results) <= Union(shards, fulls)
  {
    if shards != [] {
      var n := |shards| - 1;
      UnionWithin(shards[..n], results[..n], fulls[..n]);
      MapSubset(shards[n], results[n], fulls[n]);
    }
  }

  /** What the union of the answers lacks, some shard's answer lacks. */
  lemma {:induction false} LackedBySome(shards: seq<nat>, results: seq<seq<Hit>>, fulls: seq<seq<Hit>>, x: Entry) returns (s: nat)
    requires |shards| == |results| == |fulls| && Union(shards, fulls)[x] > Union(shards, results)[x]
    ensures s < |shards|
    ensures multiset(GlobalHits(shards[s], fulls[s]))[x] > multiset(GlobalHits(shards[s], results[s]))[x]
    decreases |shards|
  {
    var n := |shards| - 1;
    if multiset(GlobalHits(shards[n], fulls[n]))[x] > multiset(GlobalHits(shards[n], results[n]))[x] {
      s := n;
    } else {
      s := LackedBySome(shards[..n], results[..n], fulls[..n], x);
    }
  }

  /** A full shard: if one shard holds k or more hits no worse than x, so does the answer. */
  lemma NoBetter(shards: seq<nat>, results: seq<seq<Hit>>, s: nat, c: nat, k: nat, entries: seq<Entry>, x: Entry)
    requires |shards| == |results| && s < |shards| && k <= c && |results[s]| == c
    requires BestOf(entries, Union(shards, results), k)
    requires forall i :: 0 <= i < c ==> GlobalHits(shards[s], results[s])[i].score >= x.score
    ensures |entries| == k && forall y :: y in entries ==> y.score >= x.score
  {
    hide Kept, Union, GlobalHits;
    var rest := Union(shards, results) - multiset(entries);
    ShardInUnion(shards, results, s);
    SameLength(shards[s], results[s]);
    FullShard(entries, rest, k, GlobalHits(shards[s], results[s]), x);
  }

  lemma SameLength(shard: nat, hits: seq<Hit>)
    ensures |GlobalHits(shard, hits)| == |hits|
  {
  }

  /**
   * No shard missed, and every shard's own candidates at least k: the entries are the best k of every scoring document
   * of every listed shard.
   */
  lemma ServedIsTopK(shards: seq<nat>, lists: seq<seq<seq<Posting>>>, results: seq<seq<Hit>>, fulls: seq<seq<Hit>>, c: nat,
                     k: nat, deleted: u32 -> bool, entries: seq<Entry>)
    requires |shards| == |lists| && k <= c
    requires AllTop(lists, results, c, deleted) && AllExhaustive(lists, fulls, deleted)
    requires BestOf(entries, Union(shards, results), k)
    ensures BestOf(entries, Union(shards, fulls), k)
  {
    hide Union, GlobalHits, IsTopK, Exhaustive, Descending;
    forall i | 0 <= i < |shards| ensures multiset(results[i]) <= multiset(fulls[i]) {
      TopIsTrue(lists[i], results[i], c, deleted);
      HitsWithin(lists[i], results[i], c, fulls[i], deleted);
    }
    UnionWithin(shards, results, fulls);
    var rest := Union(shards, fulls) - multiset(entries);
    forall x | x in rest ensures |entries| == k && forall y :: y in entries ==> y.score >= x.score {
      if Union(shards, fulls)[x] > Union(shards, results)[x] {
        var s := LackedBySome(shards, results, fulls, x);
        LeftBehind(lists[s], results[s], c, fulls[s], deleted, shards[s], x);
        NoBetter(shards, results, s, c, k, entries, x);
      } else {
        assert x in Union(shards, results) - multiset(entries);
      }
    }
  }

  lemma TopIsTrue(lists: seq<seq<Posting>>, hits: seq<Hit>, c: nat, deleted: u32 -> bool)
    requires IsTopK(lists, hits, c, deleted)
    ensures TrueHits(lists, hits, c, deleted)
  {
  }

  // ----- the scores are determined -----

  lemma SizeWithin(a: multiset<Entry>, b: multiset<Entry>)
    requires a <= b
    ensures |a| <= |b|
  {
    assert b == a + (b - a);
  }

  lemma OneMore(lead: multiset<Entry>, rest: multiset<Entry>) returns (x: Entry)
    requires |rest| < |lead|
    ensures lead[x] > rest[x]
  {
    if lead <= rest {
      SizeWithin(lead, rest);
    }
    x :| lead[x] > rest[x];
  }

  lemma InLead(a: seq<Entry>, i: nat, x: Entry)
    requires Descending(a) && i < |a| && x in a[..i + 1]
    ensures x.score >= a[i].score
  {
    var p :| 0 <= p <= i && a[..i + 1][p] == x;
    assert a[p] == x;
  }

  lemma InRest(b: seq<Entry>, m: nat, x: Entry)
    requires Descending(b) && m <= |b| && x in b[m..]
    ensures m < |b| && b[m].score >= x.score
  {
    var q :| 0 <= q < |b[m..]| && b[m..][q] == x;
    assert b[m + q] == x;
  }

  lemma BestParts(b: seq<Entry>, all: multiset<Entry>, k: nat)
    requires BestOf(b, all, k)
    ensures Descending(b) && |b| <= k && multiset(b) <= all
    ensures forall x :: x in all - multiset(b) ==> |b| == k && forall y :: y in b ==> y.score >= x.score
  {
    hide Descending;
  }

  lemma BestPrefix(a: seq<Entry>, b: seq<Entry>, all: multiset<Entry>, k: nat, i: nat)
    requires BestOf(a, all, k) && BestOf(b, all, k) && i < |a|
    ensures i < |b| && b[i].score >= a[i].score
  {
    hide BestOf, Descending;
    BestParts(a, all, k);
    BestParts(b, all, k);
    var m := if i < |b| then i else |b|;
    assert multiset(a) == multiset(a[..i + 1]) + multiset(a[i + 1..]) by {
      assert a == a[..i + 1] + a[i + 1..];
    }
    assert multiset(b) == multiset(b[..m]) + multiset(b[m..]) by {
      assert b == b[..m] + b[m..];
    }
    var x := OneMore(multiset(a[..i + 1]), multiset(b[..m]));
    assert x in a[..i + 1];
    InLead(a, i, x);
    if x in b[m..] {
      InRest(b, m, x);
    } else {
      assert multiset(b[m..])[x] == 0;
      assert x in all - multiset(b);
      assert b[i] in b;
    }
  }

  /** Two answers that are the best k of the same entries have the same score at every position. */
  lemma BestUnique(a: seq<Entry>, b: seq<Entry>, all: multiset<Entry>, k: nat)
    requires BestOf(a, all, k) && BestOf(b, all, k)
    ensures |a| == |b| && forall i :: 0 <= i < |a| ==> a[i].score == b[i].score
  {
    hide BestOf;
    forall i | 0 <= i < |a| ensures i < |b| && b[i].score >= a[i].score {
      BestPrefix(a, b, all, k, i);
    }
    forall i | 0 <= i < |b| ensures i < |a| && a[i].score >= b[i].score {
      BestPrefix(b, a, all, k, i);
    }
    if |a| > 0 {
      BestPrefix(a, b, all, k, |a| - 1);
    }
    if |b| > 0 {
      BestPrefix(b, a, all, k, |b| - 1);
    }
  }

  // ----- the 16-bit score -----

  lemma {:induction false} SumWithin(f: seq<nat>, m: nat, b: nat)
    requires m <= |f| && forall i :: 0 <= i < m ==> f[i] <= b
    ensures SumTo(f, m) <= m * b
  {
    if m > 0 {
      SumWithin(f, m - 1, b);
      assert m * b == (m - 1) * b + b;
    }
  }

  /** With at most 32 terms the clamp to 16 bits never bites: the served score is the document's score. */
  lemma NoClamp(lists: seq<seq<Posting>>, d: u32, shard: nat)
    requires |lists| <= 32
    ensures Score(lists, d) <= 8160 && Global(shard, Hit(d, Score(lists, d))).score == Score(lists, d)
  {
    var f := Shares(lists, Starts(|lists|), d);
    forall t | 0 <= t < |lists| ensures f[t] <= 255 {
      TfBound(lists[t], 0, d, 255);
    }
    SumWithin(f, |lists|, 255);
    assert |lists| * 255 <= 8160;
  }
}
