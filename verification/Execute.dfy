/** One query over its shards, serve/server.go: execute, with executeShard and mergeHits below it. */
module Executing {
  import opened Bytes
  import opened Postings
  import opened Ranking
  import opened Cursor
  import opened DictLaws
  import opened Serve
  import opened Served
  import opened Mounting
  import opened QueryTerms

  datatype Query = Query(k: nat, candidates: nat, shards: seq<nat>, terms: seq<QueryTerm>)

  /** wire's checks on the numbers of a query. */
  predicate ValidQuery(q: Query) {
    1 <= q.k <= q.candidates && |q.terms| <= MAX_QUERY_TERMS
  }

  /** The registry: the mounted shards and what they hold. */
  ghost predicate AllServe(mounts: map<nat, Mount>, xs: map<nat, Contents>) {
    forall s :: s in mounts ==> s in xs && Serves(mounts[s], xs[s])
  }

  /** The posting lists a query reads on a mounted shard; none on any other. */
  ghost function QueryLists(q: Query, s: nat, mounts: map<nat, Mount>, xs: map<nat, Contents>): (ls: seq<seq<Posting>>)
    requires AllServe(mounts, xs)
    ensures |ls| <= |q.terms|
  {
    if s in mounts then ListsFor(Terms(xs[s].vocab), xs[s].lists, q.terms) else []
  }

  /** What a shard may answer: its own top candidates, or nothing when it is late, not mounted, or cannot be read. */
  ghost predicate Answer(q: Query, i: nat, late: bool, mounts: map<nat, Mount>, xs: map<nat, Contents>, r: Option<seq<Hit>>)
    requires AllServe(mounts, xs) && i < |q.shards|
  {
    match r
    case Some(hits) => !late && q.shards[i] in mounts
                       && IsTopK(QueryLists(q, q.shards[i], mounts, xs), hits, q.candidates, NoneDeleted)
    case None => late || q.shards[i] !in mounts || !mounts[q.shards[i]].file.AlwaysReads()
  }

  ghost predicate Answers(q: Query, late: seq<bool>, mounts: map<nat, Mount>, xs: map<nat, Contents>, rs: seq<Option<seq<Hit>>>)
    requires AllServe(mounts, xs) && |late| == |q.shards|
  {
    |rs| <= |q.shards| && forall i :: 0 <= i < |rs| ==> Answer(q, i, late[i], mounts, xs, rs[i])
  }

  /** Acquire and executeShard. */
  method RunShard(q: Query, i: nat, mounts: map<nat, Mount>, ghost xs: map<nat, Contents>) returns (r: Result<seq<Hit>, ServeError>)
    requires ValidQuery(q) && i < |q.shards| && AllServe(mounts, xs)
    ensures Answer(q, i, false, mounts, xs, if r.Ok? then Some(r.value) else None)
  {
    hide IsTopK, Serves;
    var s := q.shards[i];
    if s !in mounts {
      return Err(NotMounted);
    }
    r := ExecuteShard(mounts[s], q.terms, q.candidates, xs[s]);
  }

  /**
   * execute: shards in order, one past the time limit or with an error skipped and flagged. late says which shards the
   * clock does not reach.
   */
  method Execute(q: Query, mounts: map<nat, Mount>, late: seq<bool>, ghost xs: map<nat, Contents>)
    returns (entries: seq<Entry>, degrade: bool)
    requires ValidQuery(q) && AllServe(mounts, xs) && |late| == |q.shards|
    ensures exists rs :: |rs| == |q.shards| && Answers(q, late, mounts, xs, rs)
                         && (degrade <==> None in rs) && BestOf(entries, Union(q.shards, Values(rs)), q.k)
    ensures degrade ==> exists i :: 0 <= i < |late| && Answer(q, i, late[i], mounts, xs, None)
    ensures !degrade ==> BestOfEverything(q, mounts, xs, entries)
  {
    hide BestOf, Union, Values, Answer, AllServe, AllExhaustive, ValidQuery, Progress;
    entries, degrade := [], false;
    ghost var rs: seq<Option<seq<Hit>>> := [];
    NothingDone(q, late, mounts, xs);
    for i := 0 to |q.shards|
      invariant |rs| == i && Progress(q, late, mounts, xs, rs, entries, degrade)
    {
      if late[i] {
        LateIsSkipped(q, i, mounts, xs);
        ShardSkipped(q, late, mounts, xs, rs, entries, degrade);
        rs := rs + [None];
        degrade := true;
        continue;
      }
      var r := RunShard(q, i, mounts, xs);
      if r.Err? {
        ShardSkipped(q, late, mounts, xs, rs, entries, degrade);
        rs := rs + [None];
        degrade := true;
        continue;
      }
      BestSoFar(q, late, mounts, xs, rs, entries, degrade);
      ghost var all := Union(q.shards[..i], Values(rs));
      entries := MergeHits(entries, r.value, q.shards[i], q.k, all);
      ShardAnswered(q, late, mounts, xs, rs, all, r.value, entries, degrade);
      rs := rs + [Some(r.value)];
    }
    AllDone(q, late, mounts, xs, rs, entries, degrade);
  }

  /** After the first |rs| shards. */
  ghost predicate Progress(q: Query, late: seq<bool>, mounts: map<nat, Mount>, xs: map<nat, Contents>,
                           rs: seq<Option<seq<Hit>>>, entries: seq<Entry>, degrade: bool)
    requires AllServe(mounts, xs) && |late| == |q.shards|
  {
    && Answers(q, late, mounts, xs, rs) && (degrade <==> None in rs)
    && BestOf(entries, Union(q.shards[..|rs|], Values(rs)), q.k)
  }

  lemma NothingDone(q: Query, late: seq<bool>, mounts: map<nat, Mount>, xs: map<nat, Contents>)
    requires AllServe(mounts, xs) && |late| == |q.shards|
    ensures Progress(q, late, mounts, xs, [], [], false)
  {
    hide BestOf, AllServe, Answer;
    NoValues();
    BestOfNothing(q.k);
  }

  lemma ShardSkipped(q: Query, late: seq<bool>, mounts: map<nat, Mount>, xs: map<nat, Contents>,
                     rs: seq<Option<seq<Hit>>>, entries: seq<Entry>, degrade: bool)
    requires AllServe(mounts, xs) && |late| == |q.shards| && |rs| < |q.shards|
    requires Progress(q, late, mounts, xs, rs, entries, degrade) && Answer(q, |rs|, late[|rs|], mounts, xs, None)
    ensures Progress(q, late, mounts, xs, rs + [None], entries, true)
  {
    hide BestOf, Union, Values, Answer, AllServe;
    SkippedShard(q.shards, rs, |rs|);
    var all := rs + [None];
    assert all[|rs|] == None && forall i :: 0 <= i < |rs| ==> all[i] == rs[i];
  }

  lemma BestSoFar(q: Query, late: seq<bool>, mounts: map<nat, Mount>, xs: map<nat, Contents>,
                  rs: seq<Option<seq<Hit>>>, entries: seq<Entry>, degrade: bool)
    requires AllServe(mounts, xs) && |late| == |q.shards| && Progress(q, late, mounts, xs, rs, entries, degrade)
    ensures |rs| <= |q.shards| && BestOf(entries, Union(q.shards[..|rs|], Values(rs)), q.k)
    ensures Answers(q, late, mounts, xs, rs) && (degrade <==> None in rs)
  {
    hide BestOf, Union, Values, Answer, AllServe;
  }

  lemma ShardAnswered(q: Query, late: seq<bool>, mounts: map<nat, Mount>, xs: map<nat, Contents>, rs: seq<Option<seq<Hit>>>,
                      all: multiset<Entry>, hits: seq<Hit>, entries: seq<Entry>, degrade: bool)
    requires AllServe(mounts, xs) && |late| == |q.shards| && |rs| < |q.shards|
    requires Answers(q, late, mounts, xs, rs) && (degrade <==> None in rs)
    requires all == Union(q.shards[..|rs|], Values(rs))
    requires BestOf(entries, all + multiset(GlobalHits(q.shards[|rs|], hits)), q.k)
    requires Answer(q, |rs|, late[|rs|], mounts, xs, Some(hits))
    ensures Progress(q, late, mounts, xs, rs + [Some(hits)], entries, degrade)
  {
    hide BestOf, Union, Values, Answer, AllServe, GlobalHits;
    AnsweredShard(q.shards, rs, |rs|, hits);
    var more := rs + [Some(hits)];
    assert more[|rs|] == Some(hits) && forall i :: 0 <= i < |rs| ==> more[i] == rs[i];
  }

  lemma AllDone(q: Query, late: seq<bool>, mounts: map<nat, Mount>, xs: map<nat, Contents>,
                rs: seq<Option<seq<Hit>>>, entries: seq<Entry>, degrade: bool)
    requires ValidQuery(q) && AllServe(mounts, xs) && |late| == |q.shards| == |rs|
    requires Progress(q, late, mounts, xs, rs, entries, degrade)
    ensures Answers(q, late, mounts, xs, rs) && (degrade <==> None in rs)
    ensures BestOf(entries, Union(q.shards, Values(rs)), q.k)
    ensures degrade ==> exists i :: 0 <= i < |late| && Answer(q, i, late[i], mounts, xs, None)
    ensures !degrade ==> BestOfEverything(q, mounts, xs, entries)
  {
    hide BestOf, Union, Values, Answer, AllServe;
    assert q.shards[..|q.shards|] == q.shards;
    if degrade {
      var i :| 0 <= i < |rs| && rs[i] == None;
      assert Answer(q, i, late[i], mounts, xs, None);
    } else {
      Undegraded(q, late, mounts, xs, rs, entries);
    }
  }

  lemma NoValues()
    ensures Values([]) == [] && Union([], []) == multiset{}
  {
  }

  lemma LateIsSkipped(q: Query, i: nat, mounts: map<nat, Mount>, xs: map<nat, Contents>)
    requires AllServe(mounts, xs) && i < |q.shards|
    ensures Answer(q, i, true, mounts, xs, None)
  {
  }

  lemma SkippedShard(shards: seq<nat>, rs: seq<Option<seq<Hit>>>, i: nat)
    requires i == |rs| < |shards|
    ensures Union(shards[..i + 1], Values(rs + [None])) == Union(shards[..i], Values(rs))
  {
    assert Values(rs + [None]) == Values(rs) + [[]];
    assert shards[..i + 1][..i] == shards[..i] && (Values(rs) + [[]])[..i] == Values(rs);
    assert GlobalHits(shards[i], []) == [];
    var u := Union(shards[..i], Values(rs));
    assert u + multiset{} == u;
  }

  lemma AnsweredShard(shards: seq<nat>, rs: seq<Option<seq<Hit>>>, i: nat, hits: seq<Hit>)
    requires i == |rs| < |shards|
    ensures Union(shards[..i + 1], Values(rs + [Some(hits)]))
         == Union(shards[..i], Values(rs)) + multiset(GlobalHits(shards[i], hits))
  {
    assert Values(rs + [Some(hits)]) == Values(rs) + [hits];
    assert shards[..i + 1][..i] == shards[..i] && (Values(rs) + [hits])[..i] == Values(rs);
  }

  /** Each listed shard's lists. */
  ghost function ShardLists(q: Query, mounts: map<nat, Mount>, xs: map<nat, Contents>): (ls: seq<seq<seq<Posting>>>)
    requires AllServe(mounts, xs)
    ensures |ls| == |q.shards| && forall i :: 0 <= i < |ls| ==> ls[i] == QueryLists(q, q.shards[i], mounts, xs)
  {
    seq(|q.shards|, i requires 0 <= i < |q.shards| => QueryLists(q, q.shards[i], mounts, xs))
  }

  /** The best k of what scoring everything gives; and scoring everything does give something. */
  ghost predicate BestOfEverything(q: Query, mounts: map<nat, Mount>, xs: map<nat, Contents>, entries: seq<Entry>)
    requires AllServe(mounts, xs)
  {
    && (exists fulls :: AllExhaustive(ShardLists(q, mounts, xs), fulls, NoneDeleted))
    && forall fulls :: AllExhaustive(ShardLists(q, mounts, xs), fulls, NoneDeleted) ==>
         BestOf(entries, Union(q.shards, fulls), q.k)
  }

  /** Without a miss the entries are the best k of everything there is to find. */
  lemma Undegraded(q: Query, late: seq<bool>, mounts: map<nat, Mount>, xs: map<nat, Contents>, rs: seq<Option<seq<Hit>>>,
                   entries: seq<Entry>)
    requires ValidQuery(q) && AllServe(mounts, xs) && |late| == |q.shards| == |rs|
    requires Answers(q, late, mounts, xs, rs) && None !in rs && BestOf(entries, Union(q.shards, Values(rs)), q.k)
    ensures BestOfEverything(q, mounts, xs, entries)
  {
    hide BestOf, Union, IsTopK, AllServe, Exhaustive, Serves;
    var lists := ShardLists(q, mounts, xs);
    forall i | 0 <= i < |rs| ensures IsTopK(lists[i], Values(rs)[i], q.candidates, NoneDeleted) {
      assert rs[i] in rs;
    }
    var some := AllFull(lists, NoneDeleted);
    forall fulls | AllExhaustive(lists, fulls, NoneDeleted) ensures BestOf(entries, Union(q.shards, fulls), q.k) {
      ServedIsTopK(q.shards, lists, Values(rs), fulls, q.candidates, q.k, NoneDeleted, entries);
    }
  }

  /** A served score is a whole score: no query's lists reach the clamp. */
  lemma ServedScores(q: Query, mounts: map<nat, Mount>, xs: map<nat, Contents>, fulls: seq<seq<Hit>>, entries: seq<Entry>, e: Entry)
    requires ValidQuery(q) && AllServe(mounts, xs) && AllExhaustive(ShardLists(q, mounts, xs), fulls, NoneDeleted)
    requires BestOf(entries, Union(q.shards, fulls), q.k) && e in entries
    ensures exists i, d: u32 :: 0 <= i < |q.shards| && e.docid == q.shards[i] * 0x1_0000_0000 + d
                                && e.score == Score(QueryLists(q, q.shards[i], mounts, xs), d) > 0
  {
    hide Union, AllServe, Score, GlobalHits, QueryLists;
    assert e in multiset(entries) && e in Union(q.shards, fulls);
    var i := InSome(q.shards, fulls, e);
    var j := AtSome(q.shards[i], fulls[i], e);
    var lists := ShardLists(q, mounts, xs);
    var h := fulls[i][j];
    assert h in fulls[i] && Exhaustive(lists[i], fulls[i], NoneDeleted);
    NoClamp(lists[i], h.docid, q.shards[i]);
    assert h == Hit(h.docid, Score(lists[i], h.docid));
  }

  lemma {:induction false} InSome(shards: seq<nat>, fulls: seq<seq<Hit>>, e: Entry) returns (i: nat)
    requires |shards| == |fulls| && e in Union(shards, fulls)
    ensures i < |shards| && e in GlobalHits(shards[i], fulls[i])
    decreases |shards|
  {
    var n := |shards| - 1;
    if e in GlobalHits(shards[n], fulls[n]) {
      i := n;
    } else {
      i := InSome(shards[..n], fulls[..n], e);
    }
  }

  lemma AtSome(shard: nat, hits: seq<Hit>, e: Entry) returns (j: nat)
    requires e in GlobalHits(shard, hits)
    ensures j < |hits| && Global(shard, hits[j]) == e
  {
    j :| 0 <= j < |GlobalHits(shard, hits)| && GlobalHits(shard, hits)[j] == e;
  }
}
