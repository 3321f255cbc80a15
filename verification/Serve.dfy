/** Merging the shards' hits, serve/server.go: execute, executeShard and mergeHits. */
module Serve {
  import opened Bytes
  import opened Postings
  import opened Ranking

  const MAX_U16: int := 0xFFFF

  /** wire.ResultEntry: the shard in the high half of the docid, and a 16-bit score. */
  datatype Entry = Entry(docid: nat, score: nat)

  function Global(shard: nat, h: Hit): Entry {
    Entry(shard * 0x1_0000_0000 + h.docid, if h.score <= MAX_U16 then h.score else MAX_U16)
  }

  function GlobalHits(shard: nat, hits: seq<Hit>): (es: seq<Entry>)
    ensures |es| == |hits| && forall i :: 0 <= i < |hits| ==> es[i] == Global(shard, hits[i])
  {
    seq(|hits|, i requires 0 <= i < |hits| => Global(shard, hits[i]))
  }

  ghost predicate Descending(es: seq<Entry>) {
    forall i, j :: 0 <= i < j < |es| ==> es[i].score >= es[j].score
  }

  /** out is the best k of what it holds and what was left out: in order, full if anything was left out, none of it better. */
  ghost predicate Kept(out: seq<Entry>, rest: multiset<Entry>, k: nat) {
    && Descending(out) && |out| <= k && (rest != multiset{} ==> |out| == k)
    && forall x, y :: x in rest && y in out ==> x.score <= y.score
  }

  /** out is the best k of all, in order of descending score. */
  ghost predicate BestOf(out: seq<Entry>, all: multiset<Entry>, k: nat) {
    multiset(out) <= all && Kept(out, all - multiset(out), k)
  }

  lemma BestFrom(out: seq<Entry>, rest: multiset<Entry>, all: multiset<Entry>, k: nat)
    requires Kept(out, rest, k) && multiset(out) + rest == all
    ensures BestOf(out, all, k)
  {
    assert all - multiset(out) == rest;
  }

  /** One hit of mergeHits' loop: all is every entry offered before it. */
  method MergeOne(entries: seq<Entry>, e: Entry, k: nat, ghost all: multiset<Entry>) returns (out: seq<Entry>)
    requires BestOf(entries, all, k)
    ensures BestOf(out, all + multiset{e}, k)
  {
    hide Kept, BestOf;
    BestLength(entries, all, k);
    var i: nat := |entries|;
    while i > 0 && entries[i - 1].score < e.score
      invariant i <= |entries|
      invariant forall j :: i <= j < |entries| ==> entries[j].score < e.score
    {
      i := i - 1;
    }
    if i >= k {
      out := entries;
      BestPassed(entries, e, k, all);
    } else if |entries| < k {
      out := entries[..i] + [e] + entries[i..];
      BestInserted(entries, e, i, k, all);
    } else {
      // The slice keeps its length: the copy shifts the tail by one and the last entry falls off.
      out := entries[..i] + [e] + entries[i..k - 1];
      BestDisplaced(entries, e, i, k, all);
    }
  }

  lemma BestLength(es: seq<Entry>, all: multiset<Entry>, k: nat)
    requires BestOf(es, all, k)
    ensures |es| <= k
  {
    KeptLength(es, all - multiset(es), k);
  }

  lemma BestPassed(es: seq<Entry>, e: Entry, k: nat, all: multiset<Entry>)
    requires BestOf(es, all, k) && |es| >= k && (k > 0 ==> es[k - 1].score >= e.score)
    ensures BestOf(es, all + multiset{e}, k)
  {
    hide Kept;
    var rest := all - multiset(es);
    KeptPassed(es, e, k, rest);
    BestFrom(es, rest + multiset{e}, all + multiset{e}, k);
  }

  lemma BestInserted(es: seq<Entry>, e: Entry, i: nat, k: nat, all: multiset<Entry>)
    requires BestOf(es, all, k) && |es| < k && i <= |es|
    requires i > 0 ==> es[i - 1].score >= e.score
    requires forall j :: i <= j < |es| ==> es[j].score < e.score
    ensures BestOf(es[..i] + [e] + es[i..], all + multiset{e}, k)
  {
    hide Kept;
    var rest := all - multiset(es);
    KeptInserted(es, e, i, k, rest);
    BestFrom(es[..i] + [e] + es[i..], rest, all + multiset{e}, k);
  }

  lemma BestDisplaced(es: seq<Entry>, e: Entry, i: nat, k: nat, all: multiset<Entry>)
    requires BestOf(es, all, k) && |es| == k && i < k
    requires i > 0 ==> es[i - 1].score >= e.score
    requires forall j :: i <= j < |es| ==> es[j].score < e.score
    ensures BestOf(es[..i] + [e] + es[i..k - 1], all + multiset{e}, k)
  {
    hide Kept;
    var rest := all - multiset(es);
    var out, last := es[..i] + [e] + es[i..k - 1], multiset{es[k - 1]};
    KeptDisplaced(es, e, i, k, rest);
    assert multiset(out) + (rest + last) == (multiset(out) + last) + rest == all + multiset{e};
    BestFrom(out, rest + last, all + multiset{e}, k);
  }

  lemma KeptLength(es: seq<Entry>, rest: multiset<Entry>, k: nat)
    requires Kept(es, rest, k)
    ensures |es| <= k
  {
  }

  lemma KeptPassed(es: seq<Entry>, e: Entry, k: nat, rest: multiset<Entry>)
    requires Kept(es, rest, k) && |es| >= k && (k > 0 ==> es[k - 1].score >= e.score)
    ensures Kept(es, rest + multiset{e}, k)
  {
  }

  /** Inserting e at the place the loop stops at keeps the order. */
  lemma InsertDescends(es: seq<Entry>, e: Entry, i: nat, out: seq<Entry>)
    requires Descending(es) && i <= |es| && |out| <= |es| + 1
    requires i > 0 ==> es[i - 1].score >= e.score
    requires forall j :: i <= j < |es| ==> es[j].score < e.score
    requires forall p :: 0 <= p < |out| ==> out[p] == InsertAt(es, e, i, p)
    ensures Descending(out)
  {
    forall p, q | 0 <= p < q < |out| ensures out[p].score >= out[q].score {
      InsertPair(es, e, i, p, q);
    }
  }

  function InsertAt(es: seq<Entry>, e: Entry, i: nat, p: nat): Entry
    requires i <= |es| && p <= |es|
  {
    if p < i then es[p] else if p == i then e else es[p - 1]
  }

  lemma InsertPair(es: seq<Entry>, e: Entry, i: nat, p: nat, q: nat)
    requires Descending(es) && i <= |es| && p < q <= |es|
    requires i > 0 ==> es[i - 1].score >= e.score
    requires forall j :: i <= j < |es| ==> es[j].score < e.score
    ensures InsertAt(es, e, i, p).score >= InsertAt(es, e, i, q).score
  {
  }

  lemma KeptInserted(es: seq<Entry>, e: Entry, i: nat, k: nat, rest: multiset<Entry>)
    requires Kept(es, rest, k) && |es| < k && i <= |es|
    requires i > 0 ==> es[i - 1].score >= e.score
    requires forall j :: i <= j < |es| ==> es[j].score < e.score
    ensures var out := es[..i] + [e] + es[i..];
            Kept(out, rest, k) && multiset(out) == multiset(es) + multiset{e}
  {
    hide Descending;
    var out := es[..i] + [e] + es[i..];
    InsertDescends(es, e, i, out);
    InsertCounts(es, e, i);
    assert rest == multiset{};
  }

  lemma InsertCounts(es: seq<Entry>, e: Entry, i: nat)
    requires i <= |es|
    ensures multiset(es[..i] + [e] + es[i..]) == multiset(es) + multiset{e}
  {
    assert es == es[..i] + es[i..];
  }

  lemma DisplacedIs(es: seq<Entry>, e: Entry, i: nat, k: nat)
    requires i < k == |es|
    ensures var out := es[..i] + [e] + es[i..k - 1]; |out| == k && forall p :: 0 <= p < k ==> out[p] == InsertAt(es, e, i, p)
  {
  }

  lemma KeptDisplaced(es: seq<Entry>, e: Entry, i: nat, k: nat, rest: multiset<Entry>)
    requires Kept(es, rest, k) && |es| == k && i < k
    requires i > 0 ==> es[i - 1].score >= e.score
    requires forall j :: i <= j < |es| ==> es[j].score < e.score
    ensures var out := es[..i] + [e] + es[i..k - 1];
            && Kept(out, rest + multiset{es[k - 1]}, k)
            && multiset(out) + multiset{es[k - 1]} == multiset(es) + multiset{e}
  {
    hide Kept, Descending, InsertAt;
    var out, last := es[..i] + [e] + es[i..k - 1], es[k - 1];
    DisplacedIs(es, e, i, k);
    KeptDescends(es, rest, k);
    InsertDescends(es, e, i, out);
    InsertAbove(es, e, i, out);
    ShiftOne(es, e, i);
    DisplacedRest(es, out, e, last, rest, k);
  }

  lemma KeptDescends(es: seq<Entry>, rest: multiset<Entry>, k: nat)
    requires Kept(es, rest, k)
    ensures Descending(es)
  {
  }

  lemma InsertAbove(es: seq<Entry>, e: Entry, i: nat, out: seq<Entry>)
    requires Descending(es) && i < |es| && |out| == |es| && es[i].score < e.score
    requires forall p :: 0 <= p < |out| ==> out[p] == InsertAt(es, e, i, p)
    ensures forall p :: 0 <= p < |out| ==> es[|es| - 1].score <= out[p].score && (out[p] == e || out[p] in es)
    ensures es[|es| - 1] in es && es[|es| - 1].score < e.score
  {
    var last := es[|es| - 1];
    assert i < |es| - 1 ==> es[i].score >= last.score;
    forall p | 0 <= p < |out| ensures last.score <= out[p].score && (out[p] == e || out[p] in es) {
      if p != i {
        var q := if p < i then p else p - 1;
        assert out[p] == es[q] && es[q] in es;
      }
    }
  }

  lemma ShiftOne(es: seq<Entry>, e: Entry, i: nat)
    requires i < |es|
    ensures multiset(es[..i] + [e] + es[i..|es| - 1]) + multiset{es[|es| - 1]} == multiset(es) + multiset{e}
  {
    assert es == es[..i] + es[i..|es| - 1] + [es[|es| - 1]];
  }

  lemma DisplacedRest(es: seq<Entry>, out: seq<Entry>, e: Entry, last: Entry, rest: multiset<Entry>, k: nat)
    requires Kept(es, rest, k) && last in es && e.score > last.score && |out| == k && Descending(out)
    requires forall p :: 0 <= p < |out| ==> last.score <= out[p].score && (out[p] == e || out[p] in es)
    ensures Kept(out, rest + multiset{last}, k)
  {
    hide Descending;
    forall x, y | x in rest + multiset{last} && y in out ensures x.score <= y.score {
      var p :| 0 <= p < |out| && out[p] == y;
      assert x in rest || x == last;
      if x in rest {
        assert x.score <= last.score;
      }
    }
  }

  /** mergeHits: with these hits the entries are the best k of all that was merged. */
  method MergeHits(entries: seq<Entry>, hits: seq<Hit>, shard: nat, k: nat, ghost all: multiset<Entry>)
    returns (out: seq<Entry>)
    requires BestOf(entries, all, k)
    ensures BestOf(out, all + multiset(GlobalHits(shard, hits)), k)
  {
    hide BestOf;
    out := entries;
    ghost var es := GlobalHits(shard, hits);
    assert all + multiset(es[..0]) == all;
    for i := 0 to |hits|
      invariant BestOf(out, all + multiset(es[..i]), k)
    {
      out := MergeOne(out, Global(shard, hits[i]), k, all + multiset(es[..i]));
      assert es[..i + 1] == es[..i] + [es[i]];
      assert all + multiset(es[..i]) + multiset{es[i]} == all + multiset(es[..i + 1]);
    }
    assert es[..|hits|] == es;
  }

  /** All shards' hits, as entries. */
  function Union(shards: seq<nat>, results: seq<seq<Hit>>): multiset<Entry>
    requires |shards| == |results|
  {
    if shards == [] then multiset{}
    else Union(shards[..|shards| - 1], results[..|shards| - 1])
         + multiset(GlobalHits(shards[|shards| - 1], results[|shards| - 1]))
  }

  lemma BestOfNothing(k: nat)
    ensures BestOf([], Union([], []), k)
  {
  }

  /** What each shard contributed: nothing when it was skipped. */
  function Values(results: seq<Option<seq<Hit>>>): (vs: seq<seq<Hit>>)
    ensures |vs| == |results|
    ensures forall i :: 0 <= i < |results| ==> vs[i] == if results[i].Some? then results[i].value else []
  {
    seq(|results|, i requires 0 <= i < |results| => if results[i].Some? then results[i].value else [])
  }

  lemma {:induction false} ShardInUnion(shards: seq<nat>, results: seq<seq<Hit>>, s: nat)
    requires |shards| == |results| && s < |shards|
    ensures multiset(GlobalHits(shards[s], results[s])) <= Union(shards, results)
  {
    var n := |shards| - 1;
    if s < n {
      ShardInUnion(shards[..n], results[..n], s);
    }
  }

  /**
   * A shard that answered with its own top c, and c is at least k: no document of it that is left out of the entries
   * scores more than an entry, and leaving one out means the answer is full.
   */
  lemma NothingBetterLeftOut(shards: seq<nat>, results: seq<seq<Hit>>, s: nat, lists: seq<seq<Posting>>, c: nat,
                             k: nat, deleted: u32 -> bool, entries: seq<Entry>, d: u32)
    requires |shards| == |results| && s < |shards| && k <= c
    requires BestOf(entries, Union(shards, results), k)
    requires IsTopK(lists, results[s], c, deleted)
    requires !deleted(d) && Score(lists, d) > 0
    requires Global(shards[s], Hit(d, Score(lists, d))) !in entries
    ensures |entries| == k
    ensures forall y :: y in entries ==> y.score >= Global(shards[s], Hit(d, Score(lists, d))).score
  {
    hide Score, Kept, Union, Canonical;
    var rest := Union(shards, results) - multiset(entries);
    var me := Global(shards[s], Hit(d, Score(lists, d)));
    var mine := GlobalHits(shards[s], results[s]);
    ShardInUnion(shards, results, s);
    if InHits(results[s], d) {
      var i :| 0 <= i < |results[s]| && results[s][i].docid == d;
      assert results[s][i] in results[s] && results[s][i] == Hit(d, Score(lists, d));
      assert mine[i] == me && me in multiset(mine);
      LeftOut(entries, rest, k, me);
    } else {
      FullShard(entries, rest, k, mine, me);
    }
  }

  lemma LeftOut(entries: seq<Entry>, rest: multiset<Entry>, k: nat, x: Entry)
    requires Kept(entries, rest, k) && x in multiset(entries) + rest && x !in entries
    ensures |entries| == k && forall y :: y in entries ==> y.score >= x.score
  {
    assert x in rest;
  }

  /** A shard with at least k hits, none worse than x: the answer is full, and no entry is worse than x either. */
  lemma FullShard(entries: seq<Entry>, rest: multiset<Entry>, k: nat, mine: seq<Entry>, x: Entry)
    requires Kept(entries, rest, k) && multiset(mine) <= multiset(entries) + rest && |mine| >= k
    requires forall i :: 0 <= i < |mine| ==> mine[i].score >= x.score
    ensures |entries| == k && forall y :: y in entries ==> y.score >= x.score
  {
    if z :| z in mine && z in rest {
      assert z.score >= x.score;
    } else {
      forall z ensures multiset(mine)[z] <= multiset(entries)[z] {
        assert z in multiset(mine) ==> z in mine && z !in rest;
      }
      SameSize(multiset(mine), multiset(entries));
      assert forall y :: y in entries ==> y in multiset(mine) && y in mine;
    }
  }

  lemma SameSize(a: multiset<Entry>, b: multiset<Entry>)
    requires a <= b && |a| >= |b|
    ensures a == b
  {
    assert b == a + (b - a);
  }
}
