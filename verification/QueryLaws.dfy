/** What a query asks of one shard, serve/server.go executeShard: which lists count, and what each adds to a document's score. */
module QueryLaws {
  import opened Bytes
  import opened Postings
  import opened Ranking
  import opened DictFormat
  import opened Mounting
  import opened QueryTerms

  /** n is what a list says of a document: the tf of its posting there, zero without one. */
  ghost predicate SaysOf(list: seq<Posting>, d: u32, n: nat) {
    && (forall p :: 0 <= p < |list| && list[p].docid == d ==> n == list[p].tf)
    && ((forall p :: 0 <= p < |list| ==> list[p].docid != d) ==> n == 0)
  }

  /** n is what one term of a query adds to a document: nothing for an exclusion or a term that is not indexed. */
  ghost predicate Adds(terms: seq<Term>, lists: seq<seq<Posting>>, t: QueryTerm, d: u32, n: nat)
    requires |terms| == |lists|
  {
    && (t.op == 2 || t.term !in terms ==> n == 0)
    && (forall j :: 0 <= j < |terms| && terms[j] == t.term && t.op != 2 ==> SaysOf(lists[j], d, n))
  }

  /** What an index holds: each term once, and in its list each document at most once. */
  ghost predicate Indexed(terms: seq<Term>, lists: seq<seq<Posting>>) {
    && |terms| == |lists| && AllWalkable(lists)
    && forall i, j :: 0 <= i < j < |terms| ==> terms[i] != terms[j]
  }

  lemma {:induction false} TfSays(list: seq<Posting>, from: nat, d: u32, n: nat)
    requires from <= |list| && SaysOf(list[from..], d, n)
    ensures Tf(list, from, d) == n
    decreases |list| - from
  {
    var rest := list[from..];
    if from < |list| {
      assert rest[0] == list[from];
      if list[from].docid != d {
        var more := list[from + 1..];
        assert forall p :: 0 <= p < |more| ==> more[p] == rest[p + 1];
        assert forall p :: 0 < p < |rest| ==> rest[p] == more[p - 1];
        TfSays(list, from + 1, d, n);
      }
    }
  }

  lemma {:induction false} ListOfSome(terms: seq<Term>, lists: seq<seq<Posting>>, t: Term) returns (j: nat)
    requires |terms| == |lists| && t in terms
    ensures j < |terms| && terms[j] == t && ListOf(terms, lists, t) == Some(lists[j])
  {
    j := |terms| - 1;
    if terms[j] != t {
      assert terms == terms[..j] + [terms[j]];
      j := ListOfSome(terms[..j], lists[..j], t);
    }
  }

  /** An exclusion changes nothing, and neither does a term that is not indexed: not the lists, so no answer. */
  lemma AppendNothing(terms: seq<Term>, lists: seq<seq<Posting>>, q: seq<QueryTerm>, t: QueryTerm)
    requires |terms| == |lists| && (t.op == 2 || t.term !in terms)
    ensures ListsFor(terms, lists, q + [t]) == ListsFor(terms, lists, q)
    ensures forall hits, k :: IsTopK(ListsFor(terms, lists, q + [t]), hits, k, NoneDeleted)
                         <==> IsTopK(ListsFor(terms, lists, q), hits, k, NoneDeleted)
  {
    hide IsTopK;
    assert (q + [t])[..|q|] == q;
    if t.op != 2 {
      assert forall j :: 0 <= j < |terms| ==> terms[j] in terms;
      NoListOf(terms, lists, t.term);
    }
  }

  /** Any other term that is indexed puts its list behind the others. */
  lemma AppendList(terms: seq<Term>, lists: seq<seq<Posting>>, q: seq<QueryTerm>, t: QueryTerm, j: nat)
    requires Indexed(terms, lists) && t.op != 2 && j < |terms| && terms[j] == t.term
    ensures ListsFor(terms, lists, q + [t]) == ListsFor(terms, lists, q) + [lists[j]]
  {
    hide AllWalkable;
    assert (q + [t])[..|q|] == q;
    var i := ListOfSome(terms, lists, t.term);
    assert i == j;
  }

  lemma ScoreMore(lists: seq<seq<Posting>>, list: seq<Posting>, d: int)
    ensures Score(lists + [list], d) == Score(lists, d) + Tf(list, 0, d)
  {
    var all := lists + [list];
    var f, g := Shares(all, Starts(|all|), d), Shares(lists, Starts(|lists|), d);
    SumSame(f, g, |lists|);
  }

  lemma NothingScores(d: int)
    ensures Score([], d) == 0
  {
  }

  /**
   * A document's score in an answer: position by position of the query, the tf of the term's own posting of the document,
   * with nothing from exclusions and from terms that are not indexed.
   */
  lemma {:induction false} ScoreOfQuery(terms: seq<Term>, lists: seq<seq<Posting>>, q: seq<QueryTerm>, d: u32, c: seq<nat>)
    requires |terms| == |lists| && |c| == |q| && forall i :: 0 <= i < |q| ==> Adds(terms, lists, q[i], d, c[i])
    ensures Score(ListsFor(terms, lists, q), d) == SumTo(c, |c|)
  {
    hide Adds, Score, Tf, SaysOf, ListOf;
    if q == [] {
      NothingScores(d);
    } else {
      var n := |q| - 1;
      ScoreOfQuery(terms, lists, q[..n], d, c[..n]);
      assert q == q[..n] + [q[n]];
      SumSame(c, c[..n], n);
      LastAdds(terms, lists, q[..n], q[n], d, c[n]);
    }
  }

  lemma LastAdds(terms: seq<Term>, lists: seq<seq<Posting>>, q: seq<QueryTerm>, t: QueryTerm, d: u32, n: nat)
    requires |terms| == |lists| && Adds(terms, lists, t, d, n)
    ensures Score(ListsFor(terms, lists, q + [t]), d) == Score(ListsFor(terms, lists, q), d) + n
  {
    hide Score, Tf, SaysOf, ListOf, IsTopK;
    if t.op == 2 || t.term !in terms {
      AppendNothing(terms, lists, q, t);
    } else {
      var j := ListOfSome(terms, lists, t.term);
      assert (q + [t])[..|q|] == q;
      assert SaysOf(lists[j], d, n);
      assert lists[j][0..] == lists[j];
      TfSays(lists[j], 0, d, n);
      ScoreMore(ListsFor(terms, lists, q), lists[j], d);
    }
  }

  /** And there are such numbers for every query and document of an index. */
  lemma {:induction false} EveryTermAdds(terms: seq<Term>, lists: seq<seq<Posting>>, q: seq<QueryTerm>, d: u32) returns (c: seq<nat>)
    requires Indexed(terms, lists)
    ensures |c| == |q| && forall i :: 0 <= i < |q| ==> Adds(terms, lists, q[i], d, c[i])
  {
    hide Adds;
    if q == [] {
      c := [];
    } else {
      var before := EveryTermAdds(terms, lists, q[..|q| - 1], d);
      var n := TermAdds(terms, lists, q[|q| - 1], d);
      c := before + [n];
    }
  }

  lemma TermAdds(terms: seq<Term>, lists: seq<seq<Posting>>, t: QueryTerm, d: u32) returns (n: nat)
    requires Indexed(terms, lists)
    ensures Adds(terms, lists, t, d, n)
  {
    n := 0;
    if t.op != 2 && t.term in terms {
      var j := ListOfSome(terms, lists, t.term);
      n := ListSays(lists[j], d);
      forall i | 0 <= i < |terms| && terms[i] == t.term ensures SaysOf(lists[i], d, n) {
        assert i == j;
      }
    }
  }

  lemma ListSays(list: seq<Posting>, d: u32) returns (n: nat)
    requires Walkable(list)
    ensures SaysOf(list, d, n)
  {
    n := 0;
    if p :| 0 <= p < |list| && list[p].docid == d {
      n := list[p].tf;
    }
  }
}
