/** Running a query on one shard, serve/worker.go OpenTerm and serve/server.go executeShard. */
module QueryTerms {
  import opened Bytes
  import opened Postings
  import opened Ranking
  import opened Cursor
  import opened CursorSet
  import opened DictFormat
  import opened DictReading
  import opened DictLaws
  import opened Worker
  import opened Mounting

  const OP_NOT: byte := 2
  /** The root's parse cap, and the number of a worker's slots. */
  const MAX_QUERY_TERMS: nat := 32

  datatype QueryTerm = QueryTerm(term: Term, op: byte)

  datatype ServeError = TooManyTerms | NotMounted | TermError(cause: CursorError)

  /** OpenTerm with its slot check and lookup: a cursor over the term's list, or none when there is no such list. */
  method OpenQueryTerm(m: Mount, q: Term, open: nat, ghost x: Contents) returns (r: Result<Option<TermCursor>, ServeError>)
    requires Serves(m, x)
    ensures r == Ok(None) ==> ListOf(Terms(x.vocab), x.lists, q) == None
    ensures r.Ok? && r.value.Some? ==>
              var c := r.value.value;
              && c.Valid() && fresh(c.Repr()) && c.At() == 0 && c.err == None && c.file == m.file
              && ListOf(Terms(x.vocab), x.lists, q) == Some(c.list)
    ensures r.Err? ==> open >= MAX_QUERY_TERMS || !m.file.AlwaysReads()
  {
    hide Vocabulary, Sized, DictOf, Stored, Opened, Find, Less, SeekIn, ScanFor, ListOf;
    var v := x.vocab;
    if open >= MAX_QUERY_TERMS {
      return Err(TooManyTerms);
    }
    SealedShort(v);
    SealedIsOpened(v);
    var found := LookupInto(m.dict, q);
    WalkFinds(v, q, found);
    ghost var i := Found(v, q);
    if found.value.None? {
      forall t | t in Terms(v) ensures t != q {
        var j :| 0 <= j < |v| && Terms(v)[j] == t;
      }
      NoListOf(Terms(v), x.lists, q);
      return Ok(None);
    }
    ListOfIs(v, x.lists, q, i);
    var c := OpenTerm(m.file, found.value.value, m.skipsOff, m.postingsOff, x.lists[i], x.poss[i]);
    if c.Err? {
      return Err(TermError(c.error));
    }
    return Ok(Some(c.value));
  }

  /** The lists of a query's positive terms, absent ones left out. */
  function ListsFor(terms: seq<Term>, lists: seq<seq<Posting>>, q: seq<QueryTerm>): (ls: seq<seq<Posting>>)
    requires |terms| == |lists|
    ensures |ls| <= |q|
  {
    if q == [] then []
    else
      var rest, t := ListsFor(terms, lists, q[..|q| - 1]), q[|q| - 1];
      if t.op == OP_NOT then rest
      else
        match ListOf(terms, lists, t.term)
        case None => rest
        case Some(list) => rest + [list]
  }

  /** No exclusions: this slice of the server passes none. */
  function NoneDeleted(d: u32): bool {
    false
  }

  /** Cursors just opened, over these lists, in this file. */
  ghost predicate JustOpened(cs: seq<TermCursor>, lists: seq<seq<Posting>>, file: File)
    reads Footprint(cs)
  {
    && AllValid(cs) && Apart(cs) && Lists(cs) == lists
    && forall t :: 0 <= t < |cs| ==> cs[t].At() == 0 && cs[t].file == file
  }

  /** executeShard on a mounted shard: the exact top candidates over the lists of the positive terms. */
  method ExecuteShard(m: Mount, terms: seq<QueryTerm>, candidates: nat, ghost x: Contents) returns (r: Result<seq<Hit>, ServeError>)
    requires Serves(m, x) && candidates >= 1
    ensures r.Ok? ==> IsTopK(ListsFor(Terms(x.vocab), x.lists, terms), r.value, candidates, NoneDeleted)
    ensures r.Err? ==> |terms| > MAX_QUERY_TERMS || !m.file.AlwaysReads()
  {
    hide IsTopK, TermCursor.Valid, TermCursor.At, Serves, ListOf;
    ServesParallel(m, x);
    var cs := OpenAll(m, terms, x);
    if cs.Err? {
      return Err(cs.error);
    }
    if |cs.value| == 0 {
      NothingToFind(candidates);
      assert Lists(cs.value) == [];
      return Ok([]);
    }
    assert Positions(cs.value) == Starts(|cs.value|);
    var hits, err := Traverse(cs.value, candidates, NoneDeleted);
    if err.Some? {
      return Err(TermError(err.value));
    }
    return Ok(hits);
  }

  lemma ServesParallel(m: Mount, x: Contents)
    requires Serves(m, x)
    ensures |x.lists| == |Terms(x.vocab)|
  {
  }

  /** One positive term: its cursor joins the others, unless the term is absent. */
  method OpenNext(m: Mount, q: Term, cs: seq<TermCursor>, ghost lists: seq<seq<Posting>>, ghost x: Contents)
    returns (r: Result<seq<TermCursor>, ServeError>)
    requires Serves(m, x) && |x.lists| == |Terms(x.vocab)| && JustOpened(cs, lists, m.file)
    ensures r.Ok? ==> |r.value| <= |cs| + 1 && forall o :: o in Footprint(r.value) ==> o in Footprint(cs) || fresh(o)
    ensures r.Ok? ==> var list := ListOf(Terms(x.vocab), x.lists, q);
                      JustOpened(r.value, if list.Some? then lists + [list.value] else lists, m.file)
    ensures r.Err? ==> |cs| >= MAX_QUERY_TERMS || !m.file.AlwaysReads()
  {
    hide TermCursor.Valid, TermCursor.At, Serves, ListOf;
    var c := OpenQueryTerm(m, q, |cs|, x);
    if c.Err? {
      return Err(c.error);
    }
    if c.value.None? {
      return Ok(cs);
    }
    var ds := cs + [c.value.value];
    forall t | 0 <= t < |cs| ensures ds[t].Valid() && ds[t].At() == 0 {
      assert old(cs[t].Valid());
    }
    ListsMore(cs, c.value.value);
    return Ok(ds);
  }

  lemma ListsMore(cs: seq<TermCursor>, c: TermCursor)
    ensures Lists(cs + [c]) == Lists(cs) + [c.list] && (cs + [c])[..|cs|] == cs
  {
  }

  method OpenAll(m: Mount, terms: seq<QueryTerm>, ghost x: Contents) returns (r: Result<seq<TermCursor>, ServeError>)
    requires Serves(m, x) && |x.lists| == |Terms(x.vocab)|
    ensures r.Ok? ==> fresh(Footprint(r.value))
    ensures r.Ok? ==> JustOpened(r.value, ListsFor(Terms(x.vocab), x.lists, terms), m.file)
    ensures r.Err? ==> |terms| > MAX_QUERY_TERMS || !m.file.AlwaysReads()
  {
    hide TermCursor.Valid, TermCursor.At, Serves, ListOf, JustOpened;
    var cs: seq<TermCursor> := [];
    ghost var names := Terms(x.vocab);
    NoneOpen(m.file);
    for i := 0 to |terms|
      invariant |cs| <= i && fresh(Footprint(cs))
      invariant JustOpened(cs, ListsFor(names, x.lists, terms[..i]), m.file)
    {
      assert terms[..i + 1][..i] == terms[..i];
      if terms[i].op == OP_NOT {
        continue;
      }
      var next := OpenNext(m, terms[i].term, cs, ListsFor(names, x.lists, terms[..i]), x);
      if next.Err? {
        return Err(next.error);
      }
      cs := next.value;
    }
    assert terms[..|terms|] == terms;
    return Ok(cs);
  }

  lemma NoneOpen(file: File)
    ensures JustOpened([], [], file)
  {
    assert Lists([]) == [];
  }

  lemma NothingToFind(k: nat)
    ensures IsTopK([], [], k, NoneDeleted)
  {
    forall d: u32 ensures Score([], d) == 0 {
    }
  }
}
