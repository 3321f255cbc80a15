/** The open cursors of one query, serve/worker.go: separate objects, seen as one vector of positions. */
module CursorSet {
  import opened Bytes
  import opened Postings
  import opened Ranking
  import opened Cursor

  /** What any of the cursors may write. */
  ghost function Footprint(cs: seq<TermCursor>): (fp: set<object>)
    ensures forall t :: 0 <= t < |cs| ==> cs[t].Repr() <= fp
    ensures forall t :: 0 <= t < |cs| ==> cs[t] in fp && cs[t].docids in fp && cs[t].impacts in fp && cs[t].masks in fp
  {
    if cs == [] then {} else Footprint(cs[..|cs| - 1]) + cs[|cs| - 1].Repr()
  }

  lemma {:induction false} OutsideFootprint(cs: seq<TermCursor>, o: object)
    requires forall t :: 0 <= t < |cs| ==> o !in cs[t].Repr()
    ensures o !in Footprint(cs)
  {
    if cs != [] {
      OutsideFootprint(cs[..|cs| - 1], o);
    }
  }

  /** No cursor's writes reach another cursor. */
  ghost predicate Apart(cs: seq<TermCursor>) {
    forall t, u :: 0 <= t < |cs| && 0 <= u < |cs| && t != u ==> cs[t].Repr() !! cs[u].Repr()
  }

  ghost predicate AllValid(cs: seq<TermCursor>)
    reads Footprint(cs)
  {
    forall t :: 0 <= t < |cs| ==> cs[t].Valid()
  }

  ghost function Lists(cs: seq<TermCursor>): (ls: seq<seq<Posting>>)
    ensures |ls| == |cs| && forall t :: 0 <= t < |cs| ==> ls[t] == cs[t].list
  {
    seq(|cs|, t requires 0 <= t < |cs| => cs[t].list)
  }

  ghost function Positions(cs: seq<TermCursor>): (at: seq<nat>)
    reads cs
    ensures |at| == |cs| && forall t :: 0 <= t < |cs| ==> at[t] == cs[t].At()
  {
    seq(|cs|, t requires 0 <= t < |cs| reads cs => cs[t].At())
  }

  ghost predicate NoErr(cs: seq<TermCursor>)
    reads cs
  {
    forall t :: 0 <= t < |cs| ==> cs[t].err == None
  }

  ghost predicate AllReady(cs: seq<TermCursor>)
    reads cs
  {
    forall t :: 0 <= t < |cs| ==> cs[t].Ready()
  }

  /** The positions are inside the lists, and the lists can be walked. */
  ghost predicate InLists(lists: seq<seq<Posting>>, at: seq<nat>) {
    AllWalkable(lists) && |at| == |lists| && forall t :: 0 <= t < |lists| ==> at[t] <= |lists[t]|
  }

  lemma PositionsInLists(cs: seq<TermCursor>)
    requires AllValid(cs)
    ensures InLists(Lists(cs), Positions(cs))
  {
    forall t | 0 <= t < |cs| ensures Walkable(cs[t].list) && cs[t].At() <= |cs[t].list| {
      cs[t].AtInList();
      cs[t].Shape();
    }
  }

  /** cs[t].Docid(), seen on the whole set. */
  method DocidOf(cs: seq<TermCursor>, t: nat) returns (d: u32)
    requires t < |cs| && AllValid(cs) && Apart(cs)
    modifies cs[t].Repr()
    ensures AllValid(cs) && cs[t].Ready() && d == DocidAt(cs[t].list, cs[t].At())
    ensures forall u :: 0 <= u < |cs| && u != t ==> cs[u].At() == old(cs[u].At()) && cs[u].err == old(cs[u].err)
    ensures forall u :: 0 <= u < |cs| && old(cs[u].Ready()) ==> cs[u].Ready()
    ensures NoErr(cs) ==> old(NoErr(cs)) && Positions(cs) == old(Positions(cs))
    ensures Forward(old(Positions(cs)), Positions(cs))
    ensures old(cs[t].Ready()) ==> Positions(cs) == old(Positions(cs)) && (old(NoErr(cs)) ==> NoErr(cs))
  {
    hide TermCursor.Valid, TermCursor.At, TermCursor.Ready, DocidAt;
    d := cs[t].Docid();
    forall u | 0 <= u < |cs| && u != t ensures cs[u].Valid() {
      assert old(cs[u].Valid());
    }
  }

  /** cs[t].Impact() and then cs[t].Next(), seen on the whole set. */
  method ConsumeOf(cs: seq<TermCursor>, t: nat, ghost at: seq<nat>) returns (s: byte, ghost at': seq<nat>)
    requires t < |cs| && AllValid(cs) && Apart(cs) && at == Positions(cs)
    requires cs[t].Ready() && at[t] < |cs[t].list|
    modifies cs[t].Repr()
    ensures AllValid(cs) && s == cs[t].list[at[t]].tf
    ensures at' == Positions(cs) && at' == at[t := at[t] + 1]
    ensures NoErr(cs) <==> old(NoErr(cs))
    ensures forall u :: 0 <= u < |cs| && u != t && old(cs[u].Ready()) ==> cs[u].Ready()
  {
    hide TermCursor.Valid, TermCursor.At, TermCursor.Ready;
    s := ImpactThenNext(cs[t]);
    at' := Positions(cs);
    forall u | 0 <= u < |cs| && u != t ensures cs[u].Valid() {
      assert old(cs[u].Valid());
    }
  }

  method ImpactThenNext(c: TermCursor) returns (s: byte)
    requires c.Valid() && c.Ready() && c.At() < |c.list|
    modifies c
    ensures c.Valid() && c.err == old(c.err) && c.At() == old(c.At()) + 1 && s == c.list[old(c.At())].tf
  {
    hide TermCursor.Valid, TermCursor.Ready;
    s := c.Impact();
    c.Next();
  }

  /** cs[t].Advance(d), seen on the whole set. */
  method AdvanceOf(cs: seq<TermCursor>, t: nat, d: u32, ghost at: seq<nat>) returns (ghost at': seq<nat>)
    requires t < |cs| && AllValid(cs) && Apart(cs) && at == Positions(cs)
    modifies cs[t].Repr()
    ensures AllValid(cs) && at' == Positions(cs) && Forward(at, at')
    ensures forall u :: 0 <= u < |cs| && u != t ==> cs[u].err == old(cs[u].err)
    ensures forall u :: 0 <= u < |cs| && u != t && old(cs[u].Ready()) ==> cs[u].Ready()
    ensures NoErr(cs) ==> old(NoErr(cs)) && at' == at[t := FirstFrom(cs[t].list, at[t], d)]
    ensures forall u :: 0 <= u < |cs| && u != t ==> at'[u] == at[u]
    ensures at'[t] == |cs[t].list| || at'[t] >= FirstFrom(cs[t].list, at[t], d)
  {
    hide TermCursor.Valid, TermCursor.At, TermCursor.Ready, FirstFrom;
    cs[t].Advance(d);
    at' := Positions(cs);
    forall u | 0 <= u < |cs| && u != t ensures cs[u].Valid() {
      assert old(cs[u].Valid());
    }
  }
}
