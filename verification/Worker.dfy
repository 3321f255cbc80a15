/** Opening a query's cursors and choosing its traversal, serve/worker.go and serve/traverse.go Traverse. */
module Worker {
  import opened Bytes
  import opened Postings
  import opened PostingsEncode
  import opened Skips
  import opened Ranking
  import opened Cursor
  import opened CursorSet
  import opened DictEntries
  import TraverseBmw
  import TraverseMax

  /** bmwMaxTerms, the crossover between the two traversals. */
  const BMW_MAX_TERMS := 2

  /** The file holds list under entry e, as the index builder lays it out. */
  ghost predicate Stored(file: File, e: Entry, skipsBand: nat, postingsBand: nat, list: seq<Posting>, pos: seq<nat>) {
    if e.inline != [] then
      && |e.inline| == |list| && Walkable(list)
      && (forall j :: 0 <= j < |list| ==> e.inline[j].docid == list[j].docid && e.inline[j].tf == list[j].tf)
    else
      && Indexable(list) && e.df == |list| && e.postingsLen == |ListBytes(list)|
      && GoodSkips(Seeds(list, NumBlocks(|list|)), pos)
      && Holds(file, skipsBand + e.skipOff, Region(Seeds(list, NumBlocks(|list|)), pos))
      && Holds(file, postingsBand + e.postingsOff, ListBytes(list))
  }

  ghost predicate Holds(file: File, off: nat, bytes: seq<byte>) {
    off + |bytes| <= |file.bytes| && file.bytes[off..off + |bytes|] == bytes
  }

  method LargestInline(ps: seq<InlinePosting>) returns (m: byte)
    ensures forall j :: 0 <= j < |ps| ==> ps[j].tf <= m
  {
    m := 0;
    for i := 0 to |ps|
      invariant forall j :: 0 <= j < i ==> ps[j].tf <= m
    {
      if ps[i].tf > m {
        m := ps[i].tf;
      }
    }
  }

  /** OpenTerm, past the dictionary lookup: the cursor over the stored list, or a failed read of its skip region. */
  method OpenTerm(file: File, e: Entry, skipsBand: nat, postingsBand: nat, ghost list: seq<Posting>,
                  ghost pos: seq<nat>)
    returns (r: Result<TermCursor, CursorError>)
    requires Stored(file, e, skipsBand, postingsBand, list, pos)
    ensures r.Ok? ==> r.value.Valid() && fresh(r.value.Repr()) && r.value.At() == 0 && r.value.list == list
    ensures r.Ok? ==> r.value.err == None && r.value.file == file
    ensures r.Err? ==> r.error == ReadFailed && !file.AlwaysReads()
  {
    hide Region, ListBytes, MaxImpact, ValidList;
    if e.inline != [] {
      var bound := LargestInline(e.inline);
      var c := new TermCursor.Inline(file, e.inline, bound, list);
      return Ok(c);
    }
    r := OpenBanded(file, e, skipsBand, postingsBand, list, pos);
  }

  /** The postings lie in the band: the skip region is read once, and bounds the term. */
  method OpenBanded(file: File, e: Entry, skipsBand: nat, postingsBand: nat, ghost list: seq<Posting>, ghost pos: seq<nat>)
    returns (r: Result<TermCursor, CursorError>)
    requires Stored(file, e, skipsBand, postingsBand, list, pos) && e.inline == []
    ensures r.Ok? ==> r.value.Valid() && fresh(r.value.Repr()) && r.value.At() == 0 && r.value.list == list
    ensures r.Ok? ==> r.value.err == None && r.value.file == file
    ensures r.Err? ==> r.error == ReadFailed && !file.AlwaysReads()
  {
    hide Region, ListBytes, MaxImpact, ValidList, Stored, Band, Seeds, GoodSkips, RegionSize, SeedOf, Indexable;
    RegionRead(file, e, skipsBand, postingsBand, list, pos);
    ghost var seeds := Seeds(list, NumBlocks(|list|));
    var region := file.ReadAt(skipsBand + e.skipOff, RegionSize(e.df));
    if region == None {
      return Err(ReadFailed);
    }
    assert region.value == Region(seeds, pos);
    var bound := SkipBound(region.value, e.df);
    BoundIsMax(seeds, pos, bound);
    StoredIsBand(file, e, skipsBand, postingsBand, list, pos, bound);
    var c := new TermCursor.Banded(file, region.value, NumBlocks(e.df), postingsBand + e.postingsOff, e.postingsLen,
                                   bound, list, pos);
    return Ok(c);
  }

  lemma IndexableValid(list: seq<Posting>)
    requires Indexable(list)
    ensures ValidList(list)
  {
  }

  lemma HeldSlice(file: File, off: nat, bytes: seq<byte>, n: nat)
    requires Holds(file, off, bytes) && n == |bytes|
    ensures off + n <= |file.bytes| && file.bytes[off..off + n] == bytes
  {
  }

  lemma RegionRead(file: File, e: Entry, skipsBand: nat, postingsBand: nat, list: seq<Posting>, pos: seq<nat>)
    requires Stored(file, e, skipsBand, postingsBand, list, pos) && e.inline == []
    ensures ValidList(list) && Indexable(list)
    ensures var seeds := Seeds(list, NumBlocks(|list|));
            && e.df == |list| && |seeds| == |pos| == NumBlocks(e.df) && |Region(seeds, pos)| == RegionSize(e.df)
            && skipsBand + e.skipOff + RegionSize(e.df) <= |file.bytes|
            && file.bytes[skipsBand + e.skipOff..skipsBand + e.skipOff + RegionSize(e.df)] == Region(seeds, pos)
            && forall g :: 0 <= g < NumGroups(NumBlocks(e.df)) ==> 15 * NumBlocks(e.df) + 12 * g + 4 < RegionSize(e.df)
  {
    hide Region, ListBytes, ValidList, Holds, Indexable;
    IndexableValid(list);
    var seeds := Seeds(list, NumBlocks(|list|));
    HeldSlice(file, skipsBand + e.skipOff, Region(seeds, pos), RegionSize(e.df));
  }

  lemma StoredParts(file: File, e: Entry, skipsBand: nat, postingsBand: nat, list: seq<Posting>, pos: seq<nat>)
    requires Stored(file, e, skipsBand, postingsBand, list, pos) && e.inline == []
    ensures ValidList(list) && Indexable(list) && e.df == |list| && e.postingsLen == |ListBytes(list)|
    ensures GoodSkips(Seeds(list, NumBlocks(|list|)), pos)
    ensures Holds(file, postingsBand + e.postingsOff, ListBytes(list))
  {
    hide Region, ListBytes, ValidList, MaxImpact, GoodSkips, Seeds, NumBlocks, Holds, Indexable;
    IndexableValid(list);
  }

  lemma StoredIsBand(file: File, e: Entry, skipsBand: nat, postingsBand: nat, list: seq<Posting>, pos: seq<nat>, bound: byte)
    requires Stored(file, e, skipsBand, postingsBand, list, pos) && e.inline == []
    requires bound == MaxImpact(Seeds(list, NumBlocks(|list|)))
    ensures Band(file, Region(Seeds(list, NumBlocks(|list|)), pos), NumBlocks(e.df), postingsBand + e.postingsOff,
                 e.postingsLen, bound, list, pos)
  {
    hide Region, ListBytes, ValidList, MaxImpact, GoodSkips, Seeds, NumBlocks, Holds, Indexable, Stored, SeedOf;
    StoredParts(file, e, skipsBand, postingsBand, list, pos);
    HeldSlice(file, postingsBand + e.postingsOff, ListBytes(list), |ListBytes(list)|);
  }

  /** Traverse: block-max WAND up to two terms, MaxScore above; either way the exhaustive top k. */
  method Traverse(cs: seq<TermCursor>, k: nat, deleted: u32 -> bool)
    returns (hits: seq<Hit>, err: Option<CursorError>)
    requires AllValid(cs) && Apart(cs) && k >= 1 && Positions(cs) == Starts(|cs|)
    modifies Footprint(cs)
    ensures AllValid(cs) && (err == None <==> NoErr(cs))
    ensures err == None ==> IsTopK(Lists(cs), hits, k, deleted)
    ensures (forall t :: 0 <= t < |cs| ==> cs[t].file.AlwaysReads()) ==> err == None
  {
    hide IsTopK, Apart, TermCursor.Holds, TermCursor.Loaded;
    ghost var turns;
    if |cs| <= BMW_MAX_TERMS {
      hits, err, turns := TraverseBmw.TraverseBMW(cs, k, deleted);
    } else {
      hits, err, turns := TraverseMax.TraverseMaxScore(cs, k, deleted);
    }
  }
}
