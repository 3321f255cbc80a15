/** The dictionary writer of hotfmt/dict.go: terms arrive in order, blocks close at 64 of them. */
module DictWriting {
  import opened Bytes
  import opened DictEntries
  import opened DictFormat

  class DictWriter {
    var band: seq<byte>
    var index: seq<byte>
    var prev: Term
    var nterms: nat
    var nblocks: nat
    var blockTerms: seq<byte>
    var blockEntries: seq<byte>
    var blockCount: nat
    /** Everything added so far. */
    ghost var vocab: seq<Item>

    /** The items of the open block. */
    ghost function Open(): seq<Item>
      reads this
      requires 64 * nblocks <= |vocab|
    {
      vocab[64 * nblocks..]
    }

    ghost predicate Valid()
      reads this
    {
      && Vocabulary(vocab) && Short(vocab) && nterms == |vocab| && 64 * nblocks + blockCount == |vocab| && blockCount < 64
      && prev == (if vocab == [] then [] else vocab[|vocab| - 1].term)
      && Short(Open()) && blockTerms == TermBytes(Open()) && blockEntries == EntriesBytes(Open())
      && band == Band(vocab, nblocks) && index == Index(vocab, NumChunks(|vocab|))
    }

    constructor ()
      ensures Valid() && vocab == []
    {
      band, index, prev, nterms, nblocks, blockTerms, blockEntries, blockCount, vocab := [], [], [], 0, 0, [], [], 0, [];
    }

    /** Takes exactly terms of 1 to 64 bytes above the last one, with valid entries. */
    method Add(term: Term, e: Entry) returns (bad: Option<DictError>)
      requires Valid()
      modifies this
      ensures Valid()
      ensures bad == None <==> ValidItem(Item(term, e)) && (old(vocab) != [] ==> Less(old(prev), term))
      ensures vocab == if bad == None then old(vocab) + [Item(term, e)] else old(vocab)
    {
      hide Vocabulary, Band, Index, TermBytes, EntriesBytes, Less, ValidEntry, Short, IndexEntry, Delta, EntryBytes;
      if |term| == 0 || |term| > 64 {
        return Some(TermLength);
      }
      if nterms > 0 && !Less(prev, term) {
        return Some(TermOrder);
      }
      bad := Validate(e);
      if bad.Some? {
        return;
      }
      Append(term, e);
    }

    ghost predicate Filling()
      reads this
    {
      IsFilling(vocab, band, index, prev, nterms, nblocks, blockTerms, blockEntries, blockCount)
    }

    method Append(term: Term, e: Entry)
      requires Valid() && ValidItem(Item(term, e)) && (vocab != [] ==> Less(prev, term))
      modifies this
      ensures Valid() && vocab == old(vocab) + [Item(term, e)]
    {
      hide Vocabulary, Band, Index, TermBytes, EntriesBytes, Less, ValidItem, Short, IndexEntry, Delta, EntryBytes;
      Extend(term, e);
      LastChunk(vocab);
      if blockCount == 64 {
        FlushBlock();
      } else {
        StaysOpen();
      }
    }

    lemma StaysOpen()
      requires Filling() && blockCount != 64
      ensures Valid()
    {
      hide Vocabulary, Band, Index, TermBytes, EntriesBytes, Short;
    }

    method Extend(term: Term, e: Entry)
      requires Valid() && ValidItem(Item(term, e)) && (vocab != [] ==> Less(prev, term))
      modifies this
      ensures Filling() && vocab == old(vocab) + [Item(term, e)]
    {
      hide Vocabulary, Band, Index, TermBytes, EntriesBytes, Less, ValidEntry, Short, IndexEntry, Delta, EntryBytes, NumChunks,
        IsFilling;
      ghost var x := Item(term, e);
      EntryCounts(e);
      var index', blockTerms' := index, blockTerms;
      if blockCount == 0 {
        index' := index + IndexEntry(|band|, term);
        blockTerms' := blockTerms + ([|term|] + term);
      } else {
        blockTerms' := blockTerms + Delta(prev, term);
      }
      ClosedBlocks(nblocks, |vocab|);
      Filled(vocab, x, nblocks, blockCount, band, index, blockTerms, blockEntries, index', blockTerms');
      index, blockTerms := index', blockTerms';
      blockEntries := blockEntries + EntryBytes(e);
      prev := term;
      nterms := nterms + 1;
      blockCount := blockCount + 1;
      vocab := vocab + [x];
    }

    /** Closes the open block, of whatever size. */
    method FlushBlock()
      requires Filling()
      modifies this
      ensures vocab == old(vocab) && index == old(index) && nterms == old(nterms) && prev == old(prev)
      ensures nblocks == NumChunks(|vocab|) && band == Band(vocab, nblocks)
      ensures |vocab| % 64 == 0 ==> Valid()
    {
      hide Vocabulary, Index, TermBytes, EntriesBytes, Short;
      LastChunk(vocab);
      assert band + blockTerms + blockEntries == band + BlockBytes(Open());
      band := band + blockTerms + blockEntries;
      blockTerms, blockEntries, blockCount := [], [], 0;
      nblocks := nblocks + 1;
      Nothing();
      assert |vocab| % 64 == 0 ==> vocab[64 * nblocks..] == [];
    }

    /** The whole band; an empty dictionary is refused. */
    method Seal() returns (r: Result<seq<byte>, DictError>)
      requires Valid()
      modifies this
      ensures r.Err? <==> old(vocab) == []
      ensures r.Ok? ==> Short(old(vocab)) && r.value == DictBytes(old(vocab))
    {
      hide Vocabulary, Index, TermBytes, EntriesBytes, Band;
      if nterms == 0 {
        return Err(NoTerms);
      }
      LastChunk(vocab);
      if blockCount > 0 {
        FlushBlock();
      }
      var indexOff := |band|;
      var out := band + index;
      return Ok(out + Trailer(indexOff, nblocks, nterms));
    }
  }

  /** The open block's bytes and counts are those of the vocabulary's last block, short or just filled. */
  ghost predicate IsFilling(v: seq<Item>, band: seq<byte>, index: seq<byte>, prev: Term, nterms: nat, nblocks: nat,
                            blockTerms: seq<byte>, blockEntries: seq<byte>, blockCount: nat)
  {
    && Vocabulary(v) && Short(v) && v != [] && nterms == |v|
    && nblocks == NumChunks(|v|) - 1 && blockCount == |v| - 64 * nblocks && prev == v[|v| - 1].term
    && Short(v[64 * nblocks..]) && blockTerms == TermBytes(v[64 * nblocks..]) && blockEntries == EntriesBytes(v[64 * nblocks..])
    && band == Band(v, nblocks) && index == Index(v, NumChunks(|v|))
  }

  lemma Filled(v: seq<Item>, x: Item, n: nat, c: nat, band: seq<byte>, index: seq<byte>, blockTerms: seq<byte>,
               blockEntries: seq<byte>, index': seq<byte>, blockTerms': seq<byte>)
    requires Vocabulary(v) && Short(v) && ValidItem(x) && (v != [] ==> Less(v[|v| - 1].term, x.term))
    requires |x.term| <= 64 && |x.entry.inline| <= 4 && 64 * n + c == |v| && c < 64
    requires Short(v[64 * n..]) && blockTerms == TermBytes(v[64 * n..]) && blockEntries == EntriesBytes(v[64 * n..])
    requires n <= NumChunks(|v|) && band == Band(v, n) && index == Index(v, NumChunks(|v|))
    requires c == 0 ==> index' == index + IndexEntry(|band|, x.term) && blockTerms' == blockTerms + ([|x.term|] + x.term)
    requires c != 0 ==> index' == index && blockTerms' == blockTerms + Delta(v[|v| - 1].term, x.term)
    ensures IsFilling(v + [x], band, index', x.term, |v| + 1, n, blockTerms', blockEntries + EntryBytes(x.entry), c + 1)
  {
    hide Vocabulary, Band, Index, TermBytes, EntriesBytes, Less, ValidItem, Short, IndexEntry, Delta, EntryBytes, NumChunks;
    assert n == |v| / 64 && c == |v| % 64;
    AddedOpen(v, x);
    AddedBand(v, x);
    AddedSlices(v, x);
    assert c == 0 ==> blockTerms == [];
  }

  lemma ClosedBlocks(n: nat, len: nat)
    requires 64 * n <= len
    ensures n <= NumChunks(len)
  {
  }

  lemma Nothing()
    ensures Short([]) && TermBytes([]) == [] && EntriesBytes([]) == []
  {
  }

  lemma EntryCounts(e: Entry)
    requires ValidEntry(e)
    ensures |e.inline| <= 4
  {
  }

  lemma Extends(v: seq<Item>, x: Item)
    requires Vocabulary(v) && ValidItem(x) && (v != [] ==> Less(v[|v| - 1].term, x.term))
    ensures Vocabulary(v + [x]) && Short(v + [x])
  {
    var w := v + [x];
    forall i | 0 <= i < |v| ensures Less(w[i].term, x.term) {
      if i < |v| - 1 {
        LessTrans(v[i].term, v[|v| - 1].term, x.term);
      }
    }
    VocabularyShort(w);
  }

  lemma OpenGrows(v: seq<Item>, x: Item, n: nat)
    requires 64 * n <= |v| && Short(v + [x])
    ensures (v + [x])[64 * n..] == v[64 * n..] + [x] && Short(v[64 * n..] + [x])
  {
    assert forall y :: y in v[64 * n..] + [x] ==> y in v + [x];
  }

  lemma IndexGrows(v: seq<Item>, x: Item)
    requires Short(v + [x])
    ensures Short(v) && |x.term| <= 64
    ensures NumChunks(|v| + 1) == (if |v| % 64 == 0 then |v| / 64 + 1 else NumChunks(|v|))
    ensures |v| % 64 == 0 ==> NumChunks(|v|) == |v| / 64
    ensures Index(v + [x], NumChunks(|v| + 1)) == if |v| % 64 == 0
              then Index(v, NumChunks(|v|)) + IndexEntry(|Band(v, |v| / 64)|, x.term)
              else Index(v, NumChunks(|v|))
  {
    hide Short, Band, IndexEntry;
    ShortPrefix(v, x);
    var n := NumChunks(|v|);
    IndexStable(v, x, n);
    if |v| % 64 == 0 {
      BandStable(v, x, n);
      assert (v + [x])[64 * n] == x;
    }
  }

  /** What an added item does to the open block. */
  lemma AddedOpen(v: seq<Item>, x: Item)
    requires Vocabulary(v) && ValidItem(x) && (v != [] ==> Less(v[|v| - 1].term, x.term))
    ensures var w, n, open := v + [x], |v| / 64, v[64 * (|v| / 64)..];
            && Vocabulary(w) && Short(w) && |x.term| <= 64 && |x.entry.inline| <= 4
            && w[64 * n..] == open + [x] && Short(open) && Short(open + [x])
            && TermBytes(open + [x])
               == (if open == [] then [|x.term|] + x.term else TermBytes(open) + Delta(v[|v| - 1].term, x.term))
            && EntriesBytes(open + [x]) == EntriesBytes(open) + EntryBytes(x.entry)
  {
    hide Vocabulary, TermBytes, EntriesBytes, Less, Short, Delta, EntryBytes, ValidItem;
    Extends(v, x);
    var n := |v| / 64;
    OpenGrows(v, x, n);
    TermBytesGrow(v[64 * n..], x);
    assert v[64 * n..] != [] ==> v[64 * n..][|v| - 64 * n - 1] == v[|v| - 1];
  }

  /** What it does to the band and the index. */
  lemma AddedBand(v: seq<Item>, x: Item)
    requires Short(v + [x]) && |x.term| <= 64
    ensures var w, n := v + [x], |v| / 64;
            && Short(v) && n <= NumChunks(|v|) && n == NumChunks(|w|) - 1 && Band(w, n) == Band(v, n)
            && Index(w, NumChunks(|w|)) == if |v| % 64 == 0 then Index(v, NumChunks(|v|)) + IndexEntry(|Band(v, n)|, x.term)
                                          else Index(v, NumChunks(|v|))
  {
    hide Short, Band, Index, IndexEntry;
    BandStable(v, x, |v| / 64);
    IndexGrows(v, x);
  }

  lemma AddedSlices(v: seq<Item>, x: Item)
    ensures var n, open := |v| / 64, v[64 * (|v| / 64)..];
            && 64 * n <= |v| && |v| % 64 == |v| - 64 * n && (|v| % 64 == 0 <==> open == [])
            && TermBytes([]) == [] && [] + ([|x.term|] + x.term) == [|x.term|] + x.term
            && (v + [x])[|v|] == x
  {
  }
}
