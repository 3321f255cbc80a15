/**
 * From posting lists to hits and back through the bytes: the encoders lay lists out in a .hot file, the file is mounted,
 * and a query on it returns the exhaustive top k of those lists.
 */
module IndexBuilding {
  import opened Bytes
  import opened Format
  import opened Postings
  import opened PostingsEncode
  import opened Skips
  import opened Ranking
  import opened Cursor
  import opened DictEntries
  import opened DictFormat
  import opened DictWriting
  import opened DictLaws
  import opened Worker
  import opened Mounting
  import opened QueryTerms
  import opened HotHeader
  import HotMeta
  import HotFile
  import FileReading
  import FileLaws

  // ----- what can be indexed -----

  /** A list that its dictionary entry, its skip region and its cursor can carry. */
  ghost predicate ListFits(list: seq<Posting>, pos: seq<nat>) {
    && Indexable(list) && |list| <= MAX_U32
    && (|list| > 4 ==> |ListBytes(list)| <= MAX_U32 && GoodSkips(Seeds(list, NumBlocks(|list|)), pos))
  }

  /** The postings band: the lists too long to be stored inline. */
  ghost function PostingsBand(lists: seq<seq<Posting>>, poss: seq<seq<nat>>, n: nat): seq<byte>
    requires |lists| == |poss| && n <= |lists| && forall i :: 0 <= i < |lists| ==> ListFits(lists[i], poss[i])
  {
    if n == 0 then []
    else PostingsBand(lists, poss, n - 1) + if |lists[n - 1]| > 4 then ListBytes(lists[n - 1]) else []
  }

  ghost function SkipsBand(lists: seq<seq<Posting>>, poss: seq<seq<nat>>, n: nat): seq<byte>
    requires |lists| == |poss| && n <= |lists| && forall i :: 0 <= i < |lists| ==> ListFits(lists[i], poss[i])
  {
    if n == 0 then []
    else
      var l, p := lists[n - 1], poss[n - 1];
      SkipsBand(lists, poss, n - 1) + if |l| > 4 then Region(Seeds(l, NumBlocks(|l|)), p) else []
  }

  /** Terms in dictionary order with lists that fit, and bands within the entries' 48-bit offsets. */
  ghost predicate Buildable(terms: seq<Term>, lists: seq<seq<Posting>>, poss: seq<seq<nat>>) {
    && |terms| == |lists| == |poss| && 1 <= |terms| <= MAX_U32
    && (forall i :: 0 <= i < |terms| ==> 1 <= |terms[i]| <= 64 && ListFits(lists[i], poss[i]))
    && (forall i, j :: 0 <= i < j < |terms| ==> Less(terms[i], terms[j]))
    && |PostingsBand(lists, poss, |lists|)| <= MAX_U48 && |SkipsBand(lists, poss, |lists|)| <= MAX_U48
  }

  // ----- one term -----

  function InlineOf(list: seq<Posting>): (ps: seq<InlinePosting>)
    ensures |ps| == |list|
    ensures forall i :: 0 <= i < |ps| ==> ps[i] == InlinePosting(list[i].docid, list[i].tf, list[i].mask)
  {
    seq(|list|, i requires 0 <= i < |list| => InlinePosting(list[i].docid, list[i].tf, list[i].mask))
  }

  ghost predicate At(band: seq<byte>, off: nat, bytes: seq<byte>) {
    off + |bytes| <= |band| && band[off..off + |bytes|] == bytes
  }

  /** The two bands hold list under entry e. */
  ghost predicate Laid(e: Entry, list: seq<Posting>, pos: seq<nat>, postings: seq<byte>, skips: seq<byte>) {
    ListFits(list, pos) && if |list| <= 4 then e.inline == InlineOf(list)
    else
      && e.inline == [] && e.df == |list| && e.postingsLen == |ListBytes(list)|
      && At(skips, e.skipOff, Region(Seeds(list, NumBlocks(|list|)), pos))
      && At(postings, e.postingsOff, ListBytes(list))
  }

  ghost predicate AllLaid(v: seq<Item>, lists: seq<seq<Posting>>, poss: seq<seq<nat>>, postings: seq<byte>, skips: seq<byte>) {
    |lists| == |poss| && |v| <= |lists| && forall i :: 0 <= i < |v| ==> Laid(v[i].entry, lists[i], poss[i], postings, skips)
  }

  lemma StillAt(band: seq<byte>, more: seq<byte>, off: nat, bytes: seq<byte>)
    requires At(band, off, bytes)
    ensures At(band + more, off, bytes)
  {
    assert (band + more)[off..off + |bytes|] == band[off..off + |bytes|];
  }

  lemma StillLaid(v: seq<Item>, lists: seq<seq<Posting>>, poss: seq<seq<nat>>, postings: seq<byte>, skips: seq<byte>,
                  morePostings: seq<byte>, moreSkips: seq<byte>)
    requires AllLaid(v, lists, poss, postings, skips)
    ensures AllLaid(v, lists, poss, postings + morePostings, skips + moreSkips)
  {
    hide At, ListFits, Region, ListBytes, Seeds, ValidList;
    forall i | 0 <= i < |v| ensures Laid(v[i].entry, lists[i], poss[i], postings + morePostings, skips + moreSkips) {
      var e, l := v[i].entry, lists[i];
      FitsIsValid(l, poss[i]);
      if |l| > 4 {
        StillAt(skips, moreSkips, e.skipOff, Region(Seeds(l, NumBlocks(|l|)), poss[i]));
        StillAt(postings, morePostings, e.postingsOff, ListBytes(l));
      }
    }
  }

  lemma FitsIsValid(list: seq<Posting>, pos: seq<nat>)
    requires ListFits(list, pos)
    ensures ValidList(list)
  {
  }

  /** The collection frequency: every tf is at least 1 and at most 255. */
  method SumTf(list: seq<Posting>) returns (cf: nat)
    requires ValidList(list)
    ensures |list| <= cf <= 255 * |list|
  {
    cf := 0;
    for i := 0 to |list|
      invariant i <= cf <= 255 * i
    {
      assert GoodPosting(list[i]);
      cf := cf + list[i].tf;
    }
  }

  /** The entry of one term, with what its list adds to the two bands. */
  method IndexList(list: seq<Posting>, pos: seq<nat>, postings: seq<byte>, skips: seq<byte>)
    returns (e: Entry, postings': seq<byte>, skips': seq<byte>)
    requires ListFits(list, pos) && |postings| <= MAX_U48 && |skips| <= MAX_U48
    ensures ValidEntry(e) && Laid(e, list, pos, postings', skips')
    ensures postings' == postings + if |list| > 4 then ListBytes(list) else []
    ensures skips' == skips + if |list| > 4 then Region(Seeds(list, NumBlocks(|list|)), pos) else []
  {
    hide Region, ListBytes, Seeds, GoodSkips;
    FitsIsValid(list, pos);
    if |list| <= 4 {
      assert forall i :: 0 <= i < |list| ==> GoodPosting(list[i]);
      assert postings + [] == postings && skips + [] == skips;
      return Entry(|list|, 0, 0, 0, 0, InlineOf(list)), postings, skips;
    }
    var encoded := EncodePostings(list);
    var region := EncodeSkips(skips, encoded.value.1, pos);
    var cf := SumTf(list);
    e := Entry(|list|, cf, |postings|, |encoded.value.0|, |skips|, []);
    postings', skips' := postings + encoded.value.0, region.value;
    JustBehind(postings, encoded.value.0);
    JustBehind(skips, Region(Seeds(list, NumBlocks(|list|)), pos));
  }

  lemma JustBehind(band: seq<byte>, bytes: seq<byte>)
    ensures At(band + bytes, |band|, bytes)
  {
  }

  // ----- all terms -----

  lemma {:induction false} BandsGrow(lists: seq<seq<Posting>>, poss: seq<seq<nat>>, m: nat, n: nat)
    requires |lists| == |poss| && m <= n <= |lists| && forall i :: 0 <= i < |lists| ==> ListFits(lists[i], poss[i])
    ensures |PostingsBand(lists, poss, m)| <= |PostingsBand(lists, poss, n)|
    ensures |SkipsBand(lists, poss, m)| <= |SkipsBand(lists, poss, n)|
  {
    hide ListFits, Region, ListBytes, Seeds;
    if m < n {
      BandsGrow(lists, poss, m, n - 1);
      FitsIsValid(lists[n - 1], poss[n - 1]);
    }
  }

  /** The three bands of an index: the dictionary, and the postings and skips that its entries point into; and these entries. */
  method BuildBands(terms: seq<Term>, lists: seq<seq<Posting>>, poss: seq<seq<nat>>)
    returns (dict: seq<byte>, postings: seq<byte>, skips: seq<byte>, v: seq<Item>)
    requires Buildable(terms, lists, poss)
    ensures Vocabulary(v) && Short(v) && v != [] && |v| == |lists| && Terms(v) == terms && dict == DictBytes(v)
    ensures AllLaid(v, lists, poss, postings, skips)
  {
    hide Vocabulary, ListFits, Laid, AllLaid, PostingsBand, SkipsBand, Less, Short, ValidEntry, DictWriter.Valid, DictBytes, Seeds, Region, ListBytes;
    BuildableParts(terms, lists, poss);
    var w := new DictWriter();
    postings, skips, v := [], [], [];
    NothingLaid(lists, poss);
    for i := 0 to |terms|
      invariant fresh(w) && Built(w, terms, lists, poss, i, postings, skips, v)
    {
      postings, skips, v := BuildOne(w, terms, lists, poss, i, postings, skips, v);
    }
    assert terms[..|terms|] == terms;
    WriterVocabulary(w);
    var sealed := w.Seal();
    dict := sealed.value;
  }

  /** The first i terms are in the bands and in the writer. */
  ghost predicate Built(w: DictWriter, terms: seq<Term>, lists: seq<seq<Posting>>, poss: seq<seq<nat>>, i: nat,
                        postings: seq<byte>, skips: seq<byte>, v: seq<Item>)
    requires Buildable(terms, lists, poss)
    reads w
  {
    && i <= |terms| && w.Valid() && w.vocab == v && |v| == i && Terms(v) == terms[..i]
    && postings == PostingsBand(lists, poss, i) && skips == SkipsBand(lists, poss, i)
    && AllLaid(v, lists, poss, postings, skips)
  }

  /** One term: its list laid out behind the others, and its entry added. */
  method BuildOne(w: DictWriter, terms: seq<Term>, lists: seq<seq<Posting>>, poss: seq<seq<nat>>, i: nat,
                  postings: seq<byte>, skips: seq<byte>, v: seq<Item>)
    returns (postings': seq<byte>, skips': seq<byte>, v': seq<Item>)
    requires Buildable(terms, lists, poss) && Built(w, terms, lists, poss, i, postings, skips, v) && i < |terms|
    modifies w
    ensures Built(w, terms, lists, poss, i + 1, postings', skips', v')
  {
    hide Vocabulary, ListFits, Laid, AllLaid, PostingsBand, SkipsBand, Less, Short, ValidEntry, DictWriter.Valid, DictBytes, Seeds, Region, ListBytes;
    BuildableParts(terms, lists, poss);
    BandsGrow(lists, poss, i, |lists|);
    var e;
    e, postings', skips' := IndexList(lists[i], poss[i], postings, skips);
    OneMoreBand(lists, poss, i, postings, skips, postings', skips');
    LastBelow(v, terms, i);
    ValidIs(terms[i], e);
    PrevIsLast(w);
    var bad := w.Add(terms[i], e);
    OneMoreLaid(v, lists, poss, postings, skips, postings', skips', Item(terms[i], e));
    TermsSnoc(v, Item(terms[i], e));
    assert terms[..i + 1] == terms[..i] + [terms[i]];
    v' := v + [Item(terms[i], e)];
  }

  lemma BuildableParts(terms: seq<Term>, lists: seq<seq<Posting>>, poss: seq<seq<nat>>)
    requires Buildable(terms, lists, poss)
    ensures forall i :: 0 <= i < |lists| ==> ListFits(lists[i], poss[i]) && ValidList(lists[i])
  {
    hide Less, PostingsBand, SkipsBand;
    forall i | 0 <= i < |lists| ensures ValidList(lists[i]) {
      FitsIsValid(lists[i], poss[i]);
    }
  }

  lemma NothingLaid(lists: seq<seq<Posting>>, poss: seq<seq<nat>>)
    requires |lists| == |poss| && forall i :: 0 <= i < |lists| ==> ListFits(lists[i], poss[i])
    ensures AllLaid([], lists, poss, [], []) && PostingsBand(lists, poss, 0) == [] && SkipsBand(lists, poss, 0) == []
    ensures Terms([]) == []
  {
  }

  lemma WriterVocabulary(w: DictWriter)
    requires w.Valid()
    ensures Vocabulary(w.vocab)
  {
  }

  lemma PrevIsLast(w: DictWriter)
    requires w.Valid()
    ensures w.vocab != [] ==> w.prev == w.vocab[|w.vocab| - 1].term
  {
  }

  lemma ValidIs(t: Term, e: Entry)
    requires 1 <= |t| <= 64 && ValidEntry(e)
    ensures ValidItem(Item(t, e))
  {
  }

  lemma LastBelow(v: seq<Item>, terms: seq<Term>, i: nat)
    requires |v| == i < |terms| && Terms(v) == terms[..i]
    requires forall a, b :: 0 <= a < b < |terms| ==> Less(terms[a], terms[b])
    ensures v != [] ==> Less(v[|v| - 1].term, terms[i])
  {
    hide Less;
    if v != [] {
      assert Terms(v)[i - 1] == terms[..i][i - 1] == terms[i - 1];
    }
  }

  lemma TermsSnoc(v: seq<Item>, x: Item)
    ensures Terms(v + [x]) == Terms(v) + [x.term]
  {
  }

  lemma OneMoreBand(lists: seq<seq<Posting>>, poss: seq<seq<nat>>, i: nat, postings: seq<byte>, skips: seq<byte>,
                    postings': seq<byte>, skips': seq<byte>)
    requires |lists| == |poss| && i < |lists| && forall j :: 0 <= j < |lists| ==> ListFits(lists[j], poss[j])
    requires postings == PostingsBand(lists, poss, i) && skips == SkipsBand(lists, poss, i)
    requires postings' == postings + if |lists[i]| > 4 then ListBytes(lists[i]) else []
    requires skips' == skips + if |lists[i]| > 4 then Region(Seeds(lists[i], NumBlocks(|lists[i]|)), poss[i]) else []
    ensures postings' == PostingsBand(lists, poss, i + 1) && skips' == SkipsBand(lists, poss, i + 1)
  {
    hide Region, ListBytes, Seeds;
  }

  lemma OneMoreLaid(v: seq<Item>, lists: seq<seq<Posting>>, poss: seq<seq<nat>>, postings: seq<byte>, skips: seq<byte>,
                    postings': seq<byte>, skips': seq<byte>, x: Item)
    requires AllLaid(v, lists, poss, postings, skips) && |v| < |lists| && postings <= postings' && skips <= skips'
    requires Laid(x.entry, lists[|v|], poss[|v|], postings', skips')
    ensures AllLaid(v + [x], lists, poss, postings', skips')
  {
    hide Laid;
    StillLaid(v, lists, poss, postings, skips, postings'[|postings|..], skips'[|skips|..]);
    assert postings + postings'[|postings|..] == postings' && skips + skips'[|skips|..] == skips';
  }

  // ----- the size of the dictionary -----

  lemma DeltaWithin(prev: Term, t: Term)
    requires |t| <= 64
    ensures |Delta(prev, t)| <= 66
  {
  }

  lemma {:induction false} TermsWithin(c: seq<Item>)
    requires Short(c)
    ensures |TermBytes(c)| <= 66 * |c|
  {
    hide Delta;
    if |c| > 1 {
      PartShort(c, |c| - 1);
      TermsWithin(c[..|c| - 1]);
      assert c[|c| - 1] in c;
      DeltaWithin(c[|c| - 2].term, c[|c| - 1].term);
    } else if |c| == 1 {
      assert c[0] in c;
    }
  }

  lemma {:induction false} BandWithin(v: seq<Item>, n: nat)
    requires Short(v) && n <= NumChunks(|v|)
    ensures |DictFormat.Band(v, n)| <= 6272 * n
  {
    hide TermBytes, EntriesBytes, Short;
    if n > 0 {
      BandWithin(v, n - 1);
      ChunkShort(v, n - 1);
      TermsWithin(Chunk(v, n - 1));
    }
  }

  lemma SizedBelow(v: seq<Item>)
    requires Short(v) && |v| <= MAX_U32
    ensures Sized(v)
  {
    hide DictFormat.Band;
    BandWithin(v, NumChunks(|v|));
  }

  // ----- the file -----

  lemma LaidIsStored(file: File, e: Entry, skipsOff: nat, postingsOff: nat, list: seq<Posting>, pos: seq<nat>,
                     postings: seq<byte>, skips: seq<byte>)
    requires Laid(e, list, pos, postings, skips)
    requires Holds(file, skipsOff, skips) && Holds(file, postingsOff, postings)
    ensures Stored(file, e, skipsOff, postingsOff, list, pos)
  {
    hide Region, ListBytes, Seeds, GoodSkips, Indexable;
    IndexableWalks(list);
    FitsIsValid(list, pos);
    FitsIsIndexable(list, pos);
    if |list| > 4 {
      HeldInside(file, skipsOff, skips, e.skipOff, Region(Seeds(list, NumBlocks(|list|)), pos));
      HeldInside(file, postingsOff, postings, e.postingsOff, ListBytes(list));
    }
  }

  lemma FitsIsIndexable(list: seq<Posting>, pos: seq<nat>)
    requires ListFits(list, pos)
    ensures Indexable(list) && list != []
  {
  }

  lemma HeldInside(file: File, base: nat, band: seq<byte>, off: nat, bytes: seq<byte>)
    requires Holds(file, base, band) && At(band, off, bytes)
    ensures Holds(file, base + off, bytes)
  {
    forall i | 0 <= i < |bytes| ensures file.bytes[base + off..base + off + |bytes|][i] == bytes[i] {
      assert bytes[i] == band[off..off + |bytes|][i] == band[off + i];
      assert band[off + i] == file.bytes[base..base + |band|][off + i];
    }
  }

  lemma {:induction false} BandFound(data: seq<byte>, bands: seq<HotFile.Band>, id: byte, crc: Checksum, payload: seq<byte>)
    requires FileReading.ReadBandOf(data, bands, id, crc) == Ok(payload)
    ensures var b := BandAt(bands, id);
            b.Some? && b.value.off + b.value.len <= |data| && data[b.value.off..b.value.off + b.value.len] == payload
  {
    if bands[0].id != id {
      BandFound(data, bands[1..], id, crc, payload);
    }
  }

  lemma {:induction false} BandAtIs(bands: seq<HotFile.Band>, id: byte, k: nat)
    requires k < |bands| && bands[k].id == id && forall i :: 0 <= i < k ==> bands[i].id != id
    ensures BandAt(bands, id) == Some(bands[k])
  {
    if k > 0 {
      assert bands[1..][k - 1] == bands[k] && forall i :: 0 <= i < k - 1 ==> bands[1..][i] == bands[i + 1];
      BandAtIs(bands[1..], id, k - 1);
    }
  }

  /** The dictionary lies in the prefix that ends where the postings start. */
  lemma DictBeforePostings(head: seq<byte>, ps: seq<seq<byte>>, crc: Checksum)
    requires |ps| == 9
    ensures var bands := HotFile.BandsOf(head, ps, 9, crc);
            && BandAt(bands, BAND_DICT) == Some(bands[2]) && BandAt(bands, BAND_POSTINGS) == Some(bands[5])
            && bands[2].off + bands[2].len <= bands[5].off
  {
    hide HotFile.BandsOf, HotFile.Laid, HotFile.AlignUp, BandAt;
    var bands := HotFile.BandsOf(head, ps, 9, crc);
    forall k | 0 <= k < 9 ensures bands[k] == HotFile.BandOf(head, ps, k, crc) {
      FileLaws.BandsAt(head, ps, k, 9, crc);
    }
    Order();
    BandAtIs(bands, BAND_DICT, 2);
    BandAtIs(bands, BAND_POSTINGS, 5);
    FileLaws.LaidLength(head, ps, 2);
    FileLaws.LaidLength(head, ps, 3);
    FileLaws.LaidLength(head, ps, 4);
  }

  lemma Order()
    ensures var o := HotFile.BAND_ORDER;
            o[0] == 0 && o[1] == 8 && o[2] == 1 && o[3] == 5 && o[4] == 7 && o[5] == 2 && o[6] == 3 && o[7] == 4 && o[8] == 6
  {
  }

  /** The payloads of a file that carries these bands. */
  ghost predicate Carries(ps: seq<seq<byte>>, m: HotMeta.Meta, s: HotMeta.FieldStats, v: seq<Item>, postings: seq<byte>,
                          skips: seq<byte>) {
    && |ps| == 9 && ps[0] == HotMeta.MetaBytes(m) && ps[1] == HotMeta.StatsBytes(s)
    && Short(v) && ps[2] == DictBytes(v) && ps[5] == postings && ps[6] == skips
  }

  /** Mounting the file of an index gives a mount that serves it. */
  lemma MountServes(h: FileHeader, m: HotMeta.Meta, s: HotMeta.FieldStats, ps: seq<seq<byte>>, p: HotFile.Provenance,
                    crc: Checksum, file: File, v: seq<Item>, lists: seq<seq<Posting>>, poss: seq<seq<nat>>,
                    postings: seq<byte>, skips: seq<byte>)
    requires Carries(ps, m, s, v, postings, skips) && HotFile.GoodContents(h, m, s) && HotFile.GoodProvenance(p)
    requires file.bytes == HotFile.FileBytes(h, ps, p, crc) && |file.bytes| < 0x8000_0000_0000_0000
    requires Vocabulary(v) && v != [] && Sized(v) && |v| == |lists| && AllLaid(v, lists, poss, postings, skips)
    ensures var r := MountOf(file, crc); r.Ok? && r.value.file == file && Serves(r.value, Contents(v, lists, poss))
  {
    hide HotFile.FileBytes, HotFile.BandsOf, FileReading.ReadBandOf, FileReading.OpenOf, Vocabulary, Sized, Short, DictBytes, DictOf,
      DictReading.OpenOf, BandAt, Laid, Stored, HotMeta.MetaBytes, HotMeta.StatsBytes, HotFile.GoodContents, FileLaws.Dense,
      HotFile.Laid, HotFile.Padded, HeaderPage;
    var head := HeaderPage(h, crc);
    var bands := HotFile.BandsOf(head, ps, 9, crc);
    var data := file.bytes;
    FileLaws.WrittenOpens(h, m, s, ps, p, crc);
    Order();
    DictBeforePostings(head, ps, crc);
    assert FileReading.ReadBandOf(data, bands, HotFile.BAND_ORDER[2], crc) == Ok(ps[2]);
    assert FileReading.ReadBandOf(data, bands, HotFile.BAND_ORDER[5], crc) == Ok(ps[5]);
    assert FileReading.ReadBandOf(data, bands, HotFile.BAND_ORDER[6], crc) == Ok(ps[6]);
    BandFound(data, bands, BAND_DICT, crc, ps[2]);
    BandFound(data, bands, BAND_POSTINGS, crc, ps[5]);
    BandFound(data, bands, BAND_SKIPS, crc, ps[6]);
    SealedOpens(v);
    var r := MountOf(file, crc);
    var mount := r.value;
    forall i | 0 <= i < |v| ensures Stored(file, v[i].entry, mount.skipsOff, mount.postingsOff, lists[i], poss[i]) {
      LaidIsStored(file, v[i].entry, mount.skipsOff, mount.postingsOff, lists[i], poss[i], postings, skips);
    }
  }

  /** The bands of an index, beside others that queries do not read. */
  function IndexBands(others: map<byte, seq<byte>>, dict: seq<byte>, postings: seq<byte>, skips: seq<byte>): map<byte, seq<byte>> {
    others[BAND_DICT := dict][BAND_POSTINGS := postings][BAND_SKIPS := skips]
  }

  lemma PayloadsCarry(m: HotMeta.Meta, s: HotMeta.FieldStats, others: map<byte, seq<byte>>, v: seq<Item>, postings: seq<byte>,
                      skips: seq<byte>)
    requires Short(v)
    ensures Carries(HotFile.Payloads(HotMeta.MetaBytes(m), HotMeta.StatsBytes(s), IndexBands(others, DictBytes(v), postings, skips)),
                    m, s, v, postings, skips)
  {
    hide DictBytes, Short, HotMeta.MetaBytes, HotMeta.StatsBytes;
    Order();
  }

  /**
   * The whole way: encode the lists, write the file, mount it, and run a query's positive terms on it. Whatever fits the
   * format and a 63-bit file comes back as the exact top candidates of scoring every document of the lists that the
   * query's terms name.
   */
  method IndexAndSearch(h: FileHeader, m: HotMeta.Meta, s: HotMeta.FieldStats, terms: seq<Term>, lists: seq<seq<Posting>>,
                        poss: seq<seq<nat>>, others: map<byte, seq<byte>>, p: HotFile.Provenance, crc: Checksum,
                        query: seq<QueryTerm>, candidates: nat)
    returns (r: Result<seq<Hit>, nat>)
    requires Buildable(terms, lists, poss) && HotFile.GoodContents(h, m, s) && HotFile.GoodProvenance(p)
    requires others.Keys <= {4, 5, 6, 7} && |query| <= MAX_QUERY_TERMS && candidates >= 1
    ensures r.Ok? ==> IsTopK(ListsFor(terms, lists, query), r.value, candidates, NoneDeleted)
    ensures r.Err? ==> r.error >= 0x8000_0000_0000_0000
  {
    hide Vocabulary, AllLaid, HotFile.FileBytes, HotFile.Payloads, HotFile.GoodContents, IsTopK, Short, DictBytes, Serves, MountOf,
      Less, PostingsBand, SkipsBand, ListFits, Sized, ListsFor, HotMeta.MetaBytes, HotMeta.StatsBytes, Carries;
    var dict, postings, skips, v := BuildBands(terms, lists, poss);
    var bands := IndexBands(others, dict, postings, skips);
    var data := HotFile.EncodeFile(h, m, s, bands, p, crc);
    if |data.value| >= 0x8000_0000_0000_0000 {
      return Err(|data.value|);
    }
    var file := File(data.value, (off, len) => true);
    ghost var ps := HotFile.Payloads(HotMeta.MetaBytes(m), HotMeta.StatsBytes(s), bands);
    PayloadsCarry(m, s, others, v, postings, skips);
    SizedBelow(v);
    MountServes(h, m, s, ps, p, crc, file, v, lists, poss, postings, skips);
    var mount := MountFile(file, crc);
    ghost var x := Contents(v, lists, poss);
    var hits := ExecuteShard(mount.value, query, candidates, x);
    assert file.AlwaysReads();
    return Ok(hits.value);
  }
}
