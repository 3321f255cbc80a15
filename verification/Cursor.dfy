/**
 * The term cursor of serve/cursor.go: a lazy forward walk over encoded postings, located through the skip region.
 * It is proved to be a bare position in the posting list those bytes encode.
 */
module Cursor {
  import opened Bytes
  import opened Postings
  import opened PostingsEncode
  import opened PostingsDecode
  import opened PostingsRoundTrip
  import opened Skips
  import opened Ranking

  /** The slot's block buffer, one aligned 4 KiB page. */
  const BUFFER_SIZE := 4096

  /** The shard file. Any read may fail, and a read past the end always does. */
  datatype File = File(bytes: seq<byte>, readable: (nat, nat) -> bool) {
    function ReadAt(off: nat, len: nat): (r: Option<seq<byte>>)
      ensures r.Some? ==> off + len <= |bytes| && r.value == bytes[off..off + len]
    {
      if off + len <= |bytes| && readable(off, len) then Some(bytes[off..off + len]) else None
    }

    /** No read inside the file fails. */
    ghost predicate AlwaysReads() {
      forall off, len :: readable(off, len)
    }
  }

  datatype CursorError = BlockLength | ReadFailed | BadBlock(cause: PostingsError) | BlockDisagrees

  /** What a short list keeps of a posting: everything but the impact. */
  datatype InlinePosting = InlinePosting(docid: u32, tf: byte, mask: byte)

  /** A list whose encoding a cursor can score: below the sentinel, and no tf over its own impact. */
  ghost predicate Indexable(list: seq<Posting>) {
    ValidList(list) && forall i :: 0 <= i < |list| ==> list[i].docid < EXHAUSTED && list[i].tf <= list[i].impact
  }

  lemma IndexableWalks(list: seq<Posting>)
    requires Indexable(list)
    ensures Walkable(list)
  {
    assert forall i :: 0 <= i < |list| ==> GoodPosting(list[i]);
  }

  /** A block's impact covers its postings. */
  lemma BlockCovers(list: seq<Posting>, b: nat, j: nat)
    requires Indexable(list) && b < NumBlocks(|list|) && 128 * b <= j < BlockEnd(|list|, b)
    ensures list[j].tf <= BlockImpact(BlockOf(list, b))
  {
    hide ValidList, BlockImpact;
    assert BlockOf(list, b)[j - 128 * b] == list[j];
  }

  /** The largest impact of all covers every posting. */
  lemma ListBound(list: seq<Posting>, j: nat)
    requires Indexable(list) && j < |list|
    ensures list[j].tf <= MaxImpact(Seeds(list, NumBlocks(|list|)))
  {
    hide ValidList, BlockImpact, MaxImpact, Seeds;
    var b := j / 128;
    BlockCount(|list|, b);
    BlockCovers(list, b, j);
    assert Seeds(list, NumBlocks(|list|))[b] == SeedOf(list, b);
  }

  /** A list's skip region and postings, as the encoders lay them out. */
  ghost predicate Band(file: File, skips: seq<byte>, nb: nat, postingsBase: nat, postingsLen: nat, bound: byte,
                       list: seq<Posting>, pos: seq<nat>) {
    && Indexable(list) && nb == NumBlocks(|list|)
    && GoodSkips(Seeds(list, nb), pos) && skips == Region(Seeds(list, nb), pos)
    && bound == MaxImpact(Seeds(list, nb))
    && postingsLen == |ListBytes(list)| && postingsBase + postingsLen <= |file.bytes|
    && file.bytes[postingsBase..postingsBase + postingsLen] == ListBytes(list)
  }

  class TermCursor {
    const file: File
    const isInline: bool
    const inline: seq<InlinePosting>
    const skips: seq<byte>
    const nb: nat
    const postingsBase: nat
    const postingsLen: nat
    const bound: byte
    const docids: array<u32>
    const impacts: array<byte>
    const masks: array<byte>

    var blk: nat
    var i: nat
    var decoded: int
    var n: nat
    var done: bool
    var err: Option<CursorError>

    /** The posting list the bytes stand for, and the positions offsets beside it in the skip region. */
    ghost const list: seq<Posting>
    ghost const pos: seq<nat>

    // ----- what the constants hold -----

    ghost predicate InlineHolds() {
      && |inline| == |list| && list != [] && Walkable(list)
      && (forall j :: 0 <= j < |list| ==> inline[j].docid == list[j].docid && inline[j].tf == list[j].tf <= bound)
    }

    ghost predicate BandHolds() {
      Band(file, skips, nb, postingsBase, postingsLen, bound, list, pos)
    }

    ghost predicate Holds() {
      && docids.Length == impacts.Length == masks.Length == BLOCK_LEN && impacts != masks
      && if isInline then InlineHolds() else BandHolds()
    }

    /** What this cursor's methods may write. */
    ghost function Repr(): set<object> {
      {this, docids, impacts, masks}
    }

    /** What the rest of the class needs of the constants, without the encoding behind it. */
    lemma Shape()
      requires Holds()
      ensures Walkable(list) && list != []
      ensures docids.Length == impacts.Length == masks.Length == BLOCK_LEN && impacts != masks
      ensures isInline ==> |inline| == |list|
      ensures isInline ==> forall j :: 0 <= j < |list| ==> inline[j].docid == list[j].docid && inline[j].tf == list[j].tf
      ensures !isInline ==> 10 * nb <= |skips| && 128 * nb - 128 < |list| <= 128 * nb
    {
      if !isInline {
        IndexableWalks(list);
        hide Region, GoodSkips, Indexable, ListBytes, MaxImpact;
      }
    }

    /** The last docid of block b. */
    ghost function LastOf(b: nat): u32
      requires 128 * b < |list|
    {
      list[BlockEnd(|list|, b) - 1].docid
    }

    lemma SeedAt(j: nat)
      requires Holds() && !isInline && j < nb
      ensures 10 * j + 10 <= |skips| && 128 * j < |list| && L1At(skips, j).lastDocid == LastOf(j)
      ensures j < NumBlocks(|list|) && ValidList(list) && L1At(skips, j) == SeedOf(list, j)
    {
      L1Reads(Seeds(list, nb), pos, j);
      hide Region, GoodSkips, Indexable, ListBytes, MaxImpact, L1At, ValidList;
      assert Seeds(list, nb)[j] == SeedOf(list, j);
      BlockCount(|list|, j);
    }

    lemma ListIndexable()
      requires Holds() && !isInline
      ensures Indexable(list)
    {
      hide Region, GoodSkips, ListBytes, MaxImpact, Seeds, ValidList;
    }

    /** The skip entry's impact bounds every posting of its block. */
    lemma ImpactAt(b: nat)
      requires Holds() && !isInline && b < nb
      ensures 10 * b + 10 <= |skips| && 128 * b < |list|
      ensures L1At(skips, b).impact == BlockImpact(BlockOf(list, b))
      ensures forall j :: 128 * b <= j < BlockEnd(|list|, b) ==> list[j].tf <= L1At(skips, b).impact
    {
      SeedAt(b);
      ListIndexable();
      hide Holds, L1At, ValidList, BlockImpact, Indexable;
      forall j | 128 * b <= j < BlockEnd(|list|, b) ensures list[j].tf <= L1At(skips, b).impact {
        BlockCovers(list, b, j);
      }
    }

    /** OpenTerm's slot for a term stored inline: bound is the largest tf. */
    constructor Inline(file: File, postings: seq<InlinePosting>, bound: byte, ghost list: seq<Posting>)
      requires |postings| == |list| && list != [] && Walkable(list)
      requires forall j :: 0 <= j < |list| ==> postings[j].docid == list[j].docid && postings[j].tf == list[j].tf <= bound
      ensures Valid() && fresh(Repr()) && At() == 0 && err == None && this.list == list && this.file == file
    {
      this.file, isInline, inline, this.bound := file, true, postings, bound;
      skips, nb, postingsBase, postingsLen := [], 0, 0, 0;
      docids, impacts, masks := new u32[BLOCK_LEN], new byte[BLOCK_LEN], new byte[BLOCK_LEN];
      blk, i, decoded, n, done, err := 0, 0, -1, 0, false, None;
      this.list, pos := list, [];
    }

    /** OpenTerm's slot for a banded term: the skip region is in, no postings byte is. */
    constructor Banded(file: File, skips: seq<byte>, nb: nat, postingsBase: nat, postingsLen: nat, bound: byte,
                       ghost list: seq<Posting>, ghost pos: seq<nat>)
      requires Band(file, skips, nb, postingsBase, postingsLen, bound, list, pos)
      ensures Valid() && fresh(Repr()) && At() == 0 && err == None && this.list == list && this.file == file
    {
      hide Band;
      this.file, isInline, inline, this.bound := file, false, [], bound;
      this.skips, this.nb, this.postingsBase, this.postingsLen := skips, nb, postingsBase, postingsLen;
      docids, impacts, masks := new u32[BLOCK_LEN], new byte[BLOCK_LEN], new byte[BLOCK_LEN];
      blk, i, decoded, n, done, err := 0, 0, -1, 0, false, None;
      this.list, this.pos := list, pos;
      new;
      Shape();
    }

    // ----- the abstract position -----

    /** The position in the list; past the end once the cursor is done, for whatever reason. */
    ghost function At(): nat
      reads this
    {
      if done then |list| else if isInline then i else 128 * blk + i
    }

    /** The buffers hold the current block. */
    ghost predicate Ready()
      reads this
    {
      done || isInline || decoded == blk
    }

    /** The buffers hold block blk of the list. */
    ghost predicate Loaded()
      reads this`n, this`blk, docids, impacts
    {
      && docids.Length == impacts.Length == BLOCK_LEN
      && n == BlockEnd(|list|, blk) - 128 * blk <= BLOCK_LEN
      && forall j :: 0 <= j < n ==> docids[j] == list[128 * blk + j].docid && impacts[j] == list[128 * blk + j].tf
    }

    ghost predicate Valid()
      reads this, docids, impacts, masks
    {
      && Holds()
      && (err.Some? ==> done && !file.AlwaysReads()) && decoded <= blk
      && (!done && isInline ==> i < |list|)
      && (!done && !isInline ==> && blk < nb && 128 * blk < |list|
                                 && if decoded == blk then i < n && Loaded() else i == 0)
    }

    lemma AtInList()
      requires Valid()
      ensures At() <= |list|
      ensures !done ==> At() < |list|
    {
      hide Holds;
    }

    // ----- reading one block -----

    /** The offset block b ends at. */
    function EndOf(b: nat): nat
      requires b < nb && 10 * nb <= |skips|
    {
      if b + 1 < nb then L1At(skips, b + 1).off else postingsLen
    }

    function ChainBase(b: nat): (p: int)
      requires b < nb && 10 * nb <= |skips|
      ensures p >= -1
    {
      if b > 0 then L1At(skips, b - 1).lastDocid else -1
    }

    /** ensure's read and checks, as a function of the bytes alone. */
    ghost function ReadBlock(b: nat): Result<Block, CursorError>
      requires b < nb && 10 * nb <= |skips|
    {
      var cur := L1At(skips, b);
      var length := EndOf(b) - cur.off;
      if length <= 0 || length > BUFFER_SIZE then Err(BlockLength)
      else
        match file.ReadAt(postingsBase + cur.off, length)
        case None => Err(ReadFailed)
        case Some(buf) =>
          match DecodeBlock(buf, ChainBase(b))
          case Err(e) => Err(BadBlock(e))
          case Ok(block) =>
            if block.used != length || block.head.last != cur.lastDocid then Err(BlockDisagrees) else Ok(block)
    }

    /** The body of ensure: fetches block b into the buffers, or says why it cannot. */
    method FetchBlock(b: nat) returns (bad: Option<CursorError>, got: nat)
      requires b < nb && 10 * nb <= |skips|
      requires docids.Length == impacts.Length == masks.Length == BLOCK_LEN && impacts != masks
      modifies docids, impacts, masks
      ensures match ReadBlock(b)
              case Err(e) => bad == Some(e)
              case Ok(block) => && bad == None && got == block.head.n <= BLOCK_LEN
                                && |block.docids| == |block.tfs| == got
                                && docids[..got] == block.docids && impacts[..got] == block.tfs
    {
      hide DecodeBlock, L1At;
      got := 0;
      var cur := L1At(skips, b);
      var length := EndOf(b) - cur.off;
      if length <= 0 || length > BUFFER_SIZE {
        return Some(BlockLength), 0;
      }
      var buf := file.ReadAt(postingsBase + cur.off, length);
      if buf == None {
        return Some(ReadFailed), 0;
      }
      var r := DecodePostingsBlock(buf.value, ChainBase(b), docids, impacts, masks);
      if r.Err? {
        return Some(BadBlock(r.error)), 0;
      }
      if r.value.1 != length || r.value.0.last != cur.lastDocid {
        return Some(BlockDisagrees), 0;
      }
      return None, r.value.0.n;
    }

    lemma BlockBytesInFile(b: nat)
      requires Holds() && !isInline && b < nb && 10 * nb <= |skips|
      ensures b < NumBlocks(|list|) && ValidList(list) && ChainBase(b) == PrevOf(list, b)
      ensures L1At(skips, b).lastDocid == LastOf(b)
      ensures EndOf(b) - L1At(skips, b).off == |BytesOf(list, b)|
      ensures postingsBase + EndOf(b) <= |file.bytes|
      ensures file.bytes[postingsBase + L1At(skips, b).off..postingsBase + EndOf(b)] == BytesOf(list, b)
    {
      hide Holds, L1At, ValidList, BytesOf, Prefix, ListBytes, NumBlocks, EndOf;
      SeedAt(b);
      EndAt(b);
      ChainBaseIs(b);
      BlockAt(list, b);
      FileHolds();
      SubSlice(file.bytes, postingsBase, postingsLen, |Prefix(list, b)|, |Prefix(list, b + 1)|);
    }

    lemma ChainBaseIs(b: nat)
      requires Holds() && !isInline && b < nb && 10 * nb <= |skips|
      ensures b < NumBlocks(|list|) && ChainBase(b) == PrevOf(list, b)
    {
      hide Holds, L1At, ValidList, SeedOf;
      SeedAt(b);
      if b > 0 {
        SeedAt(b - 1);
      }
    }

    lemma FileHolds()
      requires Holds() && !isInline
      ensures ValidList(list) && postingsLen == |ListBytes(list)| && postingsBase + postingsLen <= |file.bytes|
      ensures file.bytes[postingsBase..postingsBase + postingsLen] == ListBytes(list)
    {
      hide ListBytes, Region, GoodSkips, MaxImpact, Seeds;
    }

    lemma EndAt(b: nat)
      requires Holds() && !isInline && b < nb && 10 * nb <= |skips|
      ensures b + 1 <= NumBlocks(|list|) && ValidList(list) && EndOf(b) == |Prefix(list, b + 1)|
    {
      if b + 1 < nb {
        SeedAt(b + 1);
      }
      hide Region, GoodSkips, Indexable, MaxImpact, L1At, ValidList, BytesOf;
    }

    lemma ReadBlockFrom(b: nat, buf: seq<byte>, block: Block)
      requires b < nb && 10 * nb <= |skips|
      requires var cur := L1At(skips, b);
               var length := EndOf(b) - cur.off;
               && 0 < length <= BUFFER_SIZE && file.ReadAt(postingsBase + cur.off, length) == Some(buf)
               && DecodeBlock(buf, ChainBase(b)) == Ok(block)
               && block.used == length && block.head.last == cur.lastDocid
      ensures ReadBlock(b) == Ok(block)
    {
      hide DecodeBlock, L1At;
    }

    /** On well-formed bytes a block read fails only if the file does: the block's size, bytes and docid all check out. */
    lemma ReadBlockHolds(b: nat)
      requires Holds() && !isInline && b < nb && 10 * nb <= |skips|
      ensures match ReadBlock(b)
              case Err(e) => e == ReadFailed && !file.AlwaysReads()
              case Ok(block) => && block.head.n == BlockEnd(|list|, b) - 128 * b
                                && |block.docids| == |block.tfs| == block.head.n
                                && (forall j :: 0 <= j < block.head.n ==>
                                      block.docids[j] == list[128 * b + j].docid && block.tfs[j] == list[128 * b + j].tf)
    {
      hide Holds, ValidList, ValidBlock, L1At, ReadBlock, PrevOf, BytesOf, LastOf, DecodeBlock, NumBlocks, BlockEnd;
      BlockBytesInFile(b);
      var block := BlockDecodes(b);
      var cur := L1At(skips, b);
      var length := EndOf(b) - cur.off;
      match file.ReadAt(postingsBase + cur.off, length) {
        case None => ReadBlockFails(b);
        case Some(buf) => ReadBlockFrom(b, buf, block);
      }
    }

    lemma BlockDecodes(b: nat) returns (block: Block)
      requires ValidList(list) && b < NumBlocks(|list|)
      ensures 0 < |BytesOf(list, b)| <= 897 && PrevOf(list, b) >= -1
      ensures DecodeBlock(BytesOf(list, b), PrevOf(list, b)) == Ok(block)
      ensures 128 * b < |list| && block.used == |BytesOf(list, b)| && block.head.last == LastOf(b)
      ensures block.head.n == |block.docids| == |block.tfs| == BlockEnd(|list|, b) - 128 * b
      ensures forall j :: 0 <= j < block.head.n ==>
                block.docids[j] == list[128 * b + j].docid && block.tfs[j] == list[128 * b + j].tf
    {
      hide DecodeBlock, BlockBytes, ValidBlock, ValidList;
      BlockValid(list, b);
      BlockCount(|list|, b);
      var ps, prev := BlockOf(list, b), PrevOf(list, b);
      BlockSize(ps, prev);
      BlockRoundTrip(ps, prev, []);
      assert BlockBytes(ps, prev) + [] == BlockBytes(ps, prev) == BytesOf(list, b);
      block := DecodeBlock(BlockBytes(ps, prev), prev).value;
      assert forall j :: 0 <= j < |ps| ==> ps[j] == list[128 * b + j];
    }

    lemma ReadBlockFails(b: nat)
      requires b < nb && 10 * nb <= |skips|
      requires var cur := L1At(skips, b);
               var length := EndOf(b) - cur.off;
               && 0 < length <= BUFFER_SIZE && file.ReadAt(postingsBase + cur.off, length) == None
               && postingsBase + cur.off + length <= |file.bytes|
      ensures ReadBlock(b) == Err(ReadFailed) && !file.AlwaysReads()
    {
      hide DecodeBlock, L1At;
    }

    // ----- the cursor's methods -----

    /** What a fetched block says of the list; only an unreadable range makes it fail. */
    method LoadBlock(b: nat) returns (bad: Option<CursorError>, got: nat)
      requires Holds() && !isInline && b < nb && 10 * nb <= |skips| && 128 * b < |list|
      modifies docids, impacts, masks
      ensures bad.Some? ==> !file.AlwaysReads()
      ensures bad == None ==> got == BlockEnd(|list|, b) - 128 * b <= BLOCK_LEN
      ensures bad == None ==> docids.Length == impacts.Length == BLOCK_LEN
      ensures bad == None ==>
                forall j :: 0 <= j < got ==> docids[j] == list[128 * b + j].docid && impacts[j] == list[128 * b + j].tf
    {
      hide Holds, ReadBlock;
      Shape();
      ReadBlockHolds(b);
      bad, got := FetchBlock(b);
      if bad == None {
        assert forall j :: 0 <= j < got ==> docids[j] == docids[..got][j] && impacts[j] == impacts[..got][j];
      }
    }

    /** After ensure the buffers are those of the list's current block, or the cursor is at the list's end; it never moves back. */
    method Ensure() returns (ok: bool)
      requires Valid()
      modifies Repr()
      ensures Valid() && Ready() && ok == !done && blk == old(blk) && i == old(i)
      ensures old(err).Some? ==> err.Some?
      ensures err == None ==> At() == old(At())
      ensures At() >= old(At())
      ensures old(Ready()) ==> At() == old(At()) && err == old(err)
    {
      hide Holds, ReadBlock;
      if done {
        return false;
      }
      if isInline || decoded == blk {
        return true;
      }
      Shape();
      var bad, got := LoadBlock(blk);
      if bad.Some? {
        err := bad;
        done := true;
        return false;
      }
      n := got;
      decoded := blk;
      return true;
    }

    /** DocidAt the cursor's position, which only a failed read can move. */
    method Docid() returns (d: u32)
      requires Valid()
      modifies Repr()
      ensures Valid() && Ready() && d == DocidAt(list, At())
      ensures old(err).Some? ==> err.Some?
      ensures err == None ==> At() == old(At())
      ensures At() >= old(At())
      ensures old(Ready()) ==> At() == old(At()) && err == old(err)
    {
      hide Holds;
      Shape();
      var ok := Ensure();
      AtInList();
      if !ok {
        return EXHAUSTED;
      }
      if isInline {
        return inline[i].docid;
      }
      return docids[i];
    }

    /** Docid once the current block is in: nothing moves. */
    method Peek() returns (d: u32)
      requires Valid() && Ready()
      ensures d == DocidAt(list, At())
    {
      hide Holds;
      Shape();
      if done {
        return EXHAUSTED;
      }
      if isInline {
        return inline[i].docid;
      }
      return docids[i];
    }

    /** The tf at the cursor's position, for a cursor that has its block. */
    method Impact() returns (s: byte)
      requires Valid() && Ready() && !done
      ensures At() < |list| && s == list[At()].tf
    {
      hide Holds;
      Shape();
      AtInList();
      if isInline {
        return inline[i].tf;
      }
      return impacts[i];
    }

    /** One position further in the list; nothing is read. */
    method Next()
      requires Valid() && Ready()
      modifies this
      ensures Valid() && err == old(err)
      ensures At() == if old(done) then old(At()) else old(At()) + 1
    {
      hide Holds;
      Shape();
      AtInList();
      if done {
        return;
      }
      i := i + 1;
      if isInline {
        if i >= |inline| {
          done := true;
        }
        return;
      }
      if i >= n {
        blk := blk + 1;
        i := 0;
        if blk >= nb {
          done := true;
        }
      }
    }

    lemma LastsGrow(a: nat, b: nat)
      requires Holds() && 128 * b < |list| && a < b
      ensures LastOf(a) < LastOf(b)
    {
      hide Holds;
      Shape();
      assert BlockEnd(|list|, a) - 1 < BlockEnd(|list|, b) - 1;
    }

    /** sort.Search over the skip entries: the first block from the current one whose last docid is at least d. */
    method SearchBlock(d: int) returns (t: nat)
      requires Holds() && !isInline && blk < nb
      ensures blk <= t <= nb
      ensures 128 * nb - 128 < |list| <= 128 * nb
      ensures forall j :: blk <= j < t ==> LastOf(j) < d
      ensures t < nb ==> LastOf(t) >= d
    {
      hide Holds, LastOf, L1At, SeedOf, ValidList, NumBlocks, Walkable;
      Shape();
      var lo, hi := blk, nb;
      while lo < hi
        invariant blk <= lo <= hi <= nb
        invariant forall j :: blk <= j < lo ==> LastOf(j) < d
        invariant hi < nb ==> LastOf(hi) >= d
      {
        var mid := (lo + hi) / 2;
        SeedAt(mid);
        if L1At(skips, mid).lastDocid < d {
          forall j | blk <= j < mid ensures LastOf(j) < LastOf(mid) {
            LastsGrow(j, mid);
          }
          lo := mid + 1;
        } else {
          hi := mid;
        }
      }
      t := lo;
    }

    /** Every posting before block t, from the current block on, is below d. */
    lemma BlocksBelow(t: nat, d: int)
      requires Holds() && blk <= t && 128 * t < |list| + 128
      requires forall j :: blk <= j < t ==> LastOf(j) < d
      ensures forall j :: 128 * blk <= j < 128 * t && j < |list| ==> list[j].docid < d
    {
      hide Holds;
      Shape();
      forall j | 128 * blk <= j < 128 * t && j < |list| ensures list[j].docid < d {
        var b := j / 128;
        assert LastOf(b) < d;
        assert j <= BlockEnd(|list|, b) - 1;
      }
    }

    /** Without an error the new position is FirstFrom the old one; with one it is never before that. */
    method Advance(d: u32)
      requires Valid()
      modifies Repr()
      ensures Valid()
      ensures old(err).Some? ==> err.Some?
      ensures err == None ==> At() == FirstFrom(list, old(At()), d)
      ensures At() >= old(At())
      ensures At() == |list| || At() >= FirstFrom(list, old(At()), d)
    {
      hide Holds, Walkable, LastOf, FirstFrom;
      ghost var from := At();
      Shape();
      AtInList();
      FirstFromSkips(list, from, d);
      if done {
        return;
      }
      if isInline {
        while i < |inline| && inline[i].docid < d
          invariant from <= i <= |inline| && !done && err == old(err) && decoded == old(decoded) && blk == old(blk)
          invariant forall j :: from <= j < i ==> list[j].docid < d
        {
          i := i + 1;
        }
        FirstFromIs(list, from, d, i);
        if i >= |inline| {
          done := true;
        }
        return;
      }
      var t := SearchBlock(d);
      BlocksBelow(t, d);
      if t >= nb {
        FirstFromIs(list, from, d, |list|);
        done := true;
        return;
      }
      if t != blk {
        blk := t;
        i := 0;
      }
      SettleIn(d, from);
    }

    /** The end of Advance: the landed block is read, and searched for d. */
    method SettleIn(d: u32, ghost from: nat)
      requires Valid() && !done && !isInline
      requires LastOf(blk) >= d
      requires from <= At() && forall j :: from <= j < At() ==> list[j].docid < d
      modifies Repr()
      ensures Valid()
      ensures old(err).Some? ==> err.Some?
      ensures err == None ==> At() == FirstFrom(list, from, d)
      ensures At() >= old(At())
      ensures At() == |list| || At() == FirstFrom(list, from, d)
    {
      hide Holds, FirstFrom, Walkable, LastOf, Loaded;
      Shape();
      AtInList();
      var ok := Ensure();
      if !ok {
        return;
      }
      var lo := LowerBound(d);
      LandedAt(d, from, lo);
      i := lo;
    }

    lemma LandedAt(d: u32, from: nat, lo: nat)
      requires Valid() && Ready() && !done && !isInline && i <= lo < n && from <= At()
      requires forall j :: from <= j < At() ==> list[j].docid < d
      requires (forall j :: i <= j < lo ==> docids[j] < d) && docids[lo] >= d
      ensures FirstFrom(list, from, d) == 128 * blk + lo
    {
      hide Holds, FirstFrom;
      var base := 128 * blk;
      forall j | from <= j < base + lo ensures list[j].docid < d {
        if j >= base + i {
          assert docids[j - base] == list[j].docid;
        }
      }
      assert docids[lo] == list[base + lo].docid;
      FirstFromIs(list, from, d, base + lo);
    }

    /** The binary search inside a decoded block. */
    method LowerBound(d: u32) returns (lo: nat)
      requires Valid() && Ready() && !done && !isInline && LastOf(blk) >= d
      ensures i <= lo < n
      ensures forall j :: i <= j < lo ==> docids[j] < d
      ensures docids[lo] >= d
    {
      hide Holds;
      Shape();
      assert docids[n - 1] >= d;
      assert forall j, m :: 0 <= j < m < n ==> docids[j] < docids[m];
      lo := i;
      var hi := n;
      while lo < hi
        invariant i <= lo <= hi <= n
        invariant forall j :: i <= j < lo ==> docids[j] < d
        invariant hi < n ==> docids[hi] >= d
      {
        var mid := (lo + hi) / 2;
        if docids[mid] < d {
          lo := mid + 1;
        } else {
          hi := mid;
        }
      }
    }

    /** BlockBound: no posting byte moves, yet no posting of d still ahead scores more. */
    method BlockBound(d: u32) returns (b: byte)
      requires Valid()
      ensures forall j :: At() <= j < |list| && list[j].docid == d ==> list[j].tf <= b
      ensures done ==> b == 0
      ensures !done && !isInline ==>
                b == if FirstFrom(list, At(), d) == |list| then 0
                     else BlockImpact(BlockOf(list, FirstFrom(list, At(), d) / 128))
    {
      hide Holds, LastOf, L1At, BlockImpact, Walkable;
      Shape();
      AtInList();
      if done {
        return 0;
      }
      if isInline {
        b := 0;
        for j := i to |inline|
          invariant forall m :: i <= m < j && list[m].docid >= d ==> list[m].tf <= b
        {
          if inline[j].docid >= d && inline[j].tf > b {
            b := inline[j].tf;
          }
        }
        return;
      }
      var t := SearchBlock(d);
      BlocksBelow(t, d);
      if t >= nb {
        FirstFromIs(list, At(), d, |list|);
        return 0;
      }
      ImpactAt(t);
      FirstInBlock(t, d);
      return L1At(skips, t).impact;
    }

    /** With block t the first that reaches d, the first posting at d or past it is in block t, and d is in no other. */
    lemma FirstInBlock(t: nat, d: int)
      requires Valid() && !done && !isInline && blk <= t && 128 * t < |list|
      requires LastOf(t) >= d
      requires forall j :: 128 * blk <= j < 128 * t && j < |list| ==> list[j].docid < d
      ensures FirstFrom(list, At(), d) < |list| && FirstFrom(list, At(), d) / 128 == t
      ensures forall j :: At() <= j < |list| && list[j].docid == d ==> 128 * t <= j < BlockEnd(|list|, t)
    {
      hide Holds, FirstFrom;
      Shape();
      AtInList();
      var f, last := FirstFrom(list, At(), d), BlockEnd(|list|, t) - 1;
      FirstFromSkips(list, At(), d);
      assert At() <= last;
    }

    /** One more than the largest docid the current block can hold. */
    method ShallowNext() returns (d: u32)
      requires Valid()
      ensures done || isInline ==> d == EXHAUSTED
      ensures !done ==> d > list[At()].docid
      ensures !done && !isInline ==> d == LastOf(blk) + 1
    {
      hide Holds, L1At, ValidList, SeedOf, NumBlocks;
      Shape();
      AtInList();
      if done || isInline {
        return EXHAUSTED;
      }
      SeedAt(blk);
      assert At() <= BlockEnd(|list|, blk) - 1;
      return L1At(skips, blk).lastDocid + 1;
    }

    /** Bound: no posting of the list scores more. */
    lemma BoundHolds(j: nat)
      requires Holds() && j < |list|
      ensures list[j].tf <= bound
    {
      if !isInline {
        hide Region, GoodSkips, ListBytes, MaxImpact, Seeds, Indexable;
        ListBound(list, j);
      }
    }
  }

  lemma SubSlice<T>(s: seq<T>, base: nat, len: nat, lo: nat, hi: nat)
    requires base + len <= |s| && lo <= hi <= len
    ensures s[base + lo..base + hi] == s[base..base + len][lo..hi]
  {
    var a, b := s[base + lo..base + hi], s[base..base + len][lo..hi];
    assert |a| == |b| && forall k :: 0 <= k < |a| ==> a[k] == b[k];
  }
}
