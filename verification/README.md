# A verified model of chizu

chizu is a search engine whose planes agree through objects in a bucket. This project models its central algorithms and
protocols in Dafny and proves what they are for:

* **Ranked retrieval** (`Bytes`, `BitPack`, `Postings*`, `Skips`, `SkipsParse`, `Ranking`, `TopHeap`, `Traversal*`,
  `Cursor*`, `Traverse*`, `Worker`, `Serve`, `Served`). Posting lists are encoded in bit-packed, patched blocks
  behind a skip region. A lazy cursor reads them a block at a time and stands for an index into the list. Block-max WAND
  and MaxScore skip most of it, and still return exactly the best k documents; the server merges shards without losing
  one.
* **The query path** (`IndexBuild`, `Mount`, `QueryTerms`, `QueryLaws`, `Execute`). Lists are encoded into a .hot file, the
  file is mounted, a query's terms are looked up and opened, shards are run and merged; from one end to the other the answer
  is what scoring everything would give, term by term of the query.
* **The dictionary** (`DictEntries`, `DictEntryLaws`, `DictFormat`, `DictWriter`, `DictReader`, `DictLaws`, `DictWalk`,
  `DictAgree`, `DictExact`, `DictOverlap`). Front-coded blocks and a block index against a plain vocabulary: both lookups
  and the walk give back what was added. Of a dictionary from anywhere: when the two lookups agree, and that one which walks
  is, byte for byte, the one written for what it yields.
* **Graph segments** (`GraphBlocks`, `GraphFrames`, `GraphSegments`, `GraphReader`, `GraphLaws`, `GraphRoundTrip`,
  `GraphSound`, `GraphOpens`). Delta chains that restart with every compressed block; what is sealed opens and walks back to
  the same sources and destinations, whatever walks is in order, and exactly which bytes open.
* **Hot files** (`HotHeader`, `HotMeta`, `HotFile`, `FileWriter`, `FileReader`, `FileLaws`, `FileSound`, `FileAgain`). The
  streaming writer against the in-memory encoder, byte for byte, a file that opens to what was put in, exactly which bytes
  open, and that they are written again as they were.
* **The chain** (`Records`, `Chain`, `ChainContents`, `Format`, `RecordCodec`, `WireLayout`, `BatchCodec`, `BatchObject`). Any
  number of handles append to one log by creating the next object, with outcomes that may be unknown. Every batch lands
  once, with the records it was asked to carry, and everybody sees the same order. The bytes of a batch are a law, with its
  one exception.
* **Leases and the root** (`Leases`, `LeaseSafety`, `Root`, `RootContents`). The lease fold, the fence and the claim against
  what the records say; the discipline of holders and takers over timed runs, with the exact time a grant may take to land;
  the root pointer in both discovery modes, and whose root is current.
* **State and checkpoints** (`ChainState`, `StateLaws`, `Checkpoint`, `CheckpointCodec`, `Checkpointer`,
  `CheckpointAgain`). The fold of the chain, checkpoints that do not depend on map order, and booting from one.
* **Canonical forms** (`SimHash`, `UrlPath`, `UrlLaws`, `UrlDots`, `UrlCanon`, `UrlQuery`, `UrlQueryLaws`). The packed
  sketch against one counter per bit, the path laws of a canonical URL against their own fixed points and RFC 3986, and when
  the query laws are stable.

Loops, cursors, heaps, readers and tables that the program updates in place are methods and classes here, each proved
against a specification function; protocols are state machines with an invariant over every run.

## How to read it

The main theorems are `TraverseBmw.TraverseBMW`, `TraverseMax.TraverseMaxScore`, `PostingsRoundTrip.BlockRoundTrip`,
`IndexBuilding.IndexAndSearch`, `QueryLaws.ScoreOfQuery`, `Executing.Execute`, `DictLaws.LookupBoth`,
`DictExactness.WalksIff`, `GraphRoundTrip.WriteAndWalk`, `GraphOpening.OpensExactly`, `FileLaws.WrittenOpens`,
`FileSoundness.OpensExactly`, `FileReEncoding.ReEncodes`, `Chain.ObservesTheChain`, `Chain.AppendedExactlyOnce`,
`ChainContents.AppendLands`, `BatchCodec.EncodedReadsBack`, `Leases.FoldLaw`, `Leases.HoldsIff`, `LeaseSafety.SlackIsExact`,
`Root.RootOnlyMovesForward`, `RootContents.RootsNameTheirWriters`, `StateLaws.StateLaw`,
`CheckpointCodec.CheckpointReadsBackIff`, `CheckpointReading.ReEncodes`, `Checkpointing.ObserveTail`,
`Checkpointing.BootsToTheSameState`, `SimHash.Simhash`, `UrlLaws.StrippedKeeps`, `UrlCanon.PathIdempotent` and
`UrlQuery.QueryIdempotentIff`. `dafny verify dfyconfig.toml` checks the whole project.

Where the code and what is said about it differ, the model follows the code:

* `chain/format.go` refuses overlong bodies but not a member with more than 255 endpoints, whose count it cuts to a byte.
  Such a batch is appended and then cannot be decoded by anybody (`BatchCodec.EncodedReadsBack`,
  `BatchCodec.CrowdedIsLost`). Its appender folds it all the same, and a checkpoint of that state does not read back
  (`CheckpointCodec.CheckpointReadsBackIff`).
* `crawl/simhash.go` says the vote is taken before any lane can overflow, which is so; its 32-bit counters wrap at 2^31
  tokens all the same, and so do those of the plain form it is compared with (`SimHash.MajorityExact`).
* `urlnorm/urlnorm.go` calls its dot-segment removal section 5.2.4 of RFC 3986. On absolute paths it is, except where it
  drops an empty segment at either end that the RFC keeps (`UrlCanon.DotsAreRfcIff`); on paths without double slashes,
  which is all that Canonicalize hands it, it always is (`UrlCanon.DotsAreRfc`, `UrlCanon.CanonicalByRfc`). The comment on
  stripping session segments says it happens before re-encoding; it happens after, which is what makes the path laws
  idempotent.
* The query laws of `urlnorm/urlnorm.go` are not idempotent for a key with a malformed escape that decoding would reveal
  as a stripped parameter, and only then (`UrlQuery.QueryIdempotentIff`).
* `coldfmt/graphseg.go` checks a block's extent with an unsigned difference that wraps for a block starting in the last
  16 bytes of the file; the slice behind the check then runs past the end (`GraphReading.ExtentExact`,
  `GraphLaws.StrayWalk`).
* `hotfmt/dict.go` has two lookups that place a block's entries differently: behind its terms, and before the next block.
  Opening does not compare the two, so on a dictionary with a gap they can find different entries; on one that walks
  they agree (`DictAgreeing.LookupsAgree`, `DictAgreeing.GapDisagrees`).
* `hotfmt/dict.go` says that Walk visits every term in order. Neither opening nor walking compares the end of a block with
  the start of the next, so a dictionary with overlapping blocks walks out of order, and yields terms that no lookup finds
  (`DictExactness.InOrderIff`, `DictOverlapping.WalksOutOfOrder`, `DictOverlapping.SecondTermLost`). What does walk in order
  is canonical, as its fuzz test asks (`DictExactness.ReSealed`).
* `chain/leases.go` gives 5000 ms of slack; a grant may land 5001 ms after its check, since a lease is over only past
  its deadline (`LeaseSafety.SlackIsExact`). A claim on a unit whose epoch is 2^32-1 wraps to epoch 0 and is never granted
  (`Leases.ClaimIsGranted`).

## Model

| member | source | states |
|---|---|---|
| `TraverseBmw.TraverseBMW` | serve/traverse.go:115-183 | for any number of apart, valid cursors at their starts, any k >= 1 and any deleted predicate: without a cursor error the result is the exact top k of exhaustive scoring, and the loop turned at most once per posting |
| `TraverseMax.TraverseMaxScore` | serve/traverse.go:45-108 | the same exact top k and the same bound on turns, although non-essential cursors lag and the partition moves with the threshold |
| `Worker.Traverse` | serve/traverse.go:20-40 | the hybrid of the two returns the exact top k for every number of terms, and fails only if the file does |
| `Ranking.TopKUnique` | serve/traverse.go:3-7 | any two results that meet the top-k specification have the same scores position by position, so the two traversals agree with each other and with exhaustive scoring |
| `Ranking.FullScore` | serve/traverse.go:160-178 | a document whose remaining postings outweigh the threshold and that is neither deleted nor held has lost none of its postings, so what is left of it is its whole score |
| `Ranking.SumAnyOrder` | serve/traverse.go:126-130 | a score does not depend on the order in which the cursors are walked |
| `TraversalSteps.InvStart` | serve/traverse.go:115-120 | before the first turn every document is wholly ahead |
| `TraversalSteps.InvEnd` | serve/traverse.go:181-183 | once no document can beat the threshold, the sorted heap is the exact top k |
| `TraversalSteps.SkipTo` | serve/traverse.go:139-146 | moving one cursor past documents that cannot beat the threshold keeps the invariant |
| `TraversalSteps.DocDropped` | serve/traverse.go:166-176 | consuming a document that is deleted or at most the threshold keeps the invariant |
| `TraversalSteps.DocOffered` | serve/traverse.go:174-178 | offering a document's whole score to the heap, and consuming it, keeps the invariant: no document is offered twice or with a part of its score |
| `TraversalSteps.LeftBounded` | serve/traverse.go:131-160 | the sum of bounds over a prefix of the cursors bounds what a document still has to gain, when the others have nothing of it |
| `TraversalSteps.RestShrinks` | serve/traverse.go:121-180 | a turn that moves any cursor forward uses up at least one posting, which is what bounds the number of turns |
| `TraverseBmw.SortByDocid` | serve/traverse.go:122-125 | the order is a permutation of the cursors with docids ascending |
| `TraverseBmw.FindPivot` | serve/traverse.go:126-138 | the bounds before the pivot do not exceed the threshold; without a pivot no document can |
| `TraverseBmw.BlockBounds` | serve/traverse.go:147-160 | the block bounds at the pivot document cover all that is left of it |
| `TraverseBmw.ScoreDoc` | serve/traverse.go:166-178 | scoring the pivot returns all that was left of it and leaves nothing of it behind |
| `TraverseBmw.Turn` | serve/traverse.go:121-180 | every turn keeps the invariant, and moves some cursor past a posting or ends the loop; the rejected pivot's move to the nearer of the shallow block end and the next docid is one of the cases |
| `TraverseMax.SortByBound` | serve/traverse.go:46-52 | a permutation of the cursors with bounds ascending |
| `TraverseMax.SumPrefixes` | serve/traverse.go:53-58 | prefix i is the sum of the i smallest bounds |
| `TraverseMax.Partition` | serve/traverse.go:59-63 | the longest prefix of bounds that cannot beat the threshold by itself |
| `TraverseMax.LeastEssential` | serve/traverse.go:64-76 | the least docid of the essential cursors, with a cursor that stands on it |
| `TraverseMax.ProbeBound` | serve/traverse.go:84-98 | while probing downwards, the score so far and the remaining bounds cover all that was left of the document |
| `TraverseMax.ScoreLeast` | serve/traverse.go:77-105 | scoring or abandoning the least document keeps the invariant and moves an essential cursor |
| `TopHeap.Heap.constructor` | serve/traverse.go:199-205 | an empty heap for k hits |
| `TopHeap.Heap.Threshold` | serve/traverse.go:206-212 | zero below k hits, then the least score kept |
| `TopHeap.Heap.SiftUp` | serve/traverse.go:215-225 | a heap again, with the same hits, when only the last hit was out of place |
| `TopHeap.Heap.SiftDown` | serve/traverse.go:230-246 | a heap again, with the same hits, when only the root was out of place |
| `TopHeap.Heap.Offer` | serve/traverse.go:213-247 | the hit is added below k hits, replaces a least one when it beats it, and is dropped otherwise |
| `TopHeap.Heap.Sorted` | serve/traverse.go:251-266 | the same hits, by descending score and then ascending docid |
| `TopHeap.RootIsLeast` | serve/traverse.go:199-212 | in heap order no score is below the root's |
| `Cursor.TermCursor.Inline` | serve/cursor.go:42-66 | a valid cursor at the start of the posting list an inlined entry holds |
| `Cursor.TermCursor.Banded` | serve/cursor.go:42-66 | a valid cursor at the start of the posting list that the skip region and the postings band encode |
| `Cursor.TermCursor.Ensure` | serve/cursor.go:90-131 | loads the block the cursor stands in and stays where it is in the list; ok exactly when the list has more |
| `Cursor.TermCursor.FetchBlock` | serve/cursor.go:96-125 | reads the one block that the skip region locates, into the cursor's buffers, or reports why not |
| `Cursor.TermCursor.ReadBlockHolds` | serve/cursor.go:96-125 | on well-formed input a block read fails only when the file cannot be read: offsets, the 4096-byte buffer and the decoder never get in the way, and the block's postings are the list's |
| `Cursor.TermCursor.BlockDecodes` | serve/cursor.go:96-125 | every encoded block is at most 897 bytes and decodes at its own place, with the previous block's last docid as base, to exactly its postings |
| `Cursor.TermCursor.Docid` | serve/cursor.go:135-144 | the docid at the cursor's position in the list, or the sentinel at its end |
| `Cursor.TermCursor.Impact` | serve/cursor.go:147-153 | the tf at the cursor's position |
| `Cursor.TermCursor.Next` | serve/cursor.go:156-173 | one posting further |
| `Cursor.TermCursor.SearchBlock` | serve/cursor.go:188-205 | the first block from the current one on whose last docid reaches the target |
| `Cursor.TermCursor.Advance` | serve/cursor.go:179-217 | the first posting from here on with a docid of at least the target; on an error never before it |
| `Cursor.TermCursor.BlockBound` | serve/cursor.go:222-243 | bounds every remaining posting of the document, being the impact of the one block that can hold it |
| `Cursor.TermCursor.ShallowNext` | serve/cursor.go:248-253 | one past the current block's last docid, always past the current posting |
| `Cursor.TermCursor.BoundHolds` | serve/cursor.go:69-73 | the cursor's bound covers every posting of its list |
| `Worker.OpenTerm` | serve/worker.go:92-123 | past the slot check and the lookup: a valid cursor at the start of exactly the list the dictionary entry stands for; the only error is a failed read |
| `PostingsEncode.EncodePostings` | hotfmt/postings.go:55-91 | accepts exactly the valid posting lists, and returns the concatenated blocks with one skip seed per block |
| `PostingsEncode.CheckPostings` | hotfmt/postings.go:56-68 | the checks reject a list exactly when it is not valid |
| `PostingsEncode.AppendForBlock` | hotfmt/postings.go:125-165 | appends the specified bytes of a full block: header, packed gaps with exceptions cleared, patches, packed tfs, masks |
| `PostingsEncode.AppendVbyteBlock` | hotfmt/postings.go:244-266 | appends the specified bytes of a short block |
| `PostingsEncode.BlockAt` | hotfmt/postings.go:69-90 | block b lies in the encoded list exactly between its own skip offset and the next |
| `PostingsEncode.SeedsIncrease` | hotfmt/postings.go:69-90 | last docids and offsets of the skip seeds strictly increase |
| `Postings.ChooseWidth` | hotfmt/postings.go:169-192 | the chosen width has the least cost of all widths whose exceptions can be patched, the smaller one on ties, and the patches are exactly the gaps that do not fit it |
| `Postings.ExceptionsGrow` | hotfmt/postings.go:172-182 | leaving off the exception search early is safe: a prefix never has more exceptions than the whole |
| `BitPack.AppendPacked` | hotfmt/postings.go:200-219 | appends the values' w-bit little-endian packing |
| `BitPack.Unpack` | hotfmt/postings.go:221-240 | fills exactly n values with what the packed bytes hold and leaves the rest of the buffer alone |
| `BitPack.PackRoundTrip` | hotfmt/postings.go:200-240 | unpacking restores the packed values for every width up to 32, whatever follows them |
| `BitPack.AccumulatorFits` | hotfmt/postings.go:200-219 | the 64-bit accumulator never overflows, so its or and shift are the sum and product of the model |
| `PostingsRoundTrip.PatchesRestore` | hotfmt/postings.go:140-165 | applying the patches to the cleared gaps restores the gaps |
| `PostingsRoundTrip.ForRoundTrip` | hotfmt/postings.go:125-165 | a full block decodes to exactly itself and uses exactly its bytes |
| `PostingsRoundTrip.TailRoundTrip` | hotfmt/postings.go:244-266 | a short block decodes to exactly itself and uses exactly its bytes |
| `PostingsRoundTrip.BlockRoundTrip` | hotfmt/postings.go:69-91 | any valid block, followed by anything, decodes to its docids, tfs and masks, its header fields, and its own length |
| `PostingsRoundTrip.DecodeSound` | hotfmt/postings.go:272-401 | whatever bytes decode: at most 128 postings, strictly increasing docids past the base and up to the header's last, no zero tf, masks in range |
| `PostingsRoundTrip.BlockSize` | hotfmt/postings.go:194-198 | every block is between 10 and 897 bytes |
| `PostingsRoundTrip.CheapestIsSmall` | hotfmt/postings.go:169-192 | 128 gaps never cost more than 512 bytes at the chosen width |
| `PostingsDecode.DecodePostingsBlock` | hotfmt/postings.go:272-401 | overwrites the three buffers with exactly what the specification of decoding says, or returns its error |
| `Skips.EncodeSkips` | hotfmt/skips.go:55-91 | accepts exactly non-empty, equally long, strictly increasing arrays with 40-bit offsets, and appends the region they determine |
| `Skips.L1Reads` | hotfmt/skips.go:95-102 | reading entry i straight from the region gives back entry i |
| `Skips.SkipBound` | hotfmt/skips.go:106-114 | the largest impact in the second level, zero when there is none |
| `Skips.BoundIsMax` | hotfmt/skips.go:104-114 | that is the largest impact of the first level |
| `Skips.L2Reads` | hotfmt/skips.go:75-90 | second-level entry g carries the largest impact of its group of 32 blocks |
| `Serve.MergeOne` | serve/server.go:357-374 | with one more hit offered the entries are again the best k of all offered, score descending |
| `Serve.MergeHits` | serve/server.go:356-376 | after a shard's hits the entries are the best k of everything merged so far, score descending, none lost or duplicated |
| `Served.ServedIsTopK` | serve/server.go:300-376 | with every shard answering its own exact top c and c >= k, the merged entries are the best k of every scoring document of all listed shards |
| `Served.BestUnique` | serve/server.go:356-376 | the best k of a collection have the same scores at every position, whoever computes them |
| `Served.NoClamp` | serve/server.go:356-376 | with at most 32 terms a score is at most 8160, so the clamp to 16 bits never changes one |
| `Executing.Execute` | serve/server.go:300-330 | a shard past the time limit, not mounted or unreadable is skipped and flagged, and the entries are the best k of the others' exact answers; when none was, such exhaustive results exist and the entries are the best k of everything they hold on all listed shards |
| `Served.SomeFull` | serve/server.go:356-376 | exhaustive scoring always has a result: every undeleted document with a score, once, at that score |
| `Executing.RunShard` | serve/server.go:332-351 | a shard's answer is its own exact top candidates; it has none only when it is not mounted or its file cannot be read |
| `Executing.ServedScores` | serve/server.go:356-376 | every entry is a document of a listed shard at its whole score |
| `QueryTerms.ExecuteShard` | serve/server.go:332-351 | the exact top candidates over the lists of the query's positive terms, absent ones left out; an error needs more terms than slots or an unreadable file |
| `Serve.NothingBetterLeftOut` | serve/server.go:300-376 | a live document of any shard that is not among the entries is beaten or tied by k entries, given that its shard returned an exact top c with c >= k |
| `Bytes.UvarintLaw` | coldfmt/primitives.go:11-39 | bytes decode to v exactly when they start with the one minimal encoding of a 64-bit v |
| `Bytes.UvarintRoundTrip` | coldfmt/primitives.go:18-34 | every 64-bit value reads back, whatever follows it |
| `Chain.InvNext` | chain/chain.go:60-163 | each step of a handle or of the store keeps the protocol's invariant |
| `Chain.ObservesTheChain` | chain/chain.go:60-163 | in every interleaving the occupied slots are a gap-free prefix, no batch sits in two of them, and a handle has observed exactly the slots from its start to its position, in order |
| `Chain.RunAppends` | chain/chain.go:60-125 | a slot, once written, keeps its batch |
| `Chain.Agreement` | chain/chain.go:60-83 | two handles that start at the same slot have observed the same batches in the same order, at any two moments, as far as both have got |
| `Chain.AppendedExactlyOnce` | chain/chain.go:85-125 | the slot a successful Append returned is, then and ever after, the only one that holds its batch |
| `Chain.LateWriteDuplicates` | chain/chain.go:104-121 | why the store assumption is needed: with a write that lands after its slot was read as empty, a run of eight steps puts one batch into two slots |
| `Format.FieldsLaw` | chain/format.go:141-190 | reading fields of given widths and writing them are inverse, on exactly the values that fit |
| `Format.StrLaw` | chain/format.go:191-199 | the same for length-prefixed strings below 64 KiB |
| `Format.ManyLaw` | chain/format.go:118-128 | the same for any number of repetitions of anything with such a law |
| `Format.ObjectLaw` | chain/format.go:28-62 | an object opens exactly when it is what was framed: magic, format, version, both checksums, nothing else |
| `RecordCodec.RecordLaw` | chain/records.go:239-287 | a body decodes to a record exactly when it is that record's body and every count in it fits its field |
| `RecordCodec.MemberLaw` | chain/records.go:60-80 | the same for the member record with its strings |
| `BatchCodec.BatchLaw` | chain/format.go:75-135 | bytes decode to a batch exactly when they are what it encodes to and no member in it has more than 255 endpoints |
| `BatchCodec.EncodedReadsBack` | chain/format.go:75-135 | what encoding accepts reads back, unless a member has more than 255 endpoints; then the bytes do not decode at all |
| `BatchCodec.OverfullFails` | chain/records.go:70-79 | the body of a member with more than 255 endpoints, its count cut to a byte, never decodes |
| `BatchCodec.CrowdedIsLost` | chain/format.go:75-135 | a batch whose one member has 256 empty endpoints passes every check of encoding, and its bytes do not decode |
| `BatchObject.Reader.Take` | chain/format.go:146-157 | the sticky reader hands out the next bytes or fails for good |
| `BatchObject.Reader.TakeBody` | chain/records.go:239-287 | reads one body as the specification does, error state included |
| `BatchObject.DecodeRecord` | chain/records.go:236-287 | a known kind, fully read and used up, or the error |
| `BatchObject.DecodeBatch` | chain/format.go:99-135 | decodes completely or returns the first error, as specified |
| `BatchObject.Encode` | chain/format.go:75-97 | refuses too many records or an overlong body, else writes the specified bytes |
| `Leases.LeaseTable.ApplyRecord` | chain/leases.go:82-111 | the table becomes the fold's next table |
| `Leases.LeaseTable.Apply` | chain/leases.go:74-80 | a batch's records are folded in order |
| `Leases.FoldLaw` | chain/leases.go:82-111 | after any sequence of records the table holds l for a unit exactly when the records grant l: the first grant of the highest epoch gives node and epoch, its holder's renewals before a release give the latest deadline, and a later release of that epoch gives the flag |
| `Leases.LeaseOnlyMovesForward` | chain/leases.go:82-111 | whoever appends: an epoch never decreases, has one holder, keeps its deadline from moving back and its release from being undone |
| `Leases.Fenced` | chain/leases.go:134-141 | of two commits that pass the fence for one partition the later never has the lower epoch; equal epochs mean one writer, which held the partition all the time between |
| `Leases.ClaimIsGranted` | chain/leases.go:118-132 | a claim appended to the table it was made on is granted exactly when the unit's 32-bit epoch is not used up |
| `LeaseSafety.InvNext` | chain/leases.go:16-62 | each action of a node, the clock or the chain keeps the invariant of the discipline |
| `LeaseSafety.OneWriter` | chain/leases.go:16-20 | at no point of any run does a node whose own view lets it write coexist with a higher-epoch grant: it holds the unit on the whole chain, and no other node may write |
| `LeaseSafety.SlackIsExact` | chain/leases.go:16-20 | two nodes never share a unit if and only if every grant lands within 5001 ms of the check that allowed it |
| `Root.InvNext` | chain/root.go:101-204 | each step of a store keeps the invariant, in both discovery modes, including a write that takes effect at any later time |
| `Root.RootOnlyMovesForward` | chain/root.go:158-204 | the current root's checkpoint never goes back, a new root carries a later one, identity and frozen policy never change |
| `Root.AdvanceReaches` | chain/root.go:158-204 | Advance returns a root at or past the sequence asked for, and no later current root is behind it |
| `Root.AdvanceWritesCurrent` | chain/root.go:176-196 | a root returned by writing it is the current root as Advance returns, carries exactly the sequence asked for, and succeeds a root that was behind |
| `ChainState.State.Apply` | chain/state.go:48-80 | folds the records of a batch in order |
| `ChainState.State.ApplyRecord` | chain/state.go:53-78 | the state's maps and counters become the fold's next state |
| `ChainState.LeasesOfState` | chain/state.go:56-57 | the lease part of the state is the lease fold |
| `StateLaws.StateLaw` | chain/state.go:48-80 | after any records: members are the last announced, leases what the lease records grant, manifest pointers and the checkpoint the largest announced, generations those published and not since retired, tiers those of the first map of the highest version |
| `ChainState.AppliedNoEarlier` | chain/state.go:58-78 | manifest pointers, tier version and announced checkpoint never go back, no manifest is forgotten, and tiers change only with their version |
| `ChainState.ReplayKeyed` | chain/state.go:51-80 | in every reachable state each entry is filed under its own key |
| `Checkpoint.SortedEntries` | chain/ckpt.go:40-42 | a map's entries by increasing key, each once, in whatever order the keys come |
| `Checkpoint.OneListing` | chain/ckpt.go:26-34 | there is only one such listing, so map iteration leaves no trace |
| `Checkpoint.ListingRestores` | chain/ckpt.go:163-189 | inserting the listed entries one by one gives the map back |
| `Checkpointing.EncodeCheckpoint` | chain/ckpt.go:34-100 | writes a checkpoint of the state |
| `Checkpointing.DecodeCheckpoint` | chain/ckpt.go:136-202 | decodes as specified, checksums, lengths and trailing bytes included |
| `Checkpointing.Checkpointer.Observe` | chain/ckpt.go:225-232 | folds the batch, and on a triggering slot captures a checkpoint of exactly the state at the boundary |
| `CheckpointCodec.CheckpointRoundTrip` | chain/ckpt.go:34-202 | a checkpoint decodes to the state it was taken of, with its slot and writer |
| `CheckpointCodec.OneCheckpoint` | chain/ckpt.go:29-34 | a state has one checkpoint: racing writers produce the same bytes |
| `Checkpointing.BootsToTheSameState` | chain/ckpt.go:204-232 | for every chain of decoded batches and every boundary, decoding the checkpoint and folding the tail gives what folding from slot zero gives |
| `CheckpointCodec.CheckpointReadsBackIff` | chain/ckpt.go:34-202 | a checkpoint decodes to the state it was taken of if and only if every member of that state fits its fields; a member with more than 255 endpoints, cut to a byte, does not |
| `Checkpointing.BootsIff` | chain/ckpt.go:136-202 | the same over any batches a handle may have folded, its own undecoded ones included |
| `Checkpointing.CrowdedCheckpointLost` | chain/ckpt.go:46 | a handle that folded its own member with more than 255 endpoints writes a checkpoint that does not boot to its state |
| `Checkpointing.CapturesAgree` | chain/ckpt.go:26-34 | a handle that folded from zero and one that booted from a checkpoint capture identical bytes at every later boundary |
| `SimHash.Simhash` | crawl/simhash.go:15-49 | the lane-packed loop computes the one-counter-per-bit sketch for token sequences of any length: no lane overflows before the flush, and no chunk boundary shows |
| `SimHash.SimhashRef` | crawl/simhash_test.go:9-29 | the plain counters compute the same sketch |
| `SimHash.Flush` | crawl/simhash.go:20-28 | moves the lanes' votes into the counters and empties the lanes |
| `SimHash.Vote` | crawl/simhash.go:34-36 | sixteen adds count one token in all 64 lanes |
| `SimHash.LanesOf` | crawl/simhash.go:22-24 | four 16-bit lanes in one word read back |
| `SimHash.MajorityExact` | crawl/simhash.go:15-49 | the sketch is the majority vote, for every input of n tokens and every bit, if and only if n is below 2^31; beyond, a 32-bit counter wraps on some input |
| `SimHash.SketchIsMajority` | crawl/simhash.go:43-48 | below 2^31 tokens a bit is set exactly when more than half of the tokens have it |
| `UrlPath.Reencode` | urlnorm/urlnorm.go:215-248 | the loop computes the re-encoding |
| `UrlPath.ReencodedNorm` | urlnorm/urlnorm.go:215-248 | its result has only path bytes and needed upper-case escapes |
| `UrlPath.NormFixed` | urlnorm/urlnorm.go:215-248 | such text is left alone |
| `UrlPath.StripSessionSegments` | urlnorm/urlnorm.go:171-187 | the loop computes the stripping |
| `UrlPath.StrippedClean` | urlnorm/urlnorm.go:171-187 | no session segment is left, in any case |
| `UrlPath.StrippedNorm` | urlnorm/urlnorm.go:58-69 | cutting a session segment never splits an escape |
| `UrlPath.CollapseSlashes` | urlnorm/urlnorm.go:126-142 | the loop computes the collapsing |
| `UrlDots.RemoveDotSegments` | urlnorm/urlnorm.go:144-169 | the loop over segments computes the removal |
| `UrlDots.RfcOnSegments` | urlnorm/urlnorm.go:144-169 | the byte-level algorithm of section 5.2.4 of RFC 3986, run on slash-led segments, keeps a stack of segments |
| `UrlCanon.DotsAreRfc` | urlnorm/urlnorm.go:144-169 | on absolute paths without double slashes removal is the algorithm of section 5.2.4 of RFC 3986 |
| `UrlCanon.DotsAreRfcIff` | urlnorm/urlnorm.go:144-169 | on any absolute path removal is the algorithm of section 5.2.4 of RFC 3986 if and only if neither an empty last segment before a dot segment at the end, nor an empty first segment behind one .. too many, is dropped |
| `UrlCanon.DotsAreNotRfc` | urlnorm/urlnorm.go:144-169 | one path of the failing family, ruled out by collapsing slashes first: for /..//a the code gives /a and the RFC //a |
| `UrlCanon.CanonicalByRfc` | urlnorm/urlnorm.go:64-70 | on every absolute path the canonical form is what the RFC's algorithm makes of the re-encoded, stripped, collapsed path |
| `UrlCanon.CanonicalPath` | urlnorm/urlnorm.go:64-70 | the four laws in the code's order |
| `UrlCanon.PathIdempotent` | urlnorm/urlnorm.go:64-70 | the path laws are idempotent as a whole, on every input |
| `UrlCanon.CanonicalIff` | urlnorm/urlnorm.go:64-70 | a path is left alone exactly when it is normally encoded, free of session segments and dot segments, absolute, and has no empty segment but the last |
| `SkipsParse.ParseSkips` | hotfmt/skips.go:116-166 | accepts a region exactly when it is the encoding of some first level and position offsets, and returns those, with a second level that holds each group's last docid and largest impact |
| `QueryTerms.OpenQueryTerm` | serve/worker.go:86-123 | no cursor exactly for a term that is not indexed, else a valid cursor at the start of that term's posting list; an error needs all 32 slots taken or an unreadable file |
| `Mounting.MountFile` | serve/mount.go:106-137 | opens the file, its dictionary and the places of its skips and postings, as specified |
| `IndexBuilding.BuildBands` | hotfmt/hot_integration_test.go:68-155 | posting lists, inline or encoded with their skip regions, laid out in two bands under dictionary entries that point at them |
| `IndexBuilding.MountServes` | serve/mount.go:106-137 | mounting the file that carries these bands gives a mount that serves exactly those terms and lists |
| `IndexBuilding.IndexAndSearch` | serve/server.go:332-351 | the whole way: encoding any lists that fit, writing the file, mounting it and querying it returns the exact top candidates of exhaustive scoring over the lists the query names |
| `DictEntries.Validate` | hotfmt/dict.go:55-88 | no complaint exactly for valid entries, banded or inlined |
| `DictEntries.EntryRoundTrip` | hotfmt/dict.go:90-154 | the 32 bytes of a valid entry parse to it |
| `DictWriting.DictWriter.Add` | hotfmt/dict.go:166-200 | takes exactly a valid entry whose term is in range and above the last one, and then the vocabulary has grown by it; else nothing changed |
| `DictWriting.DictWriter.FlushBlock` | hotfmt/dict.go:203-210 | closes the open block: the band is that of all whole blocks |
| `DictWriting.DictWriter.Seal` | hotfmt/dict.go:213-228 | refuses only an empty vocabulary, and writes the dictionary of exactly the terms added |
| `DictFormat.LessTrans` | hotfmt/dict.go:166-180 | the order of terms, by first differing byte, is transitive: what binary search and early stopping rely on |
| `DictReading.OpenDict` | hotfmt/dict.go:238-290 | opens exactly what the specification opens; first terms then ascend strictly and every block lies before the index |
| `DictReading.Search` | hotfmt/dict.go:296-312 | the number of blocks whose first term is not above the query |
| `DictReading.Lookup` | hotfmt/dict.go:296-312 | decodes in full the one block whose first term is at most the query and whose successor's is above it |
| `DictReading.LookupInto` | hotfmt/dict.go:318-380 | walks that same block, stopping early |
| `DictReading.ScanBlock` | hotfmt/dict.go:417-472 | the whole block, every check included, and the entry of the matching term |
| `DictReading.SeekTerm` | hotfmt/dict.go:335-380 | the walk that stops at the first term not below the query |
| `DictLaws.SealedOpens` | hotfmt/dict.go:213-290 | the bytes of any vocabulary open, to its own blocks and first terms |
| `DictLaws.ScanFinds` | hotfmt/dict.go:417-472 | the full scan of a written block finds what a plain search of its terms finds |
| `DictLaws.SeekFinds` | hotfmt/dict.go:335-380 | the early-stopping walk of a written block finds the same, from any term on that the query has not met yet |
| `DictLaws.InItsBlock` | hotfmt/dict.go:296-312 | a term that is in the vocabulary at all is in the one block that the index leads to |
| `DictLaws.LookupBoth` | hotfmt/dict.go:213-472 | for every vocabulary and every query, sealing, opening and either lookup give exactly the entry that was added, or absence |
| `DictAgreeing.LookupsAgree` | hotfmt/dict.go:296-408 | on any dictionary that opens and walks, whoever wrote it, both lookups give the same answer, without an error, to every query |
| `DictAgreeing.DenseAgrees` | hotfmt/dict.go:296-380 | the same for one block, as soon as the block's full scan ends where the next block, or the index, starts |
| `DictAgreeing.GapDisagrees` | hotfmt/dict.go:296-343 | a dictionary with a gap before its index, which opens and on which both lookups find the query and return different valid entries |
| `DictWalking.Walk` | hotfmt/dict.go:385-408 | visits the blocks in order, each read in full, and complains about one that does not end where the next begins |
| `DictWalking.BlockScans` | hotfmt/dict.go:417-472 | a written block is read as its own terms and entries, up to exactly its last byte |
| `DictWalking.WalkSealed` | hotfmt/dict.go:213-472 | for every vocabulary, opening what was sealed and walking it yields exactly the terms and entries that were added, in order |
| `GraphBlocks.FrameRoundTrip` | coldfmt/block.go:78-144 | a framed block decodes to its raw bytes, stored or compressed, given that decompressing inverts compressing |
| `GraphBlocks.DstsRead` | coldfmt/graphseg.go:283-309 | a strictly increasing list of destinations, delta-coded, reads back and uses exactly its bytes |
| `GraphBlocks.RawRead` | coldfmt/graphseg.go:258-320 | a block's sources and destinations read back from its raw bytes, under every check against the index and the blocks before |
| `GraphSegments.GraphSegmentWriter.Add` | coldfmt/graphseg.go:50-69 | takes exactly what keeps sources and destinations strictly increasing and in range; else nothing changed |
| `GraphSegments.GraphSegmentWriter.Seal` | coldfmt/graphseg.go:73-149 | refuses only an empty segment, and writes the segment of a cut of exactly the added sources into blocks of which all but the last reach the target, and none goes on past the source that does |
| `GraphSegments.Blocks` | coldfmt/graphseg.go:73-120 | the delta chain runs inside a block and starts over in the next; no source is lost between blocks |
| `GraphReading.OpenGraphSegment` | coldfmt/graphseg.go:167-233 | opens exactly what the specification opens |
| `GraphReading.OpenIndex` | coldfmt/graphseg.go:202-227 | accepts the block index exactly when its first sources start at the first source, increase and stay up to the last |
| `GraphReading.Walk` | coldfmt/graphseg.go:240-328 | hands out exactly the sources that the specification reads, wrapping extent check included, and checks the footer's counts at the end |
| `GraphReading.ExtentExact` | coldfmt/graphseg.go:244-249 | the unsigned extent check lets a block through that runs past the end of the file if and only if it starts in the last 16 bytes or at the end |
| `GraphLaws.StrayWalk` | coldfmt/graphseg.go:240-249 | a file of 113 bytes that opens and whose walk slices past its end |
| `GraphLaws.WalkStaysInside` | coldfmt/graphseg.go:240-328 | when no block starts there, no walk slices past the end |
| `GraphLaws.SealedOpens` | coldfmt/graphseg.go:73-233 | what was sealed opens, with its own counts and block index |
| `GraphLaws.BlockReads` | coldfmt/graphseg.go:244-256 | every indexed block comes back as its raw bytes |
| `GraphLaws.SealedWalks` | coldfmt/graphseg.go:73-328 | for any cut of valid sources into blocks, opening what was sealed and walking it yields exactly those sources and destinations in order |
| `GraphSoundness.WalkSound` | coldfmt/graphseg.go:167-328 | whoever wrote the file: when it opens and its walk succeeds, the sources are valid and in order, lie between the footer's first and last source, and are as many, with as many destinations, as the footer says |
| `GraphRoundTrip.WriteAndWalk` | coldfmt/graphseg.go:28-328 | any valid sources at any block target, the default one for 0 included, that every cut of them takes into a segment within its format: adding them, sealing, opening and walking yields exactly them, in order |
| `GraphRoundTrip.CutIsSealable` | coldfmt/graphseg.go:73-149 | a cut of valid sources is within the format as soon as no source takes a block past the raw cap and its index fits the footer's 32-bit length |
| `GraphRoundTrip.FewSourcesSealable` | coldfmt/graphseg.go:73-149 | so for up to 171,798,690 sources, however few of them share a block |
| `HotHeader.HeaderLaw` | hotfmt/format.go:83-156 | bytes parse to a header exactly when they start with that header's page and the header is sound |
| `HotFile.EncodeFile` | hotfmt/file.go:45-127 | refuses an unsound header, meta and fieldstats that disagree with it or with each other or are malformed, an overlong provenance and bands that are not the caller's, else writes the one byte stream of the contents |
| `HotMeta.MetaLaw` | hotfmt/meta.go:42-128 | the meta band parses to m exactly when it is what m is written as, and m is well-formed |
| `HotMeta.StatsLaw` | hotfmt/meta.go:145-198 | the same for the fieldstats band |
| `FileWriting.FileWriter.Pad` | hotfmt/filewriter.go:69-80 | zero bytes up to the next boundary |
| `FileWriting.FileWriter.WriteBand` | hotfmt/filewriter.go:86-115 | takes the next band in canonical order only; whatever pieces a reader hands out, the file has grown by padding, payload and index record |
| `FileWriting.FileWriter.WriteBandBytes` | hotfmt/filewriter.go:118-132 | the same from memory |
| `FileWriting.FileWriter.Finish` | hotfmt/filewriter.go:135-174 | with all nine bands written, the file is byte for byte what the in-memory encoder writes |
| `FileWriting.StreamedIsEncoded` | hotfmt/filewriter.go:28-174 | for any contents and any pieces in which the bands arrive, streaming them and encoding them in memory either both refuse or give the same bytes |
| `FileWriting.NewFileWriter` | hotfmt/filewriter.go:28-60 | refuses what the in-memory encoder refuses of header, meta and fieldstats, else starts with the header page and these two bands |
| `FileWriting.WrittenMore` | hotfmt/filewriter.go:86-132 | one more band extends the layout and the band index by exactly that band |
| `FileReading.Open` | hotfmt/file.go:160-218 | opens as specified: tail, footer, header page, the two bands that stay in memory, parsed and held against the header |
| `FileReading.ParseFooter` | hotfmt/file.go:225-293 | band index and provenance as specified, first complaint included |
| `FileReading.ReadBand` | hotfmt/file.go:306-339 | the first band with the id, its bytes checked against its checksum |
| `FileLaws.BandsLaw` | hotfmt/file.go:237-267 | the band index parses to these records exactly when they are aligned and dense up to the footer and these are their bytes |
| `FileLaws.ProvenanceLaw` | hotfmt/file.go:268-293 | the provenance parses to p exactly when it is what p is written as, within its limits |
| `FileLaws.FooterLaw` | hotfmt/file.go:225-293 | a footer parses exactly when it is the footer of nine bands that fill the file densely up to it |
| `FileLaws.WrittenOpens` | hotfmt/file.go:45-218 | a written file passes every check of opening, to the same header, provenance, meta and fieldstats; its bands are dense and aligned from the first boundary to the footer, and every payload reads back under its id |
| `UrlQuery.CanonicalizeQuery` | urlnorm/urlnorm.go:189-210 | the loop computes the query laws, for any stripping law |
| `UrlQuery.QueryIdempotentIff` | urlnorm/urlnorm.go:189-210 | the query laws leave their own result alone if and only if no part resurfaces: no key with a malformed escape that is kept raw names a stripped parameter once its malformed escapes stand for themselves |
| `UrlQuery.QueryNotIdempotent` | urlnorm/urlnorm.go:202-208 | one such query: %75tm_%zz is kept on the first pass and stripped on the second |
| `UrlQuery.KeyOfReencoded` | urlnorm/urlnorm.go:201-209 | the key of a re-encoded part is the re-encoded key |
| `UrlQuery.ReencodedDecodes` | urlnorm/urlnorm.go:201-209 | a re-encoded key always decodes, to the raw key with malformed escapes standing for themselves |
| `ChainContents.SlotsHoldCalls` | chain/chain.go:85-124 | in every interleaving, late writes included, each occupied slot holds exactly the records that some handle was asked to append, in the call its batch number says |
| `ChainContents.AppendLands` | chain/chain.go:85-124 | an append that returned a slot landed there, then and ever after and nowhere else, under its handle's name and number, with exactly the records of that handle's call of that number |
| `ChainContents.ReturnedIff` | chain/chain.go:104-121 | an append returns a slot exactly when its create went through or the read behind an unknown outcome found its own batch, and then the slot it stood at |
| `ChainContents.AppendAlone` | chain/chain.go:90-124 | from any reachable state, with nobody else moving, an append lands its records in the first free slot, whatever its handle had missed, and returns that slot |
| `ChainContents.ResolveAlone` | chain/chain.go:140-164 | an append that does not know its outcome finds out: its own slot if its batch is there, else the first free one |
| `ChainContents.PollAlone` | chain/chain.go:57-83 | from any reachable state a poll observes every occupied slot it has not seen, in order, and stops at the first free one |
| `RootContents.RootsNameTheirWriters` | chain/root.go:101-190 | in both modes and however late a write lands: every root that has ever been current was sent off by a Create or an Advance, under the writer its store was opened with, and for an Advance with the number it was called with |
| `RootContents.WriteIsOwn` | chain/root.go:176-196 | the root that an Advance returns by writing it is the newest and carries its own store's writer |
| `RootContents.AdvanceAlone` | chain/root.go:158-204 | from any reachable world, in either mode, an Advance that runs alone returns the current root if that is far enough, and else writes exactly its successor: the number asked for, its own writer, everything else kept |
| `RootContents.RetryAlone` | chain/root.go:177-203 | a write that is refused or whose outcome is unknown leads to another load, and alone to such a root |
| `Leases.HoldsIff` | chain/leases.go:134-141 | from the records alone: a node holds a unit at an epoch exactly when its grant was the first of that epoch, no later epoch has been granted and no release of it follows |
| `Leases.AcceptedIff` | chain/leases.go:134-141 | the same for a commit to a crawl partition, which is domain 1 |
| `Leases.NoneAfterRelease` | chain/leases.go:134-141 | no commit is accepted behind a release of its epoch, whoever writes it |
| `Leases.ClaimableIff` | chain/leases.go:46-50 | from the records alone: a unit is claimable at the next epoch as soon as its last grant is released, or once every deadline its holder asked for in time is past, and not before |
| `QueryLaws.ScoreOfQuery` | serve/server.go:332-351 | for every query and document the score in an answer is the sum, position by position, of the tf that the term's own list has of the document, with nothing from exclusions and terms that are not indexed |
| `QueryLaws.AppendNothing` | serve/server.go:339-342 | an exclusion or a term that is not indexed, appended to a query, changes no answer |
| `QueryLaws.AppendList` | serve/server.go:339-346 | any other indexed term, appended, adds exactly its list |
| `UrlLaws.StrippedKeeps` | urlnorm/urlnorm.go:171-187 | what stripping keeps: the text in front of the first session segment, in any case, and what it keeps of the text from the next slash, semicolon or question mark on; text without one whole |
| `UrlLaws.ReencodedIff` | urlnorm/urlnorm.go:215-248 | re-encoding gives the one normally encoded text with the same octets and the same delimiters |
| `UrlLaws.SlashAgain` | urlnorm/urlnorm.go:126-142 | a slash behind a slash makes no difference |
| `UrlQueryLaws.QueryPartByPart` | urlnorm/urlnorm.go:189-211 | part by part: one that is empty or stripped leaves no trace, any other goes re-encoded behind what was kept before it, and the order stays |
| `UrlQueryLaws.LawKeyIs` | urlnorm/urlnorm.go:201-204 | the key that is looked at ends at the first equals sign, decoded exactly when every percent sign in it starts an escape |
| `StateLaws.AssignedGives` | chain/state.go:66-73 | a tier map gives each shard the last tier it names for it, and no other shard any |
| `Checkpointing.ObserveTail` | chain/ckpt.go:225-232 | polling with a checkpointer wired in captures exactly the slots that complete an interval, in order, each as a checkpoint of the state at that slot under its batch's writer |
| `CheckpointCodec.KeyOrders` | chain/ckpt.go:28-40 | checkpoint entries are ordered by the parts of their keys, most significant first |
| `DictEntryLaws.EntryLaw` | hotfmt/dict.go:107-163 | 32 bytes are an entry exactly when it is sound and they are what it is written as; no entry has two forms |
| `DictExactness.ScanExact` | hotfmt/dict.go:415-473 | whatever bytes scan as a block are, up to where scanning ends, what its items are written as |
| `DictExactness.WalksIff` | hotfmt/dict.go:382-408 | whoever wrote them: bytes open and walk, yielding v, exactly when they are the dictionary written for v, in order within each block and by first terms |
| `DictExactness.ReSealed` | hotfmt/dict_test.go:196-222 | an accepted dictionary is canonical: what it yields, if a writer takes it, is written as the very same bytes |
| `DictExactness.InOrderIff` | hotfmt/dict.go:382-384 | the walk is in order exactly when each block ends below the next one's first term |
| `DictOverlapping.WalksOutOfOrder` | hotfmt/dict.go:382-408 | one dictionary that opens and walks out of order |
| `DictOverlapping.SecondTermLost` | hotfmt/dict.go:296-380 | and a term of it that the walk yields and neither lookup finds |
| `GraphFrames.FrameLaw` | coldfmt/block.go:109-144 | bytes decode to raw exactly when they are a frame of it, stored or compressed |
| `GraphFrames.WrittenFrame` | coldfmt/block.go:78-107 | a block is compressed exactly when that makes it shorter |
| `GraphOpening.OpensExactly` | coldfmt/graphseg.go:167-233 | whatever the bytes: they open as a segment exactly when they are its header, footer and tail with a sound block index |
| `PostingsHeads.DecodedSays` | hotfmt/postings.go:272-330 | the eight header bytes of every block that decodes, one by one |
| `PostingsHeads.WrittenSays` | hotfmt/postings.go:120-168 | and of every block that is written, with its largest impact in the fifth |
| `FileSoundness.OpensExactly` | hotfmt/file.go:160-292 | whatever the bytes: they open as a .hot file exactly when they are one: header page, dense bands, footer and tail under their checksums, and contents that agree |
| `FileSoundness.ContentsAreSound` | hotfmt/file.go:45-158 | what the writer takes and a reader opens: a base or a later delta, ids in order, names of 1 to 64 bytes, and the same documents, tokenizer, scale and fields throughout |
| `WireLayout.EpochLeads` | chain/records.go:8-12 | kinds are numbered from 1 and every record scoped by an epoch starts with it |
| `WireLayout.GrantLayout` | chain/records.go:93-101 | where each field of a grant is |
| `WireLayout.CommitLayout` | chain/records.go:130-141 | where each field of a commit is |
| `WireLayout.PublishLayout` | chain/records.go:175-187 | where each field of a generation is |
| `WireLayout.MemberLayout` | chain/records.go:70-83 | where each field of a member is |
| `RootContents.HoldsItsOwn` | chain/root.go:101-124 | after its own Create or write a store holds the current root: its number in seq mode, its etag in cas mode |
| `ChainContents.GivesUp` | chain/chain.go:100-124 | an append that gives up lands nothing, takes nothing back, and leaves its handle free for the next |
| `Leases.NeverGranted` | chain/leases.go:118-128 | a unit that was never granted is claimable at epoch 1 |
| `UrlLaws.HexDigits` | urlnorm/urlnorm.go:250-260 | the hexadecimal digits, read in either case and written in upper case |
| `UrlLaws.PathBytes` | urlnorm/urlnorm.go:262-278 | the unreserved bytes and those a path keeps, as RFC 3986 lists them |
| `UrlQueryLaws.UnescapedOne` | urlnorm/urlnorm.go:201-204 | a byte stands for itself, a plus for a space, an escape for its octet |
| `UrlQueryLaws.UnescapedConcat` | urlnorm/urlnorm.go:201-204 | decoding goes from left to right, so that this is all of it |
| `WireLayout.ReleaseLayout` | chain/records.go:110-114 | where each field of a release is |
| `WireLayout.AdvanceLayout` | chain/records.go:150-155 | where each field of a manifest pointer is |
| `WireLayout.RestLayout` | chain/records.go:196-236 | where the fields of the other kinds are |
| `Ranking.TopKInOrder` | serve/traverse.go:240-262 | an answer is by falling score, ties by rising docid, no document twice |
| `Leases.SuspendsIff` | chain/leases.go:58-62 | a holder stops from 5 s before its deadline on, unless the sum wraps in the last 5 s of 64 bits |
| `GraphRoundTrip.EdgesCount` | coldfmt/graphseg.go:50-70 | the stored edge count is the number of destinations |
| `FileReEncoding.ReEncodes` | hotfmt/file_test.go:269-302 | any accepted file below 2^63 bytes whose bands read: what is written for its contents is as long, the same in every byte that is not padding, and opens to the same |
| `CheckpointReading.ReEncodes` | chain/ckpt_test.go:298-313 | whatever decodes, sorted or not, is encoded again as a checkpoint that decodes to the same state, slot and writer |
| `PostingsReEncoding.ReEncodes` | hotfmt/postings_test.go:181-224 | whatever decodes, whatever widths and patches it chose, is a valid block, and written again it decodes alike, to the last byte written |

## Left out

- TraverseBmw.TraverseBMW: scores are unbounded naturals; with at most 32 terms of at most 255 each the program's 32-bit scores cannot overflow. Sorting cursors is an insertion sort in place of the library's; docids are gathered once per turn where the comparator asks for them again. The statistics counters are not modelled.
- TraverseMax.TraverseMaxScore: the same three points.
- Cursor.TermCursor.Ensure: a read that fails for reasons of I/O is a file predicate that says which ranges can be read; what a failing disk returns besides an error is not modelled.
- Worker.OpenTerm: a cursor is a fresh object where the program reuses a slot and an arena; aliasing between queries is not modelled. A band that the footer lacks is an error of mounting instead.
- Executing.Execute: which shards the clock does not reach is a parameter; cancelling and sending the answer are not modelled, nor is the sharing of a mount between queries.
- Mounting.MountFile: docvalues, tombstones, memory maps and locks are not modelled.
- IndexBuilding.IndexAndSearch: the index builder itself is not part of this model; lists come with the position offsets beside them, fit their entries' fields, and the file stays below 2^63 bytes.
- BitPack.AppendPacked: the accumulator's or and shift are a sum and a product, which BitPack.AccumulatorFits justifies.
- Chain.ObservesTheChain: assumes what the client of the store assumes: a create whose outcome is unknown has landed by the time its slot is read, or never will; a refused create did not land; (writer, incarnation) is unique to a handle; a handle opens at or below the tail; nothing is trimmed under a live handle; a handle makes fewer than 2^64 appends.
- LeaseSafety.OneWriter: one shared clock below 2^64 - 2^16; takers check at the tail; grants ask for at least the domain's TTL; holders stop once they issue a release.
- CheckpointCodec.CheckpointRoundTrip: no section reaches 4 GiB, the limit of its length field.
- Checkpointing.DecodeCheckpoint: the errors of the five sections are told apart by kind, not by text.
- SimHash.Simhash: tokens enter as their 64-bit features; splitting text at white space and the FNV-1a hash are not modelled. The or that builds the nibble table is a sum of disjoint lanes.
- UrlQuery.QueryNotIdempotent: keys are lower-cased as ASCII; QueryIdempotentIff holds for any lower-casing and any list.
- UrlPath.StripSessionSegments: lower-casing is that of ASCII, which is all that re-encoded text contains.
- DictLaws.LookupBoth: the band's offsets fit their 48 bits, the number of blocks its 32, the number of terms its 64.
- DictExactness.WalksIff: dictionaries below 2^48 bytes, so that every block's offset fits its field.
- FileSoundness.OpensExactly: files below 2^63 bytes, as for FileLaws.WrittenOpens.
- Checkpointing.ObserveTail: writing the captures out (Flush) is the store's; the tail is what Poll has found.
- QueryLaws.ScoreOfQuery: exclusions are skipped, as in the code at this commit; an exclusion cursor is not part of it.
- DictReading.LookupInto: the caller's slots for inline postings, reused between calls, are a fresh sequence.
- GraphLaws.SealedWalks: blocks up to the raw cap of 2^30 bytes, and sizes and counts that fit their fields; GraphRoundTrip.CutIsSealable derives this from the sources and the target. Decompressing inverts compressing.
- GraphRoundTrip.CutIsSealable: a sufficient condition: ten bytes are reckoned for each number of a source against the raw cap, where the largest takes six; WriteAndWalk itself asks only that every cut stays within the format.
- FileWriting.FileWriter.WriteBand: a reader or a destination that fails is not modelled.
- GraphReading.Walk: the slice of destinations that is reused between callbacks is a fresh sequence for each source; running past the end of the file is an outcome of its own, which the program meets as a failed slice.
- FileLaws.WrittenOpens: files below 2^63 bytes. Floats are their bit patterns.
- FileWriting.FileWriter.Finish: the destination accepts every write and readers do not fail; the checksum of a concatenation is the update of the first part's checksum with the second.
- Whole URLs: parsing, IDNA and ports are not modelled, nor how the parts of a canonical URL are joined.
- zstd, SHA-256 and CRC-32C: foreign code; checksums are a function parameter.
- The store client, retries, sockets, mmap, time budgets and goroutines: input and output; a read is a slice of a byte sequence, a store is the state of a state machine.
- chain.TrimBehind: a handle parked in a trimmed range could create there, so exactly-once needs the assumption above.
- Tokenizing, snippets, page segments, frontier checkpoints and the other field-by-field codecs of coldfmt, hotfmt and wire: more of what the modelled codecs already show.
