/** The dictionary band of hotfmt/dict.go: its blocks, their index and the trailer as functions of a vocabulary. */
module DictFormat {
  import opened Bytes
  import opened DictEntries

  type Term = seq<byte>

  datatype Item = Item(term: Term, entry: Entry)

  // ----- byte order -----

  function Lcp(a: Term, b: Term): (n: nat)
    ensures n <= |a| && n <= |b| && a[..n] == b[..n]
    ensures n < |a| && n < |b| ==> a[n] != b[n]
  {
    if a == [] || b == [] || a[0] != b[0] then 0
    else
      var n := Lcp(a[1..], b[1..]);
      assert a[..n + 1] == [a[0]] + a[1..][..n] && b[..n + 1] == [b[0]] + b[1..][..n];
      n + 1
  }

  /** bytes.Compare(a, b) < 0 */
  predicate Less(a: Term, b: Term) {
    var n := Lcp(a, b);
    n < |b| && (n == |a| || a[n] < b[n])
  }

  lemma {:induction false} LcpIs(a: Term, b: Term, n: nat)
    requires n <= |a| && n <= |b| && a[..n] == b[..n] && (n < |a| && n < |b| ==> a[n] != b[n])
    ensures Lcp(a, b) == n
  {
    if n > 0 {
      assert a[0] == a[..n][0] == b[..n][0] == b[0];
      assert a[1..][..n - 1] == a[..n][1..] && b[1..][..n - 1] == b[..n][1..];
      LcpIs(a[1..], b[1..], n - 1);
    }
  }

  lemma LessTotal(a: Term, b: Term)
    ensures Less(a, b) || Less(b, a) || a == b
    ensures !(Less(a, b) && Less(b, a)) && !Less(a, a)
  {
    var n := Lcp(a, b);
    LcpIs(b, a, n);
    LcpIs(a, a, |a|);
    assert n == |a| == |b| ==> a == a[..n] && b == b[..n];
  }

  lemma LessTrans(a: Term, b: Term, c: Term)
    requires Less(a, b) && Less(b, c)
    ensures Less(a, c)
  {
    var m, n := Lcp(a, b), Lcp(b, c);
    var k := if m < n then m else n;
    assert a[..k] == b[..k] == c[..k] by {
      assert a[..k] == a[..m][..k] && b[..k] == b[..m][..k] && b[..k] == b[..n][..k] && c[..k] == c[..n][..k];
    }
    assert m < n ==> b[m] == b[..n][m] == c[..n][m] == c[m];
    assert n < m ==> a[n] == a[..m][n] == b[..m][n] == b[n];
    LcpIs(a, c, k);
  }

  // ----- blocks -----

  ghost predicate ValidItem(x: Item) {
    1 <= |x.term| <= 64 && ValidEntry(x.entry)
  }

  /** A vocabulary the writer accepts. */
  ghost predicate Vocabulary(v: seq<Item>) {
    && (forall i :: 0 <= i < |v| ==> ValidItem(v[i]))
    && (forall i, j :: 0 <= i < j < |v| ==> Less(v[i].term, v[j].term))
  }

  /** A term as the difference from the one before it. */
  function Delta(prev: Term, t: Term): seq<byte>
    requires |t| <= 64
  {
    var n := Lcp(prev, t);
    [n, |t| - n] + t[n..]
  }

  predicate Short(xs: seq<Item>) {
    forall x :: x in xs ==> |x.term| <= 64 && |x.entry.inline| <= 4
  }

  /** A block's terms: the first in full, the others as differences. */
  function TermBytes(xs: seq<Item>): seq<byte>
    requires Short(xs)
  {
    if xs == [] then []
    else if |xs| == 1 then [|xs[0].term|] + xs[0].term
    else TermBytes(xs[..|xs| - 1]) + Delta(xs[|xs| - 2].term, xs[|xs| - 1].term)
  }

  function EntriesBytes(xs: seq<Item>): (bs: seq<byte>)
    requires Short(xs)
    ensures |bs| == 32 * |xs|
  {
    if xs == [] then [] else EntriesBytes(xs[..|xs| - 1]) + EntryBytes(xs[|xs| - 1].entry)
  }

  function BlockBytes(xs: seq<Item>): seq<byte>
    requires Short(xs)
  {
    TermBytes(xs) + EntriesBytes(xs)
  }

  // ----- the band -----

  function NumChunks(n: nat): nat {
    (n + 63) / 64
  }

  /** Block b of a vocabulary; the last may be short. */
  function Chunk(v: seq<Item>, b: nat): (c: seq<Item>)
    requires b < NumChunks(|v|)
    ensures 1 <= |c| <= 64 && (b < NumChunks(|v|) - 1 ==> |c| == 64)
  {
    v[64 * b..if 64 * b + 64 < |v| then 64 * b + 64 else |v|]
  }

  /** The first n blocks. */
  function Band(v: seq<Item>, n: nat): seq<byte>
    requires Short(v) && n <= NumChunks(|v|)
  {
    if n == 0 then [] else Band(v, n - 1) + BlockBytes(Chunk(v, n - 1))
  }

  function IndexEntry(off: nat, t: Term): seq<byte>
    requires |t| <= 64
  {
    LE(6, off) + [|t|] + t
  }

  /** The index entries of the first n blocks. */
  function Index(v: seq<Item>, n: nat): seq<byte>
    requires Short(v) && n <= NumChunks(|v|)
  {
    if n == 0 then [] else Index(v, n - 1) + IndexEntry(|Band(v, n - 1)|, v[64 * (n - 1)].term)
  }

  function Trailer(indexOff: nat, nblocks: nat, nterms: nat): (bs: seq<byte>)
    ensures |bs| == 20
  {
    LE(8, indexOff) + LE(4, nblocks) + LE(8, nterms)
  }

  /** What Seal writes. */
  function DictBytes(v: seq<Item>): seq<byte>
    requires Short(v)
  {
    var n := NumChunks(|v|);
    Band(v, n) + Index(v, n) + Trailer(|Band(v, n)|, n, |v|)
  }

  lemma VocabularyShort(v: seq<Item>)
    requires Vocabulary(v)
    ensures Short(v)
  {
    forall x | x in v ensures |x.term| <= 64 && |x.entry.inline| <= 4 {
      var i :| 0 <= i < |v| && v[i] == x;
      assert ValidItem(v[i]);
    }
  }

  lemma ShortPrefix(xs: seq<Item>, x: Item)
    requires Short(xs + [x])
    ensures Short(xs) && |x.term| <= 64 && |x.entry.inline| <= 4
  {
    assert forall y :: y in xs ==> y in xs + [x];
    assert x in xs + [x];
  }

  lemma TermBytesGrow(xs: seq<Item>, x: Item)
    requires Short(xs + [x])
    ensures Short(xs) && |x.term| <= 64 && |x.entry.inline| <= 4
    ensures TermBytes(xs + [x])
         == if xs == [] then [|x.term|] + x.term else TermBytes(xs) + Delta(xs[|xs| - 1].term, x.term)
    ensures EntriesBytes(xs + [x]) == EntriesBytes(xs) + EntryBytes(x.entry)
  {
    hide Short, Delta, EntryBytes;
    ShortPrefix(xs, x);
    assert (xs + [x])[..|xs|] == xs;
    if xs != [] {
      assert (xs + [x])[|xs| - 1] == xs[|xs| - 1];
    }
  }

  lemma {:induction false} BandStable(v: seq<Item>, x: Item, n: nat)
    requires Short(v + [x]) && 64 * n <= |v|
    ensures Short(v) && n <= NumChunks(|v|) && n <= NumChunks(|v| + 1)
    ensures Band(v + [x], n) == Band(v, n)
  {
    hide Short, BlockBytes;
    ShortPrefix(v, x);
    if n > 0 {
      BandStable(v, x, n - 1);
      assert Chunk(v + [x], n - 1) == Chunk(v, n - 1);
    }
  }

  /** The index names a block by its first term, so it does not wait for the block to fill. */
  lemma {:induction false} IndexStable(v: seq<Item>, x: Item, n: nat)
    requires Short(v + [x]) && n <= NumChunks(|v|)
    ensures Short(v) && n <= NumChunks(|v| + 1)
    ensures Index(v + [x], n) == Index(v, n)
  {
    hide Short, Band, IndexEntry;
    ShortPrefix(v, x);
    if n > 0 {
      IndexStable(v, x, n - 1);
      BandStable(v, x, n - 1);
      assert (v + [x])[64 * (n - 1)] == v[64 * (n - 1)];
    }
  }

  lemma LastChunk(v: seq<Item>)
    requires v != []
    ensures var n := NumChunks(|v|); n >= 1 && Chunk(v, n - 1) == v[64 * (n - 1)..]
    ensures |v| % 64 == 0 ==> NumChunks(|v|) == |v| / 64
    ensures |v| % 64 != 0 ==> NumChunks(|v|) == |v| / 64 + 1
  {
  }
}
