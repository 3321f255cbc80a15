/** Opening a dictionary band and looking terms up, hotfmt/dict.go: the full block scan and the early-stopping walk. */
module DictReading {
  import opened Bytes
  import opened DictEntries
  import opened DictFormat

  /** An opened band: the parsed index over the raw bytes. */
  datatype Dict = Dict(data: seq<byte>, nterms: nat, blockOff: seq<nat>, first: seq<Term>, indexOff: nat)

  ghost predicate Sorted(ts: seq<Term>) {
    forall i, j :: 0 <= i < j < |ts| ==> Less(ts[i], ts[j])
  }

  /** What opening makes sure of. */
  ghost predicate Opened(d: Dict) {
    && |d.blockOff| == |d.first| == NumChunks(d.nterms) && d.nterms > 0 && d.indexOff <= |d.data| && Sorted(d.first)
    && (forall i, j :: 0 <= i < j < |d.blockOff| ==> d.blockOff[i] < d.blockOff[j])
    && (forall i :: 0 <= i < |d.blockOff| ==> d.blockOff[i] < d.indexOff)
  }

  // ----- the index -----

  /** n more index entries after those already read; nothing may follow them. */
  function ReadIndex(idx: seq<byte>, n: nat, offs: seq<nat>, first: seq<Term>, indexOff: nat)
    : Result<(seq<nat>, seq<Term>), DictError>
    requires |offs| == |first|
    decreases n
  {
    if n == 0 then if idx != [] then Err(IndexTrailing) else Ok((offs, first))
    else if |idx| < 8 then Err(IndexTruncated)
    else
      var off, l := U48(idx), idx[6];
      if l == 0 || l > 64 || |idx| < 7 + l then Err(IndexTerm)
      else
        var t := idx[7..7 + l];
        var k := |offs|;
        if k > 0 && (off <= offs[k - 1] || !Less(first[k - 1], t)) then Err(IndexOrder)
        else if k == 0 && off != 0 then Err(FirstBlock)
        else if off >= indexOff then Err(BlockOutside)
        else ReadIndex(idx[7 + l..], n - 1, offs + [off], first + [t], indexOff)
  }

  function OpenOf(data: seq<byte>): Result<Dict, DictError> {
    if |data| < 52 then Err(BandShort)
    else
      var t := data[|data| - 20..];
      var indexOff, nblocks, nterms := FromLE(t[..8]), FromLE(t[8..12]), FromLE(t[12..]);
      if nterms == 0 || nblocks == 0 then Err(NoTerms)
      else if nblocks != NumChunks(nterms) then Err(BlockCount)
      else if indexOff >= |data| - 20 then Err(IndexOutside)
      else
        match ReadIndex(data[indexOff..|data| - 20], nblocks, [], [], indexOff)
        case Err(e) => Err(e)
        case Ok((offs, first)) => Ok(Dict(data, nterms, offs, first, indexOff))
  }

  lemma {:induction false} IndexSound(idx: seq<byte>, n: nat, offs: seq<nat>, first: seq<Term>, indexOff: nat)
    requires |offs| == |first| && Sorted(first) && ReadIndex(idx, n, offs, first, indexOff).Ok?
    requires forall i, j :: 0 <= i < j < |offs| ==> offs[i] < offs[j]
    requires forall i :: 0 <= i < |offs| ==> offs[i] < indexOff
    ensures var (os, ts) := ReadIndex(idx, n, offs, first, indexOff).value;
            && |os| == |ts| == |offs| + n && Sorted(ts)
            && (forall i, j :: 0 <= i < j < |os| ==> os[i] < os[j]) && (forall i :: 0 <= i < |os| ==> os[i] < indexOff)
    decreases n
  {
    hide Less, U48;
    if n > 0 {
      var off, l := U48(idx), idx[6];
      var t := idx[7..7 + l];
      StillSorted(first, t);
      assert forall i :: 0 <= i < |offs| - 1 ==> offs[i] < offs[|offs| - 1];
      IndexSound(idx[7 + l..], n - 1, offs + [off], first + [t], indexOff);
    }
  }

  lemma StillSorted(ts: seq<Term>, t: Term)
    requires Sorted(ts) && (ts != [] ==> Less(ts[|ts| - 1], t))
    ensures Sorted(ts + [t])
  {
    hide Less;
    forall i | 0 <= i < |ts| ensures Less(ts[i], t) {
      if i < |ts| - 1 {
        LessTrans(ts[i], ts[|ts| - 1], t);
      }
    }
  }

  lemma OpenSound(data: seq<byte>)
    requires OpenOf(data).Ok?
    ensures Opened(OpenOf(data).value) && OpenOf(data).value.data == data
  {
    hide ReadIndex, Less;
    var t := data[|data| - 20..];
    var indexOff, nblocks := FromLE(t[..8]), FromLE(t[8..12]);
    IndexSound(data[indexOff..|data| - 20], nblocks, [], [], indexOff);
  }

  method OpenDict(data: seq<byte>) returns (r: Result<Dict, DictError>)
    ensures r == OpenOf(data)
    ensures r.Ok? ==> Opened(r.value)
  {
    hide Opened, U48, Less;
    if |data| < 52 {
      return Err(BandShort);
    }
    var t := data[|data| - 20..];
    var indexOff, nblocks, nterms := FromLE(t[..8]), FromLE(t[8..12]), FromLE(t[12..]);
    if nterms == 0 || nblocks == 0 {
      return Err(NoTerms);
    }
    if nblocks != NumChunks(nterms) {
      return Err(BlockCount);
    }
    if indexOff >= |data| - 20 {
      return Err(IndexOutside);
    }
    var idx := data[indexOff..|data| - 20];
    ghost var whole := ReadIndex(idx, nblocks, [], [], indexOff);
    var offs: seq<nat>, first: seq<Term> := [], [];
    while |offs| < nblocks
      invariant |offs| == |first| <= nblocks
      invariant whole == ReadIndex(idx, nblocks - |offs|, offs, first, indexOff)
    {
      if |idx| < 8 {
        return Err(IndexTruncated);
      }
      var off, l := U48(idx), idx[6];
      if l == 0 || l > 64 || |idx| < 7 + l {
        return Err(IndexTerm);
      }
      var term := idx[7..7 + l];
      var k := |offs|;
      if k > 0 {
        if off <= offs[k - 1] || !Less(first[k - 1], term) {
          return Err(IndexOrder);
        }
      } else if off != 0 {
        return Err(FirstBlock);
      }
      if off >= indexOff {
        return Err(BlockOutside);
      }
      offs, first, idx := offs + [off], first + [term], idx[7 + l..];
    }
    if |idx| != 0 {
      return Err(IndexTrailing);
    }
    r := Ok(Dict(data, nterms, offs, first, indexOff));
    OpenSound(data);
  }

  // ----- one block -----

  /** The block's first term, stored in full. */
  function FirstTerm(area: seq<byte>, lim: nat): Result<(Term, nat), DictError>
    requires lim <= |area|
  {
    if lim == 0 then Err(BlockTruncated)
    else
      var l := area[0];
      if l == 0 || l > 64 || 1 + l > lim then Err(TermMalformed) else Ok((area[1..1 + l], 1 + l))
  }

  /** The next term from its difference, which must be the only one that spells it. */
  function NextTerm(area: seq<byte>, lim: nat, pos: nat, prev: Term): (r: Result<(Term, nat), DictError>)
    requires lim <= |area|
    ensures r.Ok? ==> pos < r.value.1 <= lim
  {
    if pos + 2 > lim then Err(BlockTruncated)
    else
      var n, sl := area[pos], area[pos + 1];
      if n > |prev| || sl == 0 || n + sl > 64 || pos + 2 + sl > lim then Err(TermMalformed)
      else
        var suffix := area[pos + 2..pos + 2 + sl];
        if n < |prev| && suffix[0] <= prev[n] then Err(NotCanonical)
        else Ok((prev[..n] + suffix, pos + 2 + sl))
  }

  function MoreTerms(area: seq<byte>, lim: nat, pos: nat, prev: Term, n: nat): (r: Result<(seq<Term>, nat), DictError>)
    requires lim <= |area|
    ensures r.Ok? ==> |r.value.0| == n && pos <= r.value.1
    decreases n
  {
    if n == 0 then Ok(([], pos))
    else
      match NextTerm(area, lim, pos, prev)
      case Err(e) => Err(e)
      case Ok((t, p)) =>
        match MoreTerms(area, lim, p, t, n - 1)
        case Err(e) => Err(e)
        case Ok((ts, end)) => Ok(([t] + ts, end))
  }

  /** n entries, all of which must parse. */
  function EntriesOf(area: seq<byte>, pos: nat, n: nat): (r: Result<seq<Entry>, DictError>)
    requires pos + 32 * n <= |area|
    ensures r.Ok? ==> |r.value| == n
    decreases n
  {
    if n == 0 then Ok([])
    else
      match EntryOf(area[pos..pos + 32])
      case None => Err(BadEntry)
      case Some(e) =>
        match EntriesOf(area, pos + 32, n - 1)
        case Err(x) => Err(x)
        case Ok(es) => Ok([e] + es)
  }

  /** The entry of the last term that equals q. */
  function Match(ts: seq<Term>, es: seq<Entry>, q: Term): Option<Entry>
    requires |ts| == |es|
  {
    if ts == [] then None
    else if ts[|ts| - 1] == q then Some(es[|ts| - 1])
    else Match(ts[..|ts| - 1], es[..|ts| - 1], q)
  }

  function CountIn(d: Dict, b: nat): nat
    requires b < NumChunks(d.nterms)
  {
    if b == NumChunks(d.nterms) - 1 then d.nterms - 64 * b else 64
  }

  /** scanBlockEnd: the block's terms and entries, and where it ends. */
  function ScanEnd(area: seq<byte>, n: nat, first: Term): (r: Result<(seq<Term>, seq<Entry>, nat), DictError>)
    requires n >= 1
    ensures r.Ok? ==> |r.value.0| == |r.value.1| == n
  {
    match FirstTerm(area, |area|)
    case Err(e) => Err(e)
    case Ok((t, pos)) =>
      if t != first then Err(FirstDisagrees)
      else
        match MoreTerms(area, |area|, pos, t, n - 1)
        case Err(e) => Err(e)
        case Ok((ts, at)) =>
          if at + 32 * n > |area| then Err(BlockTruncated)
          else
            match EntriesOf(area, at, n)
            case Err(e) => Err(e)
            case Ok(es) => Ok(([t] + ts, es, at + 32 * n))
  }

  /** scanBlock, with the callback of Lookup. */
  function ScanFor(area: seq<byte>, n: nat, first: Term, q: Term): Result<Option<Entry>, DictError>
    requires n >= 1
  {
    match ScanEnd(area, n, first)
    case Err(e) => Err(e)
    case Ok((ts, es, _)) => Ok(Match(ts, es, q))
  }

  // ----- the whole dictionary -----

  function Items(ts: seq<Term>, es: seq<Entry>): (c: seq<Item>)
    requires |ts| == |es|
    ensures |c| == |ts| && forall i :: 0 <= i < |c| ==> c[i] == Item(ts[i], es[i])
  {
    seq(|ts|, i requires 0 <= i < |ts| => Item(ts[i], es[i]))
  }

  /** Walk from block b on; every block must end where the next one starts. */
  function WalkFrom(d: Dict, b: nat): Result<seq<Item>, DictError>
    requires Opened(d) && b <= |d.first|
    decreases |d.first| - b
  {
    if b == |d.first| then Ok([])
    else
      match ScanEnd(d.data[d.blockOff[b]..d.indexOff], CountIn(d, b), d.first[b])
      case Err(e) => Err(e)
      case Ok((ts, es, end)) =>
        if d.blockOff[b] + end != (if b + 1 < |d.first| then d.blockOff[b + 1] else d.indexOff) then Err(NotDense)
        else
          match WalkFrom(d, b + 1)
          case Err(e) => Err(e)
          case Ok(more) => Ok(Items(ts, es) + more)
  }

  /** The walk of LookupInto from term i on: it ends with q's entry, or with a term above q. */
  function Seek(area: seq<byte>, at: nat, i: nat, n: nat, pos: nat, prev: Term, first: Term, q: Term)
    : Result<Option<Entry>, DictError>
    requires at + 32 * n <= |area| && i <= n
    decreases n - i
  {
    if i == n then Ok(None)
    else
      match (if i == 0 then FirstTerm(area, at) else NextTerm(area, at, pos, prev))
      case Err(e) => Err(e)
      case Ok((t, p)) =>
        if i == 0 && t != first then Err(FirstDisagrees)
        else if t == q then
          match EntryOf(area[at + 32 * i..at + 32 * i + 32])
          case None => Err(BadEntry)
          case Some(e) => Ok(Some(e))
        else if Less(q, t) then Ok(None)
        else Seek(area, at, i + 1, n, p, t, first, q)
  }

  /** How many blocks start at or below q: sort.Search over the index. */
  method Search(first: seq<Term>, q: Term) returns (i: nat)
    requires Sorted(first)
    ensures i <= |first|
    ensures forall j :: 0 <= j < i ==> !Less(q, first[j])
    ensures forall j :: i <= j < |first| ==> Less(q, first[j])
  {
    hide Less;
    var hi := |first|;
    i := 0;
    while i < hi
      invariant i <= hi <= |first|
      invariant forall j :: 0 <= j < i ==> !Less(q, first[j])
      invariant forall j :: hi <= j < |first| ==> Less(q, first[j])
    {
      var h := (i + hi) / 2;
      if !Less(q, first[h]) {
        BelowToo(first, q, h);
        i := h + 1;
      } else {
        AboveToo(first, q, h);
        hi := h;
      }
    }
  }

  lemma BelowToo(first: seq<Term>, q: Term, h: nat)
    requires Sorted(first) && h < |first| && !Less(q, first[h])
    ensures forall j :: 0 <= j <= h ==> !Less(q, first[j])
  {
    hide Less;
    forall j | 0 <= j < h ensures !Less(q, first[j]) {
      if Less(q, first[j]) {
        LessTrans(q, first[j], first[h]);
      }
    }
  }

  lemma AboveToo(first: seq<Term>, q: Term, h: nat)
    requires Sorted(first) && h < |first| && Less(q, first[h])
    ensures forall j :: h <= j < |first| ==> Less(q, first[j])
  {
    hide Less;
    forall j | h < j < |first| ensures Less(q, first[j]) {
      LessTrans(q, first[h], first[j]);
    }
  }

  /** The block a term would be in: the last one that does not start past it. */
  ghost predicate BlockFor(d: Dict, q: Term, b: nat)
    requires |d.first| == |d.blockOff|
  {
    && b < |d.first| && !Less(q, d.first[b]) && (b + 1 < |d.first| ==> Less(q, d.first[b + 1]))
  }

  /** Lookup: one block, decoded in full. */
  method Lookup(d: Dict, q: Term) returns (r: Result<Option<Entry>, DictError>)
    requires Opened(d)
    ensures Less(q, d.first[0]) ==> r == Ok(None)
    ensures forall b: nat :: BlockFor(d, q, b) ==>
              r == ScanFor(d.data[d.blockOff[b]..d.indexOff], CountIn(d, b), d.first[b], q)
  {
    hide Less, ScanFor;
    var i := Search(d.first, q);
    OneBlock(d, q, i);
    if i == 0 {
      return Ok(None);
    }
    var b := i - 1;
    r := ScanBlock(d.data[d.blockOff[b]..d.indexOff], CountIn(d, b), d.first[b], q);
  }

  lemma OneBlock(d: Dict, q: Term, i: nat)
    requires Opened(d) && i <= |d.first|
    requires forall j :: 0 <= j < i ==> !Less(q, d.first[j])
    requires forall j :: i <= j < |d.first| ==> Less(q, d.first[j])
    ensures forall b: nat :: BlockFor(d, q, b) <==> b == i - 1
    ensures Less(q, d.first[0]) <==> i == 0
  {
    hide Less;
    forall b: nat | BlockFor(d, q, b) ensures b == i - 1 {
      assert b < i;
      assert b + 1 < |d.first| ==> b + 1 >= i;
    }
  }

  /** LookupInto: the same block, walked no further than needed. */
  method LookupInto(d: Dict, q: Term) returns (r: Result<Option<Entry>, DictError>)
    requires Opened(d)
    ensures Less(q, d.first[0]) ==> r == Ok(None)
    ensures forall b: nat :: BlockFor(d, q, b) ==> r == SeekIn(d, b, q)
  {
    hide Less, Seek;
    var i := Search(d.first, q);
    OneBlock(d, q, i);
    if i == 0 {
      return Ok(None);
    }
    var b := i - 1;
    var n := CountIn(d, b);
    var area := d.data[d.blockOff[b]..d.indexOff];
    var at := EntriesAt(d, b);
    if at < 1 || at + 32 * n > |area| {
      return Err(BlockSmall);
    }
    r := SeekTerm(area, at, n, d.first[b], q);
  }

  /** Where the entry array must start, as the next block's offset tells. */
  function EntriesAt(d: Dict, b: nat): int
    requires |d.blockOff| == NumChunks(d.nterms) && b < NumChunks(d.nterms)
  {
    (if b + 1 < |d.blockOff| then d.blockOff[b + 1] else d.indexOff) - d.blockOff[b] - 32 * CountIn(d, b)
  }

  function SeekIn(d: Dict, b: nat, q: Term): Result<Option<Entry>, DictError>
    requires |d.blockOff| == |d.first| == NumChunks(d.nterms) && b < NumChunks(d.nterms)
    requires d.blockOff[b] <= d.indexOff <= |d.data|
  {
    var area := d.data[d.blockOff[b]..d.indexOff];
    var at, n := EntriesAt(d, b), CountIn(d, b);
    if at < 1 || at + 32 * n > |area| then Err(BlockSmall)
    else Seek(area, at, 0, n, 0, [], d.first[b], q)
  }

  // ----- the loops -----

  method ScanBlock(area: seq<byte>, n: nat, first: Term, q: Term) returns (r: Result<Option<Entry>, DictError>)
    requires n >= 1
    ensures r == ScanFor(area, n, first, q)
  {
    hide NextTerm, EntryOf, Match;
    var f := FirstTerm(area, |area|);
    if f.Err? {
      return Err(f.error);
    }
    var (t, pos) := f.value;
    if t != first {
      return Err(FirstDisagrees);
    }
    var more := ScanTerms(area, pos, t, n - 1);
    if more.Err? {
      return Err(more.error);
    }
    var (ts, at) := more.value;
    if at + 32 * n > |area| {
      return Err(BlockTruncated);
    }
    r := ScanEntries(area, at, [t] + ts, q);
  }

  method ScanTerms(area: seq<byte>, start: nat, first: Term, n: nat) returns (r: Result<(seq<Term>, nat), DictError>)
    ensures r == MoreTerms(area, |area|, start, first, n)
  {
    hide NextTerm;
    var pos, prev := start, first;
    var ts: seq<Term> := [];
    ghost var whole := MoreTerms(area, |area|, start, first, n);
    FrontNothing(whole);
    while |ts| < n
      invariant |ts| <= n
      invariant whole == Front(ts, MoreTerms(area, |area|, pos, prev, n - |ts|))
    {
      var x := NextTerm(area, |area|, pos, prev);
      if x.Err? {
        return Err(x.error);
      }
      var (t, p) := x.value;
      FrontMore(ts, t, MoreTerms(area, |area|, p, t, n - |ts| - 1));
      ts, pos, prev := ts + [t], p, t;
    }
    assert ts + [] == ts;
    return Ok((ts, pos));
  }

  function Front(ts: seq<Term>, r: Result<(seq<Term>, nat), DictError>): Result<(seq<Term>, nat), DictError> {
    match r
    case Err(e) => Err(e)
    case Ok((more, end)) => Ok((ts + more, end))
  }

  lemma FrontNothing(r: Result<(seq<Term>, nat), DictError>)
    ensures Front([], r) == r
  {
    if r.Ok? {
      assert [] + r.value.0 == r.value.0;
    }
  }

  lemma FrontMore(ts: seq<Term>, t: Term, r: Result<(seq<Term>, nat), DictError>)
    ensures Front(ts, Front([t], r)) == Front(ts + [t], r)
  {
    if r.Ok? {
      assert ts + ([t] + r.value.0) == (ts + [t]) + r.value.0;
    }
  }

  function Matched(ts: seq<Term>, r: Result<seq<Entry>, DictError>, q: Term): Result<Option<Entry>, DictError>
    requires r.Ok? ==> |r.value| == |ts|
  {
    match r
    case Err(e) => Err(e)
    case Ok(es) => Ok(Match(ts, es, q))
  }

  /** Every entry is parsed, and the callback keeps the one whose term is q. */
  method ScanEntries(area: seq<byte>, at: nat, ts: seq<Term>, q: Term) returns (r: Result<Option<Entry>, DictError>)
    requires at + 32 * |ts| <= |area|
    ensures r == Matched(ts, EntriesOf(area, at, |ts|), q)
  {
    hide EntryOf, Match;
    var found: Option<Entry> := None;
    ghost var es: seq<Entry> := [];
    ghost var whole := EntriesOf(area, at, |ts|);
    AheadNothing(whole);
    assert Match([], [], q) == None by { MatchNothing(q); }
    for i := 0 to |ts|
      invariant |es| == i && found == Match(ts[..i], es, q)
      invariant whole == Ahead(es, EntriesOf(area, at + 32 * i, |ts| - i))
    {
      var e := EntryOf(area[at + 32 * i..at + 32 * i + 32]);
      if e.None? {
        return Err(BadEntry);
      }
      AheadMore(es, e.value, EntriesOf(area, at + 32 * (i + 1), |ts| - i - 1));
      MatchMore(ts, es, i, e.value, q);
      if ts[i] == q {
        found := e;
      }
      es := es + [e.value];
    }
    assert ts[..|ts|] == ts && es + [] == es;
    return Ok(found);
  }

  lemma MatchNothing(q: Term)
    ensures Match([], [], q) == None
  {
  }

  lemma MatchMore(ts: seq<Term>, es: seq<Entry>, i: nat, e: Entry, q: Term)
    requires |es| == i < |ts|
    ensures Match(ts[..i + 1], es + [e], q) == if ts[i] == q then Some(e) else Match(ts[..i], es, q)
  {
    assert ts[..i + 1][..i] == ts[..i] && (es + [e])[..i] == es;
  }

  function Ahead(es: seq<Entry>, r: Result<seq<Entry>, DictError>): Result<seq<Entry>, DictError> {
    match r
    case Err(e) => Err(e)
    case Ok(more) => Ok(es + more)
  }

  lemma AheadNothing(r: Result<seq<Entry>, DictError>)
    ensures Ahead([], r) == r
  {
    if r.Ok? {
      assert [] + r.value == r.value;
    }
  }

  lemma AheadMore(es: seq<Entry>, e: Entry, r: Result<seq<Entry>, DictError>)
    ensures Ahead(es, Ahead([e], r)) == Ahead(es + [e], r)
  {
    if r.Ok? {
      assert es + ([e] + r.value) == (es + [e]) + r.value;
    }
  }

  method SeekTerm(area: seq<byte>, at: nat, n: nat, first: Term, q: Term) returns (r: Result<Option<Entry>, DictError>)
    requires at + 32 * n <= |area|
    ensures r == Seek(area, at, 0, n, 0, [], first, q)
  {
    hide NextTerm, FirstTerm, EntryOf, Less;
    var buf: Term := [];
    var pos := 0;
    for i := 0 to n
      invariant Seek(area, at, 0, n, 0, [], first, q) == Seek(area, at, i, n, pos, buf, first, q)
    {
      var x := if i == 0 then FirstTerm(area, at) else NextTerm(area, at, pos, buf);
      if x.Err? {
        return Err(x.error);
      }
      var (t, p) := x.value;
      if i == 0 && t != first {
        return Err(FirstDisagrees);
      }
      if t == q {
        var e := EntryOf(area[at + 32 * i..at + 32 * i + 32]);
        if e.None? {
          return Err(BadEntry);
        }
        return Ok(Some(e.value));
      }
      if Less(q, t) {
        return Ok(None);
      }
      buf, pos := t, p;
    }
    return Ok(None);
  }
}
