/** One mounted shard, serve/mount.go: the opened .hot file's dictionary, and where its skips and postings bands start. */
module Mounting {
  import opened Bytes
  import opened Format
  import opened Postings
  import opened Cursor
  import opened DictEntries
  import opened DictFormat
  import opened DictReading
  import opened DictLaws
  import opened Worker
  import HotFile
  import FileReading

  const BAND_DICT: byte := 1
  const BAND_POSTINGS: byte := 2
  const BAND_SKIPS: byte := 3

  datatype Mount = Mount(file: File, dict: Dict, skipsOff: nat, postingsOff: nat)

  datatype MountError = NotOpened(cause: HotFile.FileError) | NoBand | OutsidePrefix | BadDict(reason: DictError)

  /** Shard.Band: the first band with the id. */
  function BandAt(bands: seq<HotFile.Band>, id: byte): Option<HotFile.Band> {
    if bands == [] then None else if bands[0].id == id then Some(bands[0]) else BandAt(bands[1..], id)
  }

  /** mountFile, without the bands that queries of this model do not read. The prefix ends where the postings start. */
  function MountOf(file: File, crc: Checksum): Result<Mount, MountError> {
    match FileReading.OpenOf(file.bytes, crc)
    case Err(e) => Err(NotOpened(e))
    case Ok(shard) =>
      var postings, dict, skips := BandAt(shard.bands, BAND_POSTINGS), BandAt(shard.bands, BAND_DICT), BandAt(shard.bands, BAND_SKIPS);
      if postings.None? || dict.None? || skips.None? then Err(NoBand)
      else if postings.value.off > |file.bytes| || dict.value.off + dict.value.len > postings.value.off then Err(OutsidePrefix)
      else
        match OpenOf(file.bytes[dict.value.off..dict.value.off + dict.value.len])
        case Err(e) => Err(BadDict(e))
        case Ok(d) => Ok(Mount(file, d, skips.value.off, postings.value.off))
  }

  method FindBand(bands: seq<HotFile.Band>, id: byte) returns (b: Option<HotFile.Band>)
    ensures b == BandAt(bands, id)
  {
    for i := 0 to |bands|
      invariant BandAt(bands, id) == BandAt(bands[i..], id)
    {
      if bands[i].id == id {
        return Some(bands[i]);
      }
    }
    return None;
  }

  method MountFile(file: File, crc: Checksum) returns (r: Result<Mount, MountError>)
    ensures r == MountOf(file, crc)
  {
    hide FileReading.OpenOf, OpenOf, Opened, BandAt;
    var shard := FileReading.Open(file.bytes, crc);
    if shard.Err? {
      return Err(NotOpened(shard.error));
    }
    var postings := FindBand(shard.value.bands, BAND_POSTINGS);
    var dict := FindBand(shard.value.bands, BAND_DICT);
    var skips := FindBand(shard.value.bands, BAND_SKIPS);
    if postings.None? || dict.None? || skips.None? {
      return Err(NoBand);
    }
    if postings.value.off > |file.bytes| || dict.value.off + dict.value.len > postings.value.off {
      return Err(OutsidePrefix);
    }
    var d := OpenDict(file.bytes[dict.value.off..dict.value.off + dict.value.len]);
    if d.Err? {
      return Err(BadDict(d.error));
    }
    return Ok(Mount(file, d.value, skips.value.off, postings.value.off));
  }

  // ----- what a mount stands for -----

  /** The indexed terms with their entries, their posting lists, and the position offsets beside these. */
  datatype Contents = Contents(vocab: seq<Item>, lists: seq<seq<Posting>>, poss: seq<seq<nat>>)

  /** The mount's bytes hold these contents. */
  ghost predicate Serves(m: Mount, x: Contents) {
    && Vocabulary(x.vocab) && x.vocab != [] && Sized(x.vocab) && m.dict == DictOf(x.vocab)
    && |x.lists| == |x.poss| == |x.vocab|
    && forall i :: 0 <= i < |x.vocab| ==>
         Stored(m.file, x.vocab[i].entry, m.skipsOff, m.postingsOff, x.lists[i], x.poss[i])
  }

  /** The list indexed under a term. */
  function ListOf(terms: seq<Term>, lists: seq<seq<Posting>>, q: Term): Option<seq<Posting>>
    requires |terms| == |lists|
  {
    if terms == [] then None
    else if terms[|terms| - 1] == q then Some(lists[|lists| - 1])
    else ListOf(terms[..|terms| - 1], lists[..|lists| - 1], q)
  }

  lemma {:induction false} ListOfIs(v: seq<Item>, lists: seq<seq<Posting>>, q: Term, i: nat)
    requires |v| == |lists| && Vocabulary(v) && i < |v| && v[i].term == q
    ensures ListOf(Terms(v), lists, q) == Some(lists[i])
  {
    hide Less;
    var n := |v| - 1;
    if i < n {
      TermsIncrease(v, i, n);
      assert forall j :: 0 <= j < n ==> v[..n][j] == v[j];
      ListOfIs(v[..n], lists[..n], q, i);
      assert Terms(v)[..n] == Terms(v[..n]);
    }
  }

  lemma {:induction false} NoListOf(terms: seq<Term>, lists: seq<seq<Posting>>, q: Term)
    requires |terms| == |lists| && q !in terms
    ensures ListOf(terms, lists, q) == None
  {
    if terms != [] {
      NoListOf(terms[..|terms| - 1], lists[..|lists| - 1], q);
    }
  }
}
