/** What any accepted .hot file is written as again, hotfmt/file.go Open, ReadBand and EncodeFile one after the other. */
module FileReEncoding {
  import opened Bytes
  import opened Format
  import opened HotHeader
  import opened HotMeta
  import opened HotFile
  import opened FileReading
  import opened FileLaws
  import opened FileSoundness

  /** Where band i must be: behind the one before it, on the next boundary. */
  lemma {:induction false} DenseAt(bs: seq<Band>, k: nat, next: nat, off: nat, i: nat)
    requires k <= 9 && Dense(bs, k, next, off) && i < |bs|
    ensures k + i < 9 && |bs| == 9 - k && bs[i].id == BAND_ORDER[k + i] && bs[i].off + bs[i].len <= off
    ensures bs[i].off == if i == 0 then next else AlignUp(bs[i - 1].off + bs[i - 1].len)
    ensures i == |bs| - 1 ==> off == AlignUp(bs[i].off + bs[i].len)
    decreases |bs|
  {
    hide AlignUp;
    var rest := bs[1..];
    DenseCount(bs, k, next, off);
    if i > 0 {
      DenseAt(rest, k + 1, AlignUp(next + bs[0].len), off, i - 1);
      assert rest[i - 1] == bs[i];
    } else {
      assert |bs| == 1 ==> rest == [];
    }
  }

  /** Payloads that are as long as the bands say and have their checksums. */
  ghost predicate Fill(ps: seq<seq<byte>>, bs: seq<Band>, crc: Checksum) {
    |ps| == |bs| == 9 && forall k :: 0 <= k < 9 ==> |ps[k]| == bs[k].len && crc(ps[k]) == bs[k].sum
  }

  /** Laid out again, each payload stands where it stood. */
  lemma {:induction false} SameBands(head: seq<byte>, ps: seq<seq<byte>>, bs: seq<Band>, off: nat, crc: Checksum, k: nat)
    requires |head| == 96 && Fill(ps, bs, crc) && Dense(bs, 0, 4096, off) && k <= 9
    ensures |Laid(head, ps, k)| == if k == 0 then 96 else bs[k - 1].off + bs[k - 1].len
    ensures BandsOf(head, ps, k, crc) == bs[..k]
  {
    hide Dense, AlignUp, Padded;
    if k > 0 {
      SameBands(head, ps, bs, off, crc, k - 1);
      DenseAt(bs, 0, 4096, off, k - 1);
      FirstBoundary();
      PaddedLength(Laid(head, ps, k - 1));
      assert bs[..k] == bs[..k - 1] + [bs[k - 1]];
    }
  }

  lemma FirstBoundary()
    ensures AlignUp(96) == 4096
  {
  }

  lemma PaddedLength(s: seq<byte>)
    ensures |Padded(s)| == AlignUp(|s|)
  {
  }

  /** The payloads read from an accepted file, in the order of its bands. */
  ghost predicate Read(data: seq<byte>, s: Shard, ps: seq<seq<byte>>, crc: Checksum) {
    |ps| == 9 && forall k :: 0 <= k < 9 ==> ReadBandOf(data, s.bands, BAND_ORDER[k], crc) == Ok(ps[k])
  }

  lemma ReadFills(data: seq<byte>, s: Shard, ps: seq<seq<byte>>, off: nat, crc: Checksum)
    requires Read(data, s, ps, crc) && Dense(s.bands, 0, 4096, off)
    ensures |ps| == |s.bands| == 9 && Fill(ps, s.bands, crc)
    ensures forall k :: 0 <= k < 9 ==>
              s.bands[k].off + s.bands[k].len <= |data| && data[s.bands[k].off..s.bands[k].off + s.bands[k].len] == ps[k]
  {
    hide Dense, ReadBandOf;
    DenseCount(s.bands, 0, 4096, off);
    forall k | 0 <= k < 9
      ensures |ps[k]| == s.bands[k].len && crc(ps[k]) == s.bands[k].sum
      ensures s.bands[k].off + s.bands[k].len <= |data| && data[s.bands[k].off..s.bands[k].off + s.bands[k].len] == ps[k]
    {
      BandIsRead(data, s.bands, k, off, ps[k], crc);
    }
  }

  lemma BandIsRead(data: seq<byte>, bs: seq<Band>, k: nat, off: nat, payload: seq<byte>, crc: Checksum)
    requires |bs| == 9 && k < 9 && Dense(bs, 0, 4096, off) && ReadBandOf(data, bs, BAND_ORDER[k], crc) == Ok(payload)
    ensures bs[k].off + bs[k].len <= |data| && data[bs[k].off..bs[k].off + bs[k].len] == payload
    ensures |payload| == bs[k].len && crc(payload) == bs[k].sum
  {
    forall i | 0 <= i < 9 ensures bs[i].id == BAND_ORDER[i] {
      DenseAt(bs, 0, 4096, off, i);
    }
    hide Dense;
    FindsBand(data, bs, 0, k, crc);
    assert bs[0..] == bs && bs[k..][0] == bs[k];
  }

  lemma ResidentFirst(data: seq<byte>, s: Shard, ps: seq<seq<byte>>, crc: Checksum)
    requires Read(data, s, ps, crc)
    requires Holds(data, s.bands, 0, MetaBytes(s.meta), crc) && Holds(data, s.bands, 8, StatsBytes(s.stats), crc)
    ensures ps[0] == MetaBytes(s.meta) && ps[1] == StatsBytes(s.stats)
  {
    hide Holds, ReadBandOf, MetaBytes, StatsBytes;
    ReadHolds(data, s.bands, 0, MetaBytes(s.meta), crc);
    ReadHolds(data, s.bands, 8, StatsBytes(s.stats), crc);
    assert BAND_ORDER[0] == 0 && BAND_ORDER[1] == 8;
  }

  /** The file that is written for what was read, in its parts. */
  lemma AgainIs(data: seq<byte>, s: Shard, ps: seq<seq<byte>>, off: nat, crc: Checksum)
    requires IsFile(data, s, off, crc) && Fill(ps, s.bands, crc)
    ensures var laid := Laid(HeaderPage(s.header, crc), ps, 9);
            && |Padded(laid)| == off && BandsOf(HeaderPage(s.header, crc), ps, 9, crc) == s.bands
            && FileBytes(s.header, ps, s.provenance, crc) == Padded(laid) + data[off..|data| - 16] + data[|data| - 16..]
  {
    hide HeaderPage, Laid, Footer, Tail, Dense, Holds, SoundContents, AlignUp, Padded, MetaBytes, StatsBytes;
    var head := HeaderPage(s.header, crc);
    PageLength(s.header, crc);
    SameBands(head, ps, s.bands, off, crc, 9);
    DenseAt(s.bands, 0, 4096, off, 8);
    PaddedLength(Laid(head, ps, 9));
    assert s.bands[..9] == s.bands;
  }

  /** All bytes but padding are the same: the header page, every band, and the footer with the tail. */
  ghost predicate SameButPadding(a: seq<byte>, b: seq<byte>, s: Shard, off: nat) {
    && |a| == |b| && 96 <= off <= |a| && a[..96] == b[..96] && a[off..] == b[off..]
    && forall k :: 0 <= k < |s.bands| ==>
         s.bands[k].off + s.bands[k].len <= off
         && a[s.bands[k].off..s.bands[k].off + s.bands[k].len] == b[s.bands[k].off..s.bands[k].off + s.bands[k].len]
  }

  /**
   * Any accepted file below 2^63 bytes whose bands all read: what is written for its contents is as long, the same in every
   * byte that is not padding, and opens to the same.
   */
  lemma ReEncodes(data: seq<byte>, s: Shard, ps: seq<seq<byte>>, crc: Checksum) returns (off: nat)
    requires |data| < 0x8000_0000_0000_0000 && OpenOf(data, crc) == Ok(s) && Read(data, s, ps, crc)
    ensures SameButPadding(data, FileBytes(s.header, ps, s.provenance, crc), s, off)
    ensures OpenOf(FileBytes(s.header, ps, s.provenance, crc), crc) == Ok(s)
  {
    hide OpenOf, IsFile, FileBytes, Read, Fill, Laid, Padded, HeaderPage, BandsOf, ReadBandOf, MetaBytes, StatsBytes, GoodContents;
    OpensExactly(data, s, crc);
    off :| IsFile(data, s, off, crc);
    FileHolds(data, s, off, crc);
    hide Holds, Dense, SoundContents;
    ReadFills(data, s, ps, off, crc);
    ResidentFirst(data, s, ps, crc);
    AgainIs(data, s, ps, off, crc);
    ContentsAreSound(s.header, s.meta, s.stats);
    var out := FileBytes(s.header, ps, s.provenance, crc);
    LengthIs(data, Padded(Laid(HeaderPage(s.header, crc), ps, 9)), off, out);
    WrittenOpens(s.header, s.meta, s.stats, ps, s.provenance, crc);
    BodyParts(s.header, ps, crc);
    SamePage(data, out, s, ps, off, crc);
    BandsSame(data, out, s, ps, off, crc);
  }

  lemma BandsSame(data: seq<byte>, out: seq<byte>, s: Shard, ps: seq<seq<byte>>, off: nat, crc: Checksum)
    requires |ps| == |s.bands| == 9 && Dense(s.bands, 0, 4096, off) && off <= |data| == |out|
    requires forall k :: 0 <= k < 9 ==>
               s.bands[k].off + s.bands[k].len <= |data| && data[s.bands[k].off..s.bands[k].off + s.bands[k].len] == ps[k]
    requires forall k :: 0 <= k < 9 ==> ReadBandOf(out, s.bands, BAND_ORDER[k], crc) == Ok(ps[k])
    ensures forall k :: 0 <= k < 9 ==>
              && s.bands[k].off + s.bands[k].len <= off
              && data[s.bands[k].off..s.bands[k].off + s.bands[k].len] == out[s.bands[k].off..s.bands[k].off + s.bands[k].len]
  {
    hide Dense, ReadBandOf;
    forall k | 0 <= k < 9
      ensures s.bands[k].off + s.bands[k].len <= off
      ensures data[s.bands[k].off..s.bands[k].off + s.bands[k].len] == out[s.bands[k].off..s.bands[k].off + s.bands[k].len]
    {
      DenseAt(s.bands, 0, 4096, off, k);
      BandIsRead(out, s.bands, k, off, ps[k], crc);
    }
  }

  lemma FileHolds(data: seq<byte>, s: Shard, off: nat, crc: Checksum)
    requires IsFile(data, s, off, crc)
    ensures 4096 <= off && off + 16 <= |data| && data[..96] == HeaderPage(s.header, crc)
    ensures Dense(s.bands, 0, 4096, off) && GoodProvenance(s.provenance) && SoundContents(s.header, s.meta, s.stats)
    ensures Holds(data, s.bands, 0, MetaBytes(s.meta), crc) && Holds(data, s.bands, 8, StatsBytes(s.stats), crc)
  {
    hide HeaderPage, Dense, SoundContents, Holds, MetaBytes, StatsBytes, Footer, Tail;
  }

  lemma LengthIs(data: seq<byte>, body: seq<byte>, off: nat, out: seq<byte>)
    requires |body| == off && off + 16 <= |data| && out == body + data[off..|data| - 16] + data[|data| - 16..]
    ensures |out| == |data| && out[..off] == body && out[off..] == data[off..]
  {
    assert data[off..] == data[off..|data| - 16] + data[|data| - 16..];
    assert out == body + data[off..];
  }

  lemma SamePage(data: seq<byte>, out: seq<byte>, s: Shard, ps: seq<seq<byte>>, off: nat, crc: Checksum)
    requires |ps| == 9 && 4096 <= off <= |out| && |data| >= 96 && data[..96] == HeaderPage(s.header, crc)
    requires var laid := Laid(HeaderPage(s.header, crc), ps, 9); |Padded(laid)| == off && out[..off] == Padded(laid)
    ensures out[..96] == data[..96]
  {
    hide Laid, HeaderPage, Padded;
    var laid := Laid(HeaderPage(s.header, crc), ps, 9);
    BodyParts(s.header, ps, crc);
    PaddedLength(laid);
    SliceOfPrefix(out, Padded(laid), 0, 96);
    SliceOfPrefix(Padded(laid), laid, 0, 96);
  }
}
