/** chain/ckpt.go as it runs: encoding, decoding, and the checkpointer that captures each interval's boundary. */
module Checkpointing {
  import opened Bytes
  import opened Records
  import opened Format
  import opened BatchCodec
  import opened BatchObject
  import opened Leases
  import opened ChainState
  import opened Checkpoint
  import opened CheckpointCodec

  /** One section's body: the count, then the entries in order. */
  method EncodeSection<T>(es: seq<T>, write: T -> seq<byte>) returns (body: seq<byte>)
    ensures body == Counted(es, write)
  {
    body := LE(4, |es| % 0x1_0000_0000);
    ghost var head := body;
    assert head + Concat(es[..0], write) == head;
    for i := 0 to |es|
      invariant body == head + Concat(es[..i], write)
    {
      ConcatSplit(es[..i + 1], i, write);
      assert es[..i + 1][..i] == es[..i] && es[..i + 1][i..] == [es[i]];
      assert Concat([es[i]], write) == write(es[i]) + Concat([], write);
      body := body + write(es[i]);
    }
    assert es[..|es|] == es;
  }

  lemma Ranks()
    ensures forall a: LeaseKey, b: LeaseKey :: LeaseRank(a) == LeaseRank(b) ==> a == b
    ensures forall a: ManKey, b: ManKey :: ManRank(a) == ManRank(b) ==> a == b
    ensures forall a: GenKey, b: GenKey :: GenRank(a) == GenRank(b) ==> a == b
  {
  }

  method EncodeCheckpoint(s: Snapshot, writer: u64, seqNo: u64, crc: Checksum) returns (out: seq<byte>)
    ensures CheckpointOf(out, s, writer, seqNo, crc)
  {
    hide Lists, Counted, Object, Sections;
    Ranks();
    var members := SortedEntries(s.members, NodeRank);
    var leases := SortedEntries(s.leases, LeaseRank);
    var mans := SortedEntries(s.mans, ManRank);
    var gens := SortedEntries(s.gens, GenRank);
    var tiers := SortedEntries(s.tiers, ShardRank);
    ghost var l := Listing(members, leases, mans, gens, tiers);
    var b0 := EncodeSection(members, WriteMember);
    var b1 := EncodeSection(leases, WriteLease);
    var b2 := EncodeSection(mans, WriteMan);
    var b3 := EncodeSection(gens, WriteGen);
    var b4 := EncodeSection(tiers, WriteTier);
    var bodies := [b0, b1, b2, b3, LE(8, s.tierVersion) + b4];
    var payload := Fields([8, 8], [seqNo, s.ckptSeq]);
    payload := AppendSections(payload, bodies, crc);
    out := Object(FORMAT_CKPT, writer, payload, crc);
    assert ListingOf(l, s) && bodies == Bodies(l, s.tierVersion);
  }

  method AppendSections(head: seq<byte>, bodies: seq<seq<byte>>, crc: Checksum) returns (out: seq<byte>)
    ensures out == head + Sections(bodies, crc)
  {
    out := head;
    var i := 0;
    assert bodies[0..] == bodies;
    while i < |bodies|
      invariant 0 <= i <= |bodies|
      invariant head + Sections(bodies, crc) == out + Sections(bodies[i..], crc)
    {
      assert bodies[i..][0] == bodies[i] && bodies[i..][1..] == bodies[i + 1..];
      Assoc(out, Section(bodies[i], crc), Sections(bodies[i + 1..], crc));
      out := out + Section(bodies[i], crc);
      i := i + 1;
    }
    assert bodies[i..] == [];
  }

  /** One section: length, body, checksum. */
  method TakeSection(r: Reader, crc: Checksum) returns (res: Result<seq<byte>, FormatError>)
    modifies r
    ensures match ReadSection(old(r.In()), crc)
            case Err(e) => res == Err(e)
            case Ok((body, i)) => res == Ok(body) && r.In() == i
  {
    var size := r.UInt(4);
    var body := r.Take(size);
    var sum := r.UInt(4);
    if r.err {
      return Err(Truncated);
    }
    if sum != crc(body) {
      return Err(BadSectionCrc);
    }
    return Ok(body);
  }

  method TakeSections(r: Reader, n: nat, crc: Checksum) returns (res: Result<seq<seq<byte>>, FormatError>)
    modifies r
    ensures match ReadSections(old(r.In()), n, crc)
            case Err(e) => res == Err(e)
            case Ok((bodies, i)) => res == Ok(bodies) && r.In() == i
  {
    hide ReadSection;
    var bodies := [];
    PrependNoBodies(ReadSections(r.In(), n, crc));
    while |bodies| < n
      invariant |bodies| <= n
      invariant ReadSections(old(r.In()), n, crc) == PrependBodies(bodies, ReadSections(r.In(), n - |bodies|, crc))
    {
      var body := TakeSection(r, crc);
      if body.Err? {
        return Err(body.error);
      }
      PrependMoreBodies(bodies, body.value, ReadSections(r.In(), n - |bodies| - 1, crc));
      bodies := bodies + [body.value];
    }
    assert bodies + [] == bodies;
    return Ok(bodies);
  }

  function PrependBodies(bs: seq<seq<byte>>, res: Result<(seq<seq<byte>>, Input), FormatError>)
    : Result<(seq<seq<byte>>, Input), FormatError>
  {
    match res
    case Err(e) => Err(e)
    case Ok((more, i)) => Ok((bs + more, i))
  }

  lemma PrependNoBodies(res: Result<(seq<seq<byte>>, Input), FormatError>)
    ensures PrependBodies([], res) == res
  {
    if res.Ok? {
      assert [] + res.value.0 == res.value.0;
    }
  }

  lemma PrependMoreBodies(bs: seq<seq<byte>>, b: seq<byte>, res: Result<(seq<seq<byte>>, Input), FormatError>)
    ensures PrependBodies(bs, PrependBodies([b], res)) == PrependBodies(bs + [b], res)
  {
    if res.Ok? {
      assert bs + ([b] + res.value.0) == (bs + [b]) + res.value.0;
    }
  }

  /** A section's entries, inserted into a map one by one; read is the section's own entry reader. */
  method TakeEntries<K(==), V>(i: Input, read: Input -> ((K, V), Input)) returns (m: map<K, V>, end: Input)
    ensures (var (es, e) := ReadCounted(i, read); m == Inserted(es) && end == e)
  {
    hide Many, UInt;
    var (n, left) := UInt(i, 4);
    m, end := map[], left;
    ghost var es: seq<(K, V)> := [];
    ManyStart(left, n, read);
    for k := 0 to n
      invariant m == Inserted(es) && SoFar(left, n, read, es, end, k)
    {
      hide SoFar;
      var (e, i') := read(end);
      ManyNext(left, n, read, es, end, k);
      InsertedMore(es, e);
      m, end, es := m[e.0 := e.1], i', es + [e];
    }
    ManyEnd(left, n, read, es, end);
  }

  lemma InsertedMore<K, V>(es: seq<(K, V)>, e: (K, V))
    ensures Inserted(es + [e]) == Inserted(es)[e.0 := e.1]
  {
    assert (es + [e])[..|es|] == es;
  }

  method DecodeCheckpoint(data: seq<byte>, crc: Checksum) returns (res: Result<Booted, FormatError>)
    ensures res == CheckpointIn(data, crc)
  {
    hide OpenObject, ReadFields, ReadSections, StateFrom;
    var header := OpenObject(data, FORMAT_CKPT, crc);
    if header.Err? {
      return Err(header.error);
    }
    var (writer, payload) := header.value;
    Widths();
    var r := new Reader(payload);
    var head := r.TakeFields([8, 8]);
    var sections := TakeSections(r, 5, crc);
    if sections.Err? {
      return Err(sections.error);
    }
    if r.err || |r.b| != 0 {
      return Err(Trailing);
    }
    var s := DecodeSections(sections.value, head[1]);
    if s.Err? {
      return Err(s.error);
    }
    return Ok(Booted(s.value, head[0], writer));
  }

  method DecodeSections(bodies: seq<seq<byte>>, ckptSeq: u64) returns (res: Result<Snapshot, FormatError>)
    requires |bodies| == 5
    ensures res == StateFrom(bodies, ckptSeq)
  {
    hide ReadCounted, Inserted, UInt;
    Widths();
    var members, i0 := TakeEntries(Good(bodies[0]), ReadMemberEntry);
    var leases, i1 := TakeEntries(Good(bodies[1]), ReadLease);
    var mans, i2 := TakeEntries(Good(bodies[2]), ReadMan);
    var gens, i3 := TakeEntries(Good(bodies[3]), ReadGen);
    var (tierVersion, i4) := UInt(Good(bodies[4]), 8);
    var tiers, i5 := TakeEntries(i4, ReadTier);
    var ins := [i0, i1, i2, i3, i5];
    var bad := FirstError(ins);
    if bad.Some? {
      return Err(bad.value);
    }
    return Ok(Snapshot(members, leases, mans, gens, tiers, tierVersion, ckptSeq));
  }

  // ----- the checkpointer -----

  datatype Pending = Pending(seqNo: u64, data: seq<byte>)

  /** A checkpointer's state and the boundaries it has captured and not yet written out. */
  class Checkpointer {
    const state: State
    const interval: u64
    var pending: seq<Pending>
    const crc: Checksum

    constructor (start: State, interval: u64, crc: Checksum)
      ensures state == start && pending == [] && this.interval == interval && this.crc == crc
    {
      state, this.interval, this.crc, pending := start, interval, crc, [];
    }

    method Observe(seqNo: u64, b: Batch)
      requires interval > 0
      modifies this, state, state.leases
      ensures state.Snap() == ApplyAll(old(state.Snap()), b.records)
      ensures Wrap64(seqNo + 1) % interval != 0 ==> pending == old(pending)
      ensures Wrap64(seqNo + 1) % interval == 0 ==>
                |pending| == |old(pending)| + 1 && pending[..|old(pending)|] == old(pending)
                && pending[|pending| - 1].seqNo == seqNo
                && CheckpointOf(pending[|pending| - 1].data, state.Snap(), b.writer, seqNo, crc)
    {
      hide CheckpointOf;
      state.Apply(b);
      if Wrap64(seqNo + 1) % interval == 0 {
        var data := EncodeCheckpoint(state.Snap(), b.writer, seqNo, crc);
        pending := pending + [Pending(seqNo, data)];
      }
    }
  }

  /** The slot that completes an interval. */
  predicate Completes(slot: nat, interval: nat)
    requires interval > 0
  {
    (slot + 1) % interval == 0
  }

  /**
   * What a checkpointer holds after observing a stretch of the chain from slot `from` on: one capture for every slot that
   * completes an interval and for no other, in order, each a checkpoint of the state at that slot, under its batch's writer.
   */
  ghost predicate Captured(ps: seq<Pending>, start: Snapshot, from: nat, tail: seq<Batch>, interval: nat, crc: Checksum)
    requires interval > 0
  {
    && (forall i, j :: 0 <= i < j < |ps| ==> ps[i].seqNo < ps[j].seqNo)
    && (forall p :: p in ps ==> IsCapture(p, start, from, tail, interval, crc))
    && (forall slot: nat :: from <= slot < from + |tail| && Completes(slot, interval) ==> HasSlot(ps, slot))
  }

  ghost predicate HasSlot(ps: seq<Pending>, slot: nat) {
    exists p :: p in ps && p.seqNo == slot
  }

  ghost predicate IsCapture(p: Pending, start: Snapshot, from: nat, tail: seq<Batch>, interval: nat, crc: Checksum)
    requires interval > 0
  {
    && from <= p.seqNo < from + |tail| && Completes(p.seqNo, interval)
    && var k := p.seqNo - from; CheckpointOf(p.data, Replay(start, tail[..k + 1]), tail[k].writer, p.seqNo, crc)
  }

  lemma NothingCaptured(start: Snapshot, from: nat, interval: nat, crc: Checksum)
    requires interval > 0
    ensures Captured([], start, from, [], interval, crc)
  {
  }

  lemma CaptureStays(p: Pending, start: Snapshot, from: nat, tail: seq<Batch>, b: Batch, interval: nat, crc: Checksum)
    requires interval > 0 && IsCapture(p, start, from, tail, interval, crc)
    ensures IsCapture(p, start, from, tail + [b], interval, crc) && p.seqNo < from + |tail|
  {
    hide CheckpointOf, Replay, Completes;
    var k := p.seqNo - from;
    assert (tail + [b])[..k + 1] == tail[..k + 1];
  }

  lemma AllStay(ps: seq<Pending>, start: Snapshot, from: nat, tail: seq<Batch>, b: Batch, interval: nat, crc: Checksum)
    requires interval > 0 && Captured(ps, start, from, tail, interval, crc)
    ensures forall p :: p in ps ==> IsCapture(p, start, from, tail + [b], interval, crc) && p.seqNo < from + |tail|
  {
    hide IsCapture, HasSlot, Completes;
    forall p | p in ps ensures IsCapture(p, start, from, tail + [b], interval, crc) && p.seqNo < from + |tail| {
      CaptureStays(p, start, from, tail, b, interval, crc);
    }
  }

  lemma CapturedSkip(ps: seq<Pending>, start: Snapshot, from: nat, tail: seq<Batch>, b: Batch, interval: nat, crc: Checksum)
    requires interval > 0 && Captured(ps, start, from, tail, interval, crc) && !Completes(from + |tail|, interval)
    ensures Captured(ps, start, from, tail + [b], interval, crc)
  {
    hide IsCapture, HasSlot, Completes;
    AllStay(ps, start, from, tail, b, interval, crc);
  }

  lemma IsCaptured(p: Pending, start: Snapshot, from: nat, tail: seq<Batch>, b: Batch, interval: nat, crc: Checksum)
    requires interval > 0 && Completes(from + |tail|, interval) && p.seqNo == from + |tail|
    requires CheckpointOf(p.data, Replay(start, tail + [b]), b.writer, p.seqNo, crc)
    ensures IsCapture(p, start, from, tail + [b], interval, crc)
  {
    hide CheckpointOf, Replay, Completes;
    assert (tail + [b])[..|tail| + 1] == tail + [b];
  }

  lemma HasMore(ps: seq<Pending>, p: Pending, slot: nat)
    ensures HasSlot(ps, slot) ==> HasSlot(ps + [p], slot)
    ensures HasSlot(ps + [p], p.seqNo)
  {
    var all := ps + [p];
    assert all[|ps|] == p;
    if HasSlot(ps, slot) {
      var q :| q in ps && q.seqNo == slot;
      assert q in all;
    }
  }

  lemma CapturedNow(ps: seq<Pending>, p: Pending, start: Snapshot, from: nat, tail: seq<Batch>, b: Batch, interval: nat,
                    crc: Checksum)
    requires interval > 0 && Captured(ps, start, from, tail, interval, crc) && Completes(from + |tail|, interval)
    requires p.seqNo == from + |tail| && CheckpointOf(p.data, Replay(start, tail + [b]), b.writer, p.seqNo, crc)
    ensures Captured(ps + [p], start, from, tail + [b], interval, crc)
  {
    hide IsCapture, HasSlot, Completes, CheckpointOf, Replay;
    AllStay(ps, start, from, tail, b, interval, crc);
    IsCaptured(p, start, from, tail, b, interval, crc);
    forall slot: nat | from <= slot < from + |tail| + 1 && Completes(slot, interval) ensures HasSlot(ps + [p], slot) {
      HasMore(ps, p, slot);
    }
  }

  /** Poll with a checkpointer wired to Observe, over the batches it finds from its position on. */
  method ObserveTail(c: Checkpointer, from: u64, tail: seq<Batch>)
    requires c.interval > 0 && from + |tail| < 0x1_0000_0000_0000_0000
    modifies c, c.state, c.state.leases
    ensures c.state.Snap() == Replay(old(c.state.Snap()), tail)
    ensures |old(c.pending)| <= |c.pending| && c.pending[..|old(c.pending)|] == old(c.pending)
    ensures Captured(c.pending[|old(c.pending)|..], old(c.state.Snap()), from, tail, c.interval, c.crc)
  {
    hide Captured, CheckpointOf, Replay, ApplyAll;
    ReplayNothing(c.state.Snap());
    ghost var start, was, ps := c.state.Snap(), c.pending, [];
    NothingCaptured(start, from, c.interval, c.crc);
    for i := 0 to |tail|
      invariant c.state.Snap() == Replay(start, tail[..i])
      invariant c.pending == was + ps && Captured(ps, start, from, tail[..i], c.interval, c.crc)
    {
      ReplayNext(start, tail[..i], tail[i]);
      assert tail[..i + 1] == tail[..i] + [tail[i]];
      c.Observe(from + i, tail[i]);
      if Completes(from + i, c.interval) {
        ghost var p := c.pending[|was + ps|];
        CapturedNow(ps, p, start, from, tail[..i], tail[i], c.interval, c.crc);
        ps := ps + [p];
      } else {
        CapturedSkip(ps, start, from, tail[..i], tail[i], c.interval, c.crc);
      }
    }
    assert tail[..|tail|] == tail && (was + ps)[|was|..] == ps;
  }

  lemma ReplayNothing(s: Snapshot)
    ensures Replay(s, []) == s
  {
  }

  lemma ReplayNext(s: Snapshot, bs: seq<Batch>, b: Batch)
    ensures Replay(s, bs + [b]) == ApplyAll(Replay(s, bs), b.records)
  {
    assert (bs + [b])[..|bs|] == bs;
  }

  // ----- what a checkpoint is for -----

  lemma StartsKeyed(chain: seq<Batch>, n: nat)
    requires n <= |chain| && Decoded(chain)
    ensures Keyed(Replay(NOTHING, chain[..n]))
  {
    ReplayKeyed(NOTHING, chain[..n]);
  }

  /** Booting from any checkpoint of the chain and folding the rest gives what folding it all gives. */
  lemma BootsToTheSameState(chain: seq<Batch>, n: nat, data: seq<byte>, writer: u64, seqNo: u64, crc: Checksum)
    requires n <= |chain| && Decoded(chain)
    requires CheckpointOf(data, Replay(NOTHING, chain[..n]), writer, seqNo, crc) && Sized(Replay(NOTHING, chain[..n]))
    ensures CheckpointIn(data, crc).Ok? && CheckpointIn(data, crc).value.seqNo == seqNo
    ensures Replay(CheckpointIn(data, crc).value.state, chain[n..]) == Replay(NOTHING, chain)
  {
    hide CheckpointOf, Sized, CheckpointIn, Replay, Keyed, Decoded;
    StartsKeyed(chain, n);
    CheckpointRoundTrip(data, Replay(NOTHING, chain[..n]), writer, seqNo, crc);
    assert chain == chain[..n] + chain[n..];
    ReplayConcat(NOTHING, chain[..n], chain[n..]);
  }

  lemma NothingOwnsKeys()
    ensures OwnKeys(NOTHING)
  {
  }

  /**
   * For any batches a handle may have folded, its own undecoded ones included: booting from the checkpoint taken after n
   * of them gives back what they folded to exactly when every member in that state fits.
   */
  lemma BootsIff(batches: seq<Batch>, n: nat, data: seq<byte>, writer: u64, seqNo: u64, crc: Checksum)
    requires n <= |batches|
    requires CheckpointOf(data, Replay(NOTHING, batches[..n]), writer, seqNo, crc) && Sized(Replay(NOTHING, batches[..n]))
    ensures CheckpointIn(data, crc) == Ok(Booted(Replay(NOTHING, batches[..n]), seqNo, writer))
       <==> AllFit(Replay(NOTHING, batches[..n]))
  {
    hide CheckpointOf, Sized, CheckpointIn, Replay, OwnKeys, AllFit;
    NothingOwnsKeys();
    ReplayOwnKeys(NOTHING, batches[..n]);
    CheckpointReadsBackIff(data, Replay(NOTHING, batches[..n]), writer, seqNo, crc);
  }

  /** The appender of a crowded member: nobody decodes its batch, and no checkpoint of its own state reads back. */
  lemma CrowdedCheckpointLost(s: Snapshot, m: Member, data: seq<byte>, writer: u64, seqNo: u64, crc: Checksum)
    requires OwnKeys(s) && |m.endpoints| >= 0x100
    requires var s' := ApplyAll(s, [MemberRec(m)]); CheckpointOf(data, s', writer, seqNo, crc) && Sized(s')
    ensures CheckpointIn(data, crc) != Ok(Booted(ApplyAll(s, [MemberRec(m)]), seqNo, writer))
  {
    hide CheckpointOf, Sized, CheckpointIn, OwnKeys;
    var s' := ApplyAll(s, [MemberRec(m)]);
    assert [MemberRec(m)][..0] == [];
    assert ApplyAll(s, []) == s;
    assert m.node in s'.members && s'.members[m.node] == m;
    AppliedOwnKeys(s, [MemberRec(m)]);
    CheckpointReadsBackIff(data, s', writer, seqNo, crc);
  }

  /** Two handles that cross slot m, one folding from zero and one booted at n, capture identical bytes. */
  lemma CapturesAgree(chain: seq<Batch>, n: nat, m: nat, boot: seq<byte>, a: seq<byte>, b: seq<byte>,
                      bootWriter: u64, bootSeq: u64, writer: u64, seqNo: u64, crc: Checksum)
    requires n <= m <= |chain| && Decoded(chain)
    requires CheckpointOf(boot, Replay(NOTHING, chain[..n]), bootWriter, bootSeq, crc) && Sized(Replay(NOTHING, chain[..n]))
    requires CheckpointOf(a, Replay(NOTHING, chain[..m]), writer, seqNo, crc)
    requires CheckpointIn(boot, crc).Ok? ==>
               CheckpointOf(b, Replay(CheckpointIn(boot, crc).value.state, chain[n..m]), writer, seqNo, crc)
    ensures a == b
  {
    hide CheckpointOf, Sized;
    assert chain[..m][..n] == chain[..n] && chain[..m][n..] == chain[n..m];
    BootsToTheSameState(chain[..m], n, boot, bootWriter, bootSeq, crc);
    OneCheckpoint(a, b, Replay(NOTHING, chain[..m]), writer, seqNo, crc);
  }
}
