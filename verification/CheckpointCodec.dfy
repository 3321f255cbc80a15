/** The bytes of a checkpoint, chain/ckpt.go, and the state they are read back into. */
module CheckpointCodec {
  import opened Bytes
  import opened Records
  import opened Format
  import opened RecordCodec
  import opened Leases
  import opened ChainState
  import opened Checkpoint

  // ----- section entries -----

  function LeaseRank(k: LeaseKey): nat { k.domain * 0x1_0000_0000 + k.unit }
  function ManRank(k: ManKey): nat { k.family * 0x1_0000 + k.partition }
  function GenRank(k: GenKey): nat { k.shard * 0x1_0000_0000_0000_0000 + k.generation }
  function NodeRank(n: u64): nat { n }
  function ShardRank(n: u16): nat { n }

  /** The order of a listing: leases by domain and unit, pointers by family and partition, generations by shard and number. */
  lemma KeyOrders(a: LeaseKey, b: LeaseKey, c: ManKey, d: ManKey, e: GenKey, f: GenKey)
    ensures LeaseRank(a) < LeaseRank(b) <==> a.domain < b.domain || (a.domain == b.domain && a.unit < b.unit)
    ensures ManRank(c) < ManRank(d) <==> c.family < d.family || (c.family == d.family && c.partition < d.partition)
    ensures GenRank(e) < GenRank(f) <==> e.shard < f.shard || (e.shard == f.shard && e.generation < f.generation)
  {
  }

  function WriteMember(e: (u64, Member)): seq<byte> {
    MemberBytes(e.1)
  }

  function WriteLease(e: (LeaseKey, Lease)): seq<byte> {
    var l := e.1;
    Fields([1, 4, 8, 4, 8, 1], [l.domain, l.unit, l.node, l.epoch, l.deadlineMS, if l.released then 1 else 0])
  }

  function WriteMan(e: (ManKey, u64)): seq<byte> {
    Fields([1, 2, 8], [e.0.family, e.0.partition, e.1])
  }

  function WriteGen(e: (GenKey, byte)): seq<byte> {
    Fields([2, 8, 1], [e.0.shard, e.0.generation, e.1])
  }

  function WriteTier(e: (u16, byte)): seq<byte> {
    Fields([2, 1], [e.0, e.1])
  }

  function ReadMemberEntry(i: Input): ((u64, Member), Input) {
    var (m, i') := ReadMember(i);
    ((m.node, m), i')
  }

  function ReadLease(i: Input): ((LeaseKey, Lease), Input) {
    Widths();
    var (v, i') := ReadFields(i, [1, 4, 8, 4, 8, 1]);
    ((LeaseKey(v[0], v[1]), Lease(v[0], v[1], v[2], v[3], v[4], v[5] == 1)), i')
  }

  function ReadMan(i: Input): ((ManKey, u64), Input) {
    Widths();
    var (v, i') := ReadFields(i, [1, 2, 8]);
    ((ManKey(v[0], v[1]), v[2]), i')
  }

  function ReadGen(i: Input): ((GenKey, byte), Input) {
    Widths();
    var (v, i') := ReadFields(i, [2, 8, 1]);
    ((GenKey(v[0], v[1]), v[2]), i')
  }

  function ReadTier(i: Input): ((u16, byte), Input) {
    Widths();
    var (v, i') := ReadFields(i, [2, 1]);
    ((v[0], v[1]), i')
  }

  // ----- sections -----

  function Counted<T>(es: seq<T>, write: T -> seq<byte>): seq<byte> {
    LE(4, |es| % 0x1_0000_0000) + Concat(es, write)
  }

  function ReadCounted<T>(i: Input, read: Input -> (T, Input)): (seq<T>, Input) {
    var (n, i') := UInt(i, 4);
    Many(i', n, read)
  }

  /** A section: its length, its body, its checksum. */
  function Section(body: seq<byte>, crc: Checksum): seq<byte> {
    LE(4, |body| % 0x1_0000_0000) + body + LE(4, crc(body))
  }

  function Sections(bodies: seq<seq<byte>>, crc: Checksum): seq<byte> {
    if bodies == [] then [] else Section(bodies[0], crc) + Sections(bodies[1..], crc)
  }

  function ReadSection(i: Input, crc: Checksum): Result<(seq<byte>, Input), FormatError> {
    var (size, i1) := UInt(i, 4);
    var (body, i2) := Take(i1, size);
    var (sum, i3) := UInt(i2, 4);
    if i3.Bad? then Err(Truncated)
    else if sum != crc(body) then Err(BadSectionCrc)
    else Ok((body, i3))
  }

  function ReadSections(i: Input, n: nat, crc: Checksum): (r: Result<(seq<seq<byte>>, Input), FormatError>)
    ensures r.Ok? ==> |r.value.0| == n
    decreases n
  {
    if n == 0 then Ok(([], i))
    else
      match ReadSection(i, crc)
      case Err(e) => Err(e)
      case Ok((body, i')) =>
        match ReadSections(i', n - 1, crc)
        case Err(e) => Err(e)
        case Ok((bodies, i'')) => Ok(([body] + bodies, i''))
  }

  // ----- the whole object -----

  /** The five maps as lists of entries in key order. */
  datatype Listing = Listing(members: seq<(u64, Member)>, leases: seq<(LeaseKey, Lease)>, mans: seq<(ManKey, u64)>,
                             gens: seq<(GenKey, byte)>, tiers: seq<(u16, byte)>)

  ghost predicate ListingOf(l: Listing, s: Snapshot) {
    && Lists(l.members, s.members, NodeRank) && Lists(l.leases, s.leases, LeaseRank) && Lists(l.mans, s.mans, ManRank)
    && Lists(l.gens, s.gens, GenRank) && Lists(l.tiers, s.tiers, ShardRank)
  }

  function Bodies(l: Listing, tierVersion: u64): (bs: seq<seq<byte>>)
    ensures |bs| == 5
  {
    [Counted(l.members, WriteMember), Counted(l.leases, WriteLease), Counted(l.mans, WriteMan), Counted(l.gens, WriteGen),
     LE(8, tierVersion) + Counted(l.tiers, WriteTier)]
  }

  function Layout(l: Listing, tierVersion: u64, ckptSeq: u64, writer: u64, seqNo: u64, crc: Checksum): seq<byte> {
    Object(FORMAT_CKPT, writer, Fields([8, 8], [seqNo, ckptSeq]) + Sections(Bodies(l, tierVersion), crc), crc)
  }

  /** data is what EncodeCheckpoint writes for state s, triggering slot seqNo and that slot's writer. */
  ghost predicate CheckpointOf(data: seq<byte>, s: Snapshot, writer: u64, seqNo: u64, crc: Checksum) {
    exists l :: ListingOf(l, s) && data == Layout(l, s.tierVersion, s.ckptSeq, writer, seqNo, crc)
  }

  /** No section outgrows its 32-bit length. */
  ghost predicate Sized(s: Snapshot) {
    forall l :: ListingOf(l, s) ==> forall i :: 0 <= i < 5 ==> |Bodies(l, s.tierVersion)[i]| < 0x1_0000_0000
  }

  /** A section must be used up. */
  function Ends(i: Input): Option<FormatError> {
    if i.Bad? then Some(Truncated) else if i.rest != [] then Some(Trailing) else None
  }

  function FirstError(ins: seq<Input>): Option<FormatError> {
    if ins == [] then None
    else if Ends(ins[0]).Some? then Ends(ins[0])
    else FirstError(ins[1..])
  }

  datatype Booted = Booted(state: Snapshot, seqNo: u64, writer: u64)

  function StateFrom(bodies: seq<seq<byte>>, ckptSeq: u64): Result<Snapshot, FormatError>
    requires |bodies| == 5
  {
    Widths();
    var (members, i0) := ReadCounted(Good(bodies[0]), ReadMemberEntry);
    var (leases, i1) := ReadCounted(Good(bodies[1]), ReadLease);
    var (mans, i2) := ReadCounted(Good(bodies[2]), ReadMan);
    var (gens, i3) := ReadCounted(Good(bodies[3]), ReadGen);
    var (tierVersion, i4) := UInt(Good(bodies[4]), 8);
    var (tiers, i5) := ReadCounted(i4, ReadTier);
    match FirstError([i0, i1, i2, i3, i5])
    case Some(e) => Err(e)
    case None =>
      Ok(Snapshot(Inserted(members), Inserted(leases), Inserted(mans), Inserted(gens), Inserted(tiers), tierVersion, ckptSeq))
  }

  function CheckpointIn(data: seq<byte>, crc: Checksum): Result<Booted, FormatError> {
    match OpenObject(data, FORMAT_CKPT, crc)
    case Err(e) => Err(e)
    case Ok((writer, payload)) =>
      Widths();
      var (head, i) := ReadFields(Good(payload), [8, 8]);
      match ReadSections(i, 5, crc)
      case Err(e) => Err(e)
      case Ok((bodies, i')) =>
        if i'.Bad? || i'.rest != [] then Err(Trailing)
        else
          match StateFrom(bodies, head[1])
          case Err(e) => Err(e)
          case Ok(s) => Ok(Booted(s, head[0], writer))
  }

  // ----- round trips -----

  /** x, written in front of rest, reads back as x and leaves rest. */
  ghost predicate Back<T>(read: Input -> (T, Input), write: T -> seq<byte>, x: T, rest: seq<byte>) {
    |write(x)| >= 1 && read(Good(write(x) + rest)) == (x, Good(rest))
  }

  /** Whatever fits reads back. */
  ghost predicate Inverse<T(!new)>(read: Input -> (T, Input), write: T -> seq<byte>, fits: T -> bool) {
    forall x, rest :: fits(x) ==> Back(read, write, x, rest)
  }

  lemma {:induction false} ManyBack<T(!new)>(xs: seq<T>, rest: seq<byte>, read: Input -> (T, Input), write: T -> seq<byte>,
                                             fits: T -> bool)
    requires Inverse(read, write, fits) && forall x :: x in xs ==> fits(x)
    ensures Many(Good(Concat(xs, write) + rest), |xs|, read) == (xs, Good(rest)) && |Concat(xs, write)| >= |xs|
  {
    if xs == [] {
      assert [] + rest == rest;
    } else {
      var tail := Concat(xs[1..], write) + rest;
      Assoc(write(xs[0]), Concat(xs[1..], write), rest);
      assert fits(xs[0]) && Back(read, write, xs[0], tail);
      ManyBack(xs[1..], rest, read, write, fits);
      assert [xs[0]] + xs[1..] == xs;
    }
  }

  lemma CountedBack<T(!new)>(es: seq<T>, read: Input -> (T, Input), write: T -> seq<byte>, fits: T -> bool)
    requires Inverse(read, write, fits) && (forall e :: e in es ==> fits(e)) && |Counted(es, write)| < 0x1_0000_0000
    ensures ReadCounted(Good(Counted(es, write)), read) == (es, Good([]))
  {
    hide Concat, Many, UInt, Inverse;
    Widths();
    ManyBack(es, [], read, write, fits);
    var body := Concat(es, write);
    assert body + [] == body;
    UIntLaw(Counted(es, write), 4, |es|, body);
  }

  lemma FieldsSize(ws: seq<nat>, vs: seq<nat>)
    requires |ws| == |vs| && ws != [] && ws[0] >= 1
    ensures |Fields(ws, vs)| >= 1
  {
  }

  predicate MemberEntryFits(e: (u64, Member)) {
    e.0 == e.1.node && MemberFits(e.1)
  }

  predicate LeaseEntryFits(e: (LeaseKey, Lease)) {
    e.0 == LeaseKey(e.1.domain, e.1.unit)
  }

  lemma MemberInverse()
    ensures Inverse(ReadMemberEntry, WriteMember, MemberEntryFits)
  {
    forall e: (u64, Member), rest: seq<byte> | MemberEntryFits(e)
      ensures Back(ReadMemberEntry, WriteMember, e, rest)
    {
      var m := e.1;
      MemberLaw(WriteMember(e) + rest, m, rest);
      FieldsSize([8, 1, 4, 1], [m.node, m.plane, m.incarnation, |m.endpoints| % 0x100]);
    }
  }

  lemma LeaseBack(e: (LeaseKey, Lease), rest: seq<byte>)
    requires LeaseEntryFits(e)
    ensures Back(ReadLease, WriteLease, e, rest)
  {
    hide ReadFields, Fields;
    Widths();
    var l := e.1;
    var vs := [l.domain, l.unit, l.node, l.epoch, l.deadlineMS, if l.released then 1 else 0];
    FieldsLaw(WriteLease(e) + rest, [1, 4, 8, 4, 8, 1], vs, rest);
    FieldsSize([1, 4, 8, 4, 8, 1], vs);
  }

  lemma LeaseInverse()
    ensures Inverse(ReadLease, WriteLease, LeaseEntryFits)
  {
    hide Back;
    forall e: (LeaseKey, Lease), rest: seq<byte> | LeaseEntryFits(e) ensures Back(ReadLease, WriteLease, e, rest) {
      LeaseBack(e, rest);
    }
  }

  lemma ManInverse()
    ensures Inverse(ReadMan, WriteMan, Always)
  {
    forall e: (ManKey, u64), rest: seq<byte>
      ensures Back(ReadMan, WriteMan, e, rest)
    {
      hide ReadFields, Fields;
      Widths();
      FieldsLaw(WriteMan(e) + rest, [1, 2, 8], [e.0.family, e.0.partition, e.1], rest);
      FieldsSize([1, 2, 8], [e.0.family, e.0.partition, e.1]);
    }
  }

  lemma GenInverse()
    ensures Inverse(ReadGen, WriteGen, Always)
  {
    forall e: (GenKey, byte), rest: seq<byte>
      ensures Back(ReadGen, WriteGen, e, rest)
    {
      hide ReadFields, Fields;
      Widths();
      FieldsLaw(WriteGen(e) + rest, [2, 8, 1], [e.0.shard, e.0.generation, e.1], rest);
      FieldsSize([2, 8, 1], [e.0.shard, e.0.generation, e.1]);
    }
  }

  lemma TierInverse()
    ensures Inverse(ReadTier, WriteTier, Always)
  {
    forall e: (u16, byte), rest: seq<byte>
      ensures Back(ReadTier, WriteTier, e, rest)
    {
      hide ReadFields, Fields;
      Widths();
      FieldsLaw(WriteTier(e) + rest, [2, 1], [e.0, e.1], rest);
      FieldsSize([2, 1], [e.0, e.1]);
    }
  }

  lemma SectionBack(b: seq<byte>, tail: seq<byte>, crc: Checksum)
    requires |b| < 0x1_0000_0000
    ensures ReadSection(Good(Section(b, crc) + tail), crc) == Ok((b, Good(tail)))
  {
    hide UInt, LE;
    Widths();
    var t2 := LE(4, crc(b)) + tail;
    var t1 := b + t2;
    Assoc(LE(4, |b|) + b, LE(4, crc(b)), tail);
    Assoc(LE(4, |b|), b, t2);
    UIntLaw(Section(b, crc) + tail, 4, |b|, t1);
    assert t1[..|b|] == b && t1[|b|..] == t2;
    UIntLaw(t2, 4, crc(b), tail);
  }

  lemma {:induction false} SectionsBack(bodies: seq<seq<byte>>, crc: Checksum)
    requires forall i :: 0 <= i < |bodies| ==> |bodies[i]| < 0x1_0000_0000
    ensures ReadSections(Good(Sections(bodies, crc)), |bodies|, crc) == Ok((bodies, Good([])))
  {
    hide ReadSection, Section;
    if bodies != [] {
      SectionBack(bodies[0], Sections(bodies[1..], crc), crc);
      SectionsBack(bodies[1..], crc);
      assert [bodies[0]] + bodies[1..] == bodies;
    }
  }

  /** Each section body reads back as its list. */
  lemma BodiesBack(l: Listing, s: Snapshot)
    requires ListingOf(l, s) && Keyed(s) && forall i :: 0 <= i < 5 ==> |Bodies(l, s.tierVersion)[i]| < 0x1_0000_0000
    ensures StateFrom(Bodies(l, s.tierVersion), s.ckptSeq) == Ok(s)
  {
    hide ReadCounted, Counted, ReadMemberEntry, WriteMember, ReadLease, WriteLease, ReadMan, WriteMan, ReadGen, WriteGen,
      ReadTier, WriteTier, UInt, LE, Inverse, Inserted, MemberFits;
    Widths();
    var bs := Bodies(l, s.tierVersion);
    assert |bs[0]| < 0x1_0000_0000 && |bs[1]| < 0x1_0000_0000 && |bs[2]| < 0x1_0000_0000 && |bs[3]| < 0x1_0000_0000;
    MemberInverse(); LeaseInverse(); ManInverse(); GenInverse(); TierInverse();
    CountedBack(l.members, ReadMemberEntry, WriteMember, MemberEntryFits);
    CountedBack(l.leases, ReadLease, WriteLease, LeaseEntryFits);
    CountedBack(l.mans, ReadMan, WriteMan, Always);
    CountedBack(l.gens, ReadGen, WriteGen, Always);
    var tiers := Counted(l.tiers, WriteTier);
    assert |bs[4]| < 0x1_0000_0000;
    CountedBack(l.tiers, ReadTier, WriteTier, Always);
    UIntLaw(bs[4], 8, s.tierVersion, tiers);
    Restored(l, s);
    assert FirstError([Good([]), Good([]), Good([]), Good([]), Good([])]) == None by { NoError(); }
  }

  lemma NoError()
    ensures FirstError([Good([]), Good([]), Good([]), Good([]), Good([])]) == None
  {
    var a: seq<Input> := [Good([]), Good([]), Good([]), Good([]), Good([])];
    assert a[1..] == [Good([]), Good([]), Good([]), Good([])];
    assert a[1..][1..] == [Good([]), Good([]), Good([])];
    assert a[1..][1..][1..] == [Good([]), Good([])];
    assert a[1..][1..][1..][1..] == [Good([])];
    assert a[1..][1..][1..][1..][1..] == [];
  }

  lemma Restored(l: Listing, s: Snapshot)
    requires ListingOf(l, s)
    ensures Inserted(l.members) == s.members && Inserted(l.leases) == s.leases && Inserted(l.mans) == s.mans
    ensures Inserted(l.gens) == s.gens && Inserted(l.tiers) == s.tiers
  {
    hide Lists;
    ListingRestores(l.members, s.members, NodeRank);
    ListingRestores(l.leases, s.leases, LeaseRank);
    ListingRestores(l.mans, s.mans, ManRank);
    ListingRestores(l.gens, s.gens, GenRank);
    ListingRestores(l.tiers, s.tiers, ShardRank);
  }

  /** A checkpoint decodes to the state it was taken of. */
  lemma CheckpointRoundTrip(data: seq<byte>, s: Snapshot, writer: u64, seqNo: u64, crc: Checksum)
    requires CheckpointOf(data, s, writer, seqNo, crc) && Keyed(s) && Sized(s)
    ensures CheckpointIn(data, crc) == Ok(Booted(s, seqNo, writer))
  {
    hide StateFrom, Bodies, OpenObject, Object, ReadSections, Sections, ReadFields, Fields, ListingOf, Keyed;
    Widths();
    var l :| ListingOf(l, s) && data == Layout(l, s.tierVersion, s.ckptSeq, writer, seqNo, crc);
    var bodies := Bodies(l, s.tierVersion);
    var payload := Fields([8, 8], [seqNo, s.ckptSeq]) + Sections(bodies, crc);
    ObjectLaw(data, FORMAT_CKPT, crc, writer, payload);
    FieldsLaw(payload, [8, 8], [seqNo, s.ckptSeq], Sections(bodies, crc));
    SectionsBack(bodies, crc);
    BodiesBack(l, s);
  }

  // ----- exactly when -----

  lemma StrFitsRead(i: Input)
    ensures StrFits(ReadStr(i).0)
  {
    Widths();
  }

  lemma {:induction false} StringsFitRead(i: Input, n: nat)
    ensures forall e :: e in Many(i, n, ReadStr).0 ==> StrFits(e)
    decreases n
  {
    hide ReadStr, StrFits;
    if n > 0 {
      StrFitsRead(i);
      StringsFitRead(ReadStr(i).1, n - 1);
    }
  }

  /** Whatever is read as a member fits: its counts came out of their own fields. */
  lemma MemberFitsRead(i: Input)
    ensures MemberFits(ReadMember(i).0)
  {
    hide ReadFields, Many, ReadStr, StrFits;
    Widths();
    var (v, i1) := ReadFields(i, [8, 1, 4, 1]);
    StringsFitRead(i1, v[3]);
    StrFitsRead(Many(i1, v[3], ReadStr).1);
  }

  lemma {:induction false} MembersFitRead(i: Input, n: nat)
    ensures forall e :: e in Many(i, n, ReadMemberEntry).0 ==> MemberFits(e.1)
    decreases n
  {
    hide ReadMember, MemberFits;
    if n > 0 {
      MemberFitsRead(i);
      MembersFitRead(ReadMemberEntry(i).1, n - 1);
    }
  }

  lemma {:induction false} InsertedFit(es: seq<(u64, Member)>)
    requires forall e :: e in es ==> MemberFits(e.1)
    ensures forall n :: n in Inserted(es) ==> MemberFits(Inserted(es)[n])
  {
    hide MemberFits;
    if es != [] {
      InsertedFit(es[..|es| - 1]);
      assert es[|es| - 1] in es;
    }
  }

  /** A checkpoint that decodes has only members that fit. */
  lemma BootedFits(data: seq<byte>, crc: Checksum)
    ensures CheckpointIn(data, crc).Ok? ==> AllFit(CheckpointIn(data, crc).value.state)
  {
    hide OpenObject, ReadSections, ReadFields, UInt, Many, ReadMemberEntry, MemberFits, FirstError;
    if CheckpointIn(data, crc).Ok? {
      var payload := OpenObject(data, FORMAT_CKPT, crc).value.1;
      var (head, i) := ReadFields(Good(payload), [8, 8]);
      var bodies := ReadSections(i, 5, crc).value.0;
      var (n, i') := UInt(Good(bodies[0]), 4);
      MembersFitRead(i', n);
      InsertedFit(ReadCounted(Good(bodies[0]), ReadMemberEntry).0);
    }
  }

  /**
   * A checkpoint decodes to the state it was taken of if and only if every member of that state fits the fields that
   * carry it; a member with more than 255 endpoints, whose count is cut to a byte, does not.
   */
  lemma CheckpointReadsBackIff(data: seq<byte>, s: Snapshot, writer: u64, seqNo: u64, crc: Checksum)
    requires CheckpointOf(data, s, writer, seqNo, crc) && OwnKeys(s) && Sized(s)
    ensures CheckpointIn(data, crc) == Ok(Booted(s, seqNo, writer)) <==> AllFit(s)
  {
    hide CheckpointIn, CheckpointOf, Sized, AllFit, OwnKeys;
    BootedFits(data, crc);
    if AllFit(s) {
      CheckpointRoundTrip(data, s, writer, seqNo, crc);
    }
  }

  /** A state has one checkpoint: racing writers, iterating their maps in any order, produce the same bytes. */
  lemma OneCheckpoint(a: seq<byte>, b: seq<byte>, s: Snapshot, writer: u64, seqNo: u64, crc: Checksum)
    requires CheckpointOf(a, s, writer, seqNo, crc) && CheckpointOf(b, s, writer, seqNo, crc)
    ensures a == b
  {
    hide Layout, Lists;
    var l :| ListingOf(l, s) && a == Layout(l, s.tierVersion, s.ckptSeq, writer, seqNo, crc);
    var m :| ListingOf(m, s) && b == Layout(m, s.tierVersion, s.ckptSeq, writer, seqNo, crc);
    OneListing(l.members, m.members, s.members, NodeRank);
    OneListing(l.leases, m.leases, s.leases, LeaseRank);
    OneListing(l.mans, m.mans, s.mans, ManRank);
    OneListing(l.gens, m.gens, s.gens, GenRank);
    OneListing(l.tiers, m.tiers, s.tiers, ShardRank);
  }
}
