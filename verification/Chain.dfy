/**
 * The append protocol of chain/chain.go, as steps of any number of handles on one object store with
 * create-if-absent. A create may end ambiguously: its write is then in flight, and may land at any later time until
 * the handle that issued it reads the slot and finds it empty.
 */
module Chain {
  import opened Bytes
  import opened Records

  /** What identifies a handle. */
  datatype Id = Id(writer: u64, incarnation: u32)

  /** What identifies a batch: its handle, and the handle's own counter. */
  datatype Name = Name(id: Id, batchId: u64)

  function NameOf(b: Batch): Name {
    Name(Id(b.writer, b.incarnation), b.batchId)
  }

  /** Where an Append stands: not running, about to create, told the slot is taken, or told nothing certain. */
  datatype Phase = Idle | Creating(batch: Batch) | Taken(batch: Batch) | Unknown(batch: Batch)

  /** One handle: its position, its batch counter, the batches it has delivered, and the appends that returned a slot. */
  datatype Handle = Handle(from: nat, next: nat, batchID: u64, phase: Phase, log: seq<Batch>, won: map<u64, nat>)

  /** A create whose outcome its issuer does not know. */
  datatype Flight = Flight(slot: nat, batch: Batch)

  /** A handle's counter is never worn out: it would take 2^64 appends. */
  const LAST_BATCH: u64 := 0xFFFF_FFFF_FFFF_FFFF

  datatype System = System(slots: map<nat, Batch>, flights: set<Flight>, handles: map<Id, Handle>)

  datatype Step =
    | Open(id: Id, from: nat)
    | Poll(id: Id)
    | Begin(id: Id, records: seq<Record>)
    | CreateOk(id: Id)
    | CreateTaken(id: Id)
    | CreateAmbiguous(id: Id)
    | CreateRefused(id: Id)
    | ReadWinner(id: Id)
    | ReadFails(id: Id)
    | ResolveEmpty(id: Id)
    | ResolveFound(id: Id)
    | ResolveFails(id: Id)
    | Land(flight: Flight)

  function Deliver(h: Handle, b: Batch): Handle {
    h.(next := h.next + 1, log := h.log + [b])
  }

  predicate IsOurs(ours: Batch, b: Batch) {
    b.writer == ours.writer && b.incarnation == ours.incarnation && b.batchId == ours.batchId
  }

  predicate Enabled(s: System, step: Step) {
    match step
    case Open(id, from) => id !in s.handles && from <= |s.slots|
    case Poll(id) => id in s.handles && s.handles[id].phase.Idle? && s.handles[id].next in s.slots
    case Begin(id, _) => id in s.handles && s.handles[id].phase.Idle? && s.handles[id].batchID < LAST_BATCH
    case CreateOk(id) => id in s.handles && s.handles[id].phase.Creating? && s.handles[id].next !in s.slots
    case CreateTaken(id) => id in s.handles && s.handles[id].phase.Creating? && s.handles[id].next in s.slots
    case CreateAmbiguous(id) => id in s.handles && s.handles[id].phase.Creating?
    case CreateRefused(id) => id in s.handles && s.handles[id].phase.Creating?
    case ReadWinner(id) => id in s.handles && s.handles[id].phase.Taken? && s.handles[id].next in s.slots
    case ReadFails(id) => id in s.handles && s.handles[id].phase.Taken?
    case ResolveEmpty(id) => id in s.handles && s.handles[id].phase.Unknown? && s.handles[id].next !in s.slots
    case ResolveFound(id) => id in s.handles && s.handles[id].phase.Unknown? && s.handles[id].next in s.slots
    case ResolveFails(id) => id in s.handles && s.handles[id].phase.Unknown?
    case Land(f) => f in s.flights
  }

  /**
   * The effect of one step. Reading an empty slot ends the flight that was headed for it, unless late writes are
   * allowed: then the flight outlives the read, and Append replays over it.
   */
  function Do(s: System, step: Step, lateWrites: bool): System
    requires Enabled(s, step)
  {
    match step
    case Open(id, from) => s.(handles := s.handles[id := Handle(from, from, 0, Idle, [], map[])])
    case Poll(id) =>
      var h := s.handles[id];
      s.(handles := s.handles[id := Deliver(h, s.slots[h.next])])
    case Begin(id, records) =>
      var h := s.handles[id];
      var b := Batch(id.writer, id.incarnation, h.batchID + 1, records);
      s.(handles := s.handles[id := h.(batchID := h.batchID + 1, phase := Creating(b))])
    case CreateOk(id) =>
      var h := s.handles[id];
      var b := h.phase.batch;
      s.(slots := s.slots[h.next := b],
         handles := s.handles[id := Deliver(h, b).(phase := Idle, won := h.won[b.batchId := h.next])])
    case CreateTaken(id) =>
      var h := s.handles[id];
      s.(handles := s.handles[id := h.(phase := Taken(h.phase.batch))])
    case CreateAmbiguous(id) =>
      var h := s.handles[id];
      s.(flights := s.flights + {Flight(h.next, h.phase.batch)},
         handles := s.handles[id := h.(phase := Unknown(h.phase.batch))])
    case CreateRefused(id) => s.(handles := s.handles[id := s.handles[id].(phase := Idle)])
    case ReadWinner(id) =>
      var h := s.handles[id];
      s.(handles := s.handles[id := Deliver(h, s.slots[h.next]).(phase := Creating(h.phase.batch))])
    case ReadFails(id) => s.(handles := s.handles[id := s.handles[id].(phase := Idle)])
    case ResolveEmpty(id) =>
      var h := s.handles[id];
      s.(flights := if lateWrites then s.flights else s.flights - {Flight(h.next, h.phase.batch)},
         handles := s.handles[id := h.(phase := Creating(h.phase.batch))])
    case ResolveFound(id) =>
      var h := s.handles[id];
      var found := s.slots[h.next];
      var after := Deliver(h, found);
      s.(handles := s.handles[id := if IsOurs(h.phase.batch, found)
                                    then after.(phase := Idle, won := h.won[found.batchId := h.next])
                                    else after.(phase := Creating(h.phase.batch))])
    case ResolveFails(id) => s.(handles := s.handles[id := s.handles[id].(phase := Idle)])
    case Land(f) =>
      s.(slots := if f.slot in s.slots then s.slots else s.slots[f.slot := f.batch], flights := s.flights - {f})
  }

  // ----- the invariant -----

  /** Occupied slots are exactly those below their count: no gap, no hole. */
  ghost predicate Dense(slots: map<nat, Batch>) {
    forall i: nat :: i in slots <==> i < |slots|
  }

  /** No batch sits in two slots. */
  ghost predicate Once(slots: map<nat, Batch>) {
    forall i, j :: i in slots && j in slots && NameOf(slots[i]) == NameOf(slots[j]) ==> i == j
  }

  /** Every batch in a slot or in flight was begun by a handle that is still on record. */
  ghost predicate Begun(s: System, b: Batch) {
    NameOf(b).id in s.handles && b.batchId <= s.handles[NameOf(b).id].batchID
  }

  ghost predicate Owned(s: System) {
    && (forall i :: i in s.slots ==> Begun(s, s.slots[i]))
    && (forall f :: f in s.flights ==> Begun(s, f.batch))
  }

  /** A flight whose slot has been taken meanwhile can no longer change anything. */
  ghost predicate Live(s: System, f: Flight) {
    f in s.flights && f.slot !in s.slots
  }

  /** A live flight can only fill the next free slot, and no other copy of its batch is anywhere else. */
  ghost predicate FlightsSafe(s: System) {
    && (forall f :: Live(s, f) ==> f.slot <= |s.slots|)
    && (forall f, i :: Live(s, f) && i in s.slots ==> NameOf(s.slots[i]) != NameOf(f.batch))
    && (forall f, g :: Live(s, f) && Live(s, g) && NameOf(f.batch) == NameOf(g.batch) ==> f == g)
  }

  /** No slot and no live flight holds the named batch, except at the given slot. */
  ghost predicate NowhereBut(s: System, name: Name, slot: int) {
    && (forall i :: i in s.slots && NameOf(s.slots[i]) == name ==> i == slot)
    && (forall f :: Live(s, f) && NameOf(f.batch) == name ==> f.slot == slot)
  }

  /** What a handle's phase promises about the batch it is appending. */
  ghost predicate PhaseSafe(s: System, id: Id, h: Handle) {
    match h.phase
    case Idle => true
    case Creating(b) => NameOf(b) == Name(id, h.batchID) && NowhereBut(s, NameOf(b), -1)
    case Taken(b) => NameOf(b) == Name(id, h.batchID) && NowhereBut(s, NameOf(b), -1)
    case Unknown(b) => NameOf(b) == Name(id, h.batchID) && NowhereBut(s, NameOf(b), h.next)
                       && forall f :: Live(s, f) && NameOf(f.batch) == NameOf(b) ==> f.batch == b
  }

  /** The log is exactly the slots from one place to another, in order. */
  ghost predicate Logged(slots: map<nat, Batch>, from: nat, next: nat, log: seq<Batch>) {
    && from <= next <= |slots| && |log| == next - from
    && forall i :: 0 <= i < |log| ==> from + i in slots && slots[from + i] == log[i]
  }

  /** A handle has delivered exactly the slots from where it opened to where it stands. */
  ghost predicate LogIs(slots: map<nat, Batch>, h: Handle) {
    Logged(slots, h.from, h.next, h.log)
  }

  ghost predicate Holds(slots: map<nat, Batch>, id: Id, batchID: u64, won: map<u64, nat>) {
    forall n :: n in won ==> n <= batchID && won[n] in slots && NameOf(slots[won[n]]) == Name(id, n)
  }

  /** Every append that returned a slot has its batch in that slot. */
  ghost predicate WonIs(slots: map<nat, Batch>, id: Id, h: Handle) {
    Holds(slots, id, h.batchID, h.won)
  }

  ghost predicate HandleSafe(s: System, id: Id) {
    id in s.handles ==> PhaseSafe(s, id, s.handles[id]) && LogIs(s.slots, s.handles[id]) && WonIs(s.slots, id, s.handles[id])
  }

  ghost predicate Inv(s: System) {
    Dense(s.slots) && Once(s.slots) && Owned(s) && FlightsSafe(s) && forall id :: HandleSafe(s, id)
  }

  const EMPTY := System(map[], {}, map[])

  lemma InvInit()
    ensures Inv(EMPTY)
  {
  }

  // ----- every step keeps it -----

  /** Handles stay on record and count up, and what is new in a slot was begun. */
  lemma OwnedMore(s: System, s': System)
    requires Owned(s) && s'.flights <= s.flights
    requires forall id :: id in s.handles ==> id in s'.handles && s.handles[id].batchID <= s'.handles[id].batchID
    requires forall i :: i in s'.slots ==> (i in s.slots && s'.slots[i] == s.slots[i]) || Begun(s', s'.slots[i])
    ensures Owned(s')
  {
    forall f | f in s'.flights ensures Begun(s', f.batch) {
      assert Begun(s, f.batch);
    }
    forall i | i in s'.slots ensures Begun(s', s'.slots[i]) {
      assert i in s.slots ==> Begun(s, s.slots[i]);
    }
  }

  lemma FlightsFewer(s: System, s': System)
    requires FlightsSafe(s) && s'.slots == s.slots && s'.flights <= s.flights
    ensures FlightsSafe(s')
  {
    assert forall f :: Live(s', f) ==> Live(s, f);
  }

  /** A handle that did not change does not notice fewer flights. */
  lemma StillSafe(s: System, s': System, id: Id)
    requires HandleSafe(s, id) && s'.slots == s.slots && s'.flights <= s.flights
    requires id in s'.handles ==> id in s.handles && s'.handles[id] == s.handles[id]
    ensures HandleSafe(s', id)
  {
    hide LogIs, WonIs;
    assert forall f :: Live(s', f) ==> Live(s, f);
  }

  /** Steps that write no slot and start no flight: one handle changes. */
  lemma HandleStep(s: System, s': System, id: Id)
    requires Inv(s) && s'.slots == s.slots && s'.flights <= s.flights
    requires id in s'.handles && s'.handles == s.handles[id := s'.handles[id]]
    requires id in s.handles ==> s.handles[id].batchID <= s'.handles[id].batchID
    requires HandleSafe(s', id)
    ensures Inv(s')
  {
    hide Dense, Once, Owned, FlightsSafe, HandleSafe;
    OwnedMore(s, s');
    FlightsFewer(s, s');
    forall other ensures HandleSafe(s', other) {
      assert HandleSafe(s, other);
      if other != id {
        StillSafe(s, s', other);
      }
    }
  }

  lemma LogGrows(slots: map<nat, Batch>, h: Handle)
    requires Dense(slots) && LogIs(slots, h) && h.next in slots
    ensures LogIs(slots, Deliver(h, slots[h.next]))
  {
  }

  /** Steps that put batch b into slot |slots|: the first free one. */
  ghost predicate FillsNext(slots: map<nat, Batch>, slots': map<nat, Batch>, b: Batch) {
    slots' == slots[|slots| := b]
  }

  lemma FillKeeps(slots: map<nat, Batch>, slots': map<nat, Batch>, b: Batch, id: Id, h: Handle)
    requires Dense(slots) && FillsNext(slots, slots', b) && LogIs(slots, h) && WonIs(slots, id, h)
    ensures |slots'| == |slots| + 1 && Dense(slots') && LogIs(slots', h) && WonIs(slots', id, h)
  {
    assert |slots| !in slots;
  }

  lemma FillOnce(slots: map<nat, Batch>, slots': map<nat, Batch>, b: Batch)
    requires Dense(slots) && Once(slots) && FillsNext(slots, slots', b)
    requires forall i :: i in slots ==> NameOf(slots[i]) != NameOf(b)
    ensures |slots'| == |slots| + 1 && Dense(slots') && Once(slots')
  {
    assert |slots| !in slots;
  }

  /** Another handle's phase does not notice a batch that is not its own. */
  lemma OtherPhase(s: System, s': System, b: Batch, id: Id, other: Id)
    requires Inv(s) && FillsNext(s.slots, s'.slots, b) && s'.flights <= s.flights && NameOf(b).id == id
    requires other != id && other in s.handles && other in s'.handles && s'.handles[other] == s.handles[other]
    ensures HandleSafe(s', other)
  {
    assert HandleSafe(s, other);
    FillKeeps(s.slots, s'.slots, b, other, s.handles[other]);
  }

  /** With a slot filled, the flights that are left are still safe if none carries the batch that filled it. */
  lemma FillFlights(s: System, s': System, b: Batch)
    requires Dense(s.slots) && FlightsSafe(s) && FillsNext(s.slots, s'.slots, b) && s'.flights <= s.flights
    requires forall f :: Live(s', f) ==> NameOf(f.batch) != NameOf(b)
    ensures FlightsSafe(s')
  {
    assert |s.slots| !in s.slots;
    assert forall f :: Live(s', f) ==> Live(s, f);
  }

  /** What a create that went through starts from. */
  lemma CreateFacts(s: System, id: Id)
    requires Inv(s) && Enabled(s, CreateOk(id))
    ensures var h := s.handles[id]; var b := h.phase.batch;
            && h.next == |s.slots| && FillsNext(s.slots, Do(s, CreateOk(id), false).slots, b)
            && NameOf(b) == Name(id, h.batchID) && NowhereBut(s, NameOf(b), -1) && LogIs(s.slots, h) && WonIs(s.slots, id, h)
  {
    hide Once, Owned, FlightsSafe, NowhereBut;
    assert HandleSafe(s, id);
  }

  /** The handle whose create went through: it has observed its own batch, and knows its slot. */
  lemma CreateOwn(s: System, id: Id)
    requires Inv(s) && Enabled(s, CreateOk(id))
    ensures HandleSafe(Do(s, CreateOk(id), false), id)
  {
    hide Inv, Once, FlightsSafe, NowhereBut;
    var s' := Do(s, CreateOk(id), false);
    var h, b := s.handles[id], s.handles[id].phase.batch;
    CreateFacts(s, id);
    InvDense(s);
    FillKeeps(s.slots, s'.slots, b, id, h);
    LogGrows(s'.slots, h);
  }

  lemma InvDense(s: System)
    requires Inv(s)
    ensures Dense(s.slots)
  {
  }

  lemma StepCreateOk(s: System, id: Id)
    requires Inv(s) && Enabled(s, CreateOk(id))
    ensures Inv(Do(s, CreateOk(id), false))
  {
    hide Dense, Once, Owned, FlightsSafe, HandleSafe, LogIs, WonIs;
    var s' := Do(s, CreateOk(id), false);
    var b := s.handles[id].phase.batch;
    CreateFacts(s, id);
    FillOnce(s.slots, s'.slots, b);
    FillFlights(s, s', b);
    OwnedMore(s, s');
    forall other ensures HandleSafe(s', other) {
      if other == id {
        CreateOwn(s, id);
      } else if other in s'.handles {
        OtherPhase(s, s', b, id, other);
      } else {
        NotOpen(s', other);
      }
    }
  }

  lemma NotOpen(s: System, id: Id)
    requires id !in s.handles
    ensures HandleSafe(s, id)
  {
  }

  lemma StepLand(s: System, f: Flight)
    requires Inv(s) && Enabled(s, Land(f))
    ensures Inv(Do(s, Land(f), false))
  {
    hide Dense, Once, Owned, FlightsSafe, HandleSafe;
    var s' := Do(s, Land(f), false);
    OwnedFlight(s, f);
    OwnedMore(s, s');
    if f.slot in s.slots {
      FlightsFewer(s, s');
    } else {
      LandFacts(s, f);
      FillOnce(s.slots, s'.slots, f.batch);
      FillFlights(s, s', f.batch);
    }
    forall other ensures HandleSafe(s', other) {
      assert HandleSafe(s, other);
      if other !in s'.handles {
        NotOpen(s', other);
      } else if f.slot in s.slots {
        StillSafe(s, s', other);
      } else {
        LandHandle(s, s', f, other);
      }
    }
  }

  lemma OwnedFlight(s: System, f: Flight)
    requires Owned(s) && f in s.flights
    ensures Begun(s, f.batch)
  {
  }

  /** A flight that fills its slot: it is the next, and no other copy of its batch is anywhere. */
  lemma LandFacts(s: System, f: Flight)
    requires Inv(s) && f in s.flights && f.slot !in s.slots
    ensures f.slot == |s.slots| && forall i :: i in s.slots ==> NameOf(s.slots[i]) != NameOf(f.batch)
    ensures forall g :: Live(s, g) && g != f ==> NameOf(g.batch) != NameOf(f.batch)
  {
    hide Once, Owned, HandleSafe;
    assert Live(s, f);
  }

  lemma LandHandle(s: System, s': System, f: Flight, id: Id)
    requires Inv(s) && f in s.flights && f.slot == |s.slots| && id in s.handles
    requires s' == s.(slots := s.slots[f.slot := f.batch], flights := s.flights - {f})
    ensures HandleSafe(s', id)
  {
    assert HandleSafe(s, id);
    FillKeeps(s.slots, s'.slots, f.batch, id, s.handles[id]);
  }

  lemma StepAmbiguous(s: System, id: Id)
    requires Inv(s) && Enabled(s, CreateAmbiguous(id))
    ensures Inv(Do(s, CreateAmbiguous(id), false))
  {
    hide PhaseSafe, LogIs, WonIs, FlightsSafe, Dense, Once, NowhereBut;
    var s' := Do(s, CreateAmbiguous(id), false);
    AmbiguousFlights(s, id);
    AmbiguousOwned(s, id);
    forall other ensures HandleSafe(s', other) {
      if other == id {
        AmbiguousOwn(s, id);
      } else if other in s.handles {
        AmbiguousOther(s, id, other);
      }
    }
  }

  lemma AmbiguousFlights(s: System, id: Id)
    requires Inv(s) && Enabled(s, CreateAmbiguous(id))
    ensures FlightsSafe(Do(s, CreateAmbiguous(id), false))
  {
    assert HandleSafe(s, id);
    var s' := Do(s, CreateAmbiguous(id), false);
    var b := s.handles[id].phase.batch;
    forall f | Live(s', f) ensures f == Flight(s.handles[id].next, b) || (Live(s, f) && NameOf(f.batch) != NameOf(b)) {
    }
  }

  lemma AmbiguousOwned(s: System, id: Id)
    requires Inv(s) && Enabled(s, CreateAmbiguous(id))
    ensures Owned(Do(s, CreateAmbiguous(id), false))
  {
    assert HandleSafe(s, id);
    var s' := Do(s, CreateAmbiguous(id), false);
    forall f | f in s'.flights ensures Begun(s', f.batch) {
      assert f in s.flights ==> Begun(s, f.batch);
    }
    forall i | i in s'.slots ensures Begun(s', s'.slots[i]) {
      assert Begun(s, s.slots[i]);
    }
  }

  lemma AmbiguousOwn(s: System, id: Id)
    requires Inv(s) && Enabled(s, CreateAmbiguous(id))
    ensures HandleSafe(Do(s, CreateAmbiguous(id), false), id)
  {
    hide Dense, Once, Owned, Logged, Holds;
    assert HandleSafe(s, id);
  }

  lemma AmbiguousOther(s: System, id: Id, other: Id)
    requires Inv(s) && Enabled(s, CreateAmbiguous(id)) && other in s.handles && other != id
    ensures HandleSafe(Do(s, CreateAmbiguous(id), false), other)
  {
    hide Dense, Once, Owned, Logged, Holds;
    assert HandleSafe(s, other) && HandleSafe(s, id);
  }

  lemma StepBegin(s: System, id: Id, records: seq<Record>)
    requires Inv(s) && Enabled(s, Begin(id, records))
    ensures Inv(Do(s, Begin(id, records), false))
  {
    var s' := Do(s, Begin(id, records), false);
    var h := s.handles[id];
    assert HandleSafe(s, id);
    var name := Name(id, h.batchID + 1);
    forall i | i in s.slots ensures NameOf(s.slots[i]) != name {
      assert Begun(s, s.slots[i]);
    }
    forall f | f in s.flights ensures NameOf(f.batch) != name {
      assert Begun(s, f.batch);
    }
    HandleStep(s, s', id);
  }

  lemma StepOpen(s: System, id: Id, from: nat)
    requires Inv(s) && Enabled(s, Open(id, from))
    ensures Inv(Do(s, Open(id, from), false))
  {
    HandleStep(s, Do(s, Open(id, from), false), id);
  }

  lemma StepResolve(s: System, step: Step)
    requires Inv(s) && Enabled(s, step)
    requires step.ResolveEmpty? || step.ResolveFound? || step.ResolveFails?
    ensures Inv(Do(s, step, false))
  {
    hide Inv, HandleSafe;
    if step.ResolveEmpty? {
      EmptyOwn(s, step.id);
    } else if step.ResolveFound? {
      FoundOwn(s, step.id);
    } else {
      IdleOwn(s, Do(s, step, false), step.id);
    }
    HandleStep(s, Do(s, step, false), step.id);
  }

  lemma SafeParts(s: System, id: Id)
    requires Inv(s) && id in s.handles
    ensures PhaseSafe(s, id, s.handles[id]) && LogIs(s.slots, s.handles[id]) && WonIs(s.slots, id, s.handles[id]) && Dense(s.slots)
  {
    assert HandleSafe(s, id);
  }

  /** A handle that gives up keeps what it has observed. */
  lemma IdleOwn(s: System, s': System, id: Id)
    requires Inv(s) && id in s.handles && s'.slots == s.slots
    requires id in s'.handles && s'.handles[id] == s.handles[id].(phase := Idle)
    ensures HandleSafe(s', id)
  {
    hide Inv, Logged, Holds;
    SafeParts(s, id);
  }

  lemma EmptyOwn(s: System, id: Id)
    requires Inv(s) && Enabled(s, ResolveEmpty(id))
    ensures HandleSafe(Do(s, ResolveEmpty(id), false), id)
  {
    hide Inv, Logged, Holds, NowhereBut;
    SafeParts(s, id);
    FlightEnds(s, id);
  }

  lemma FoundOwn(s: System, id: Id)
    requires Inv(s) && Enabled(s, ResolveFound(id))
    ensures HandleSafe(Do(s, ResolveFound(id), false), id)
  {
    hide Inv, Logged, Holds, NowhereBut, Dense;
    SafeParts(s, id);
    var h, b := s.handles[id], s.slots[s.handles[id].next];
    LogGrows(s.slots, h);
    if IsOurs(h.phase.batch, b) {
      WonMore(s.slots, id, h, b);
    } else {
      NotOurs(s, id, h.phase.batch, b);
      SameNowhere(s, Do(s, ResolveFound(id), false));
    }
  }

  lemma WonMore(slots: map<nat, Batch>, id: Id, h: Handle, b: Batch)
    requires h.next in slots && slots[h.next] == b && NameOf(b) == Name(id, h.batchID) && WonIs(slots, id, h)
    ensures Holds(slots, id, h.batchID, h.won[b.batchId := h.next])
  {
  }

  /** What was found is another batch, so the name sits nowhere at all. */
  lemma NotOurs(s: System, id: Id, ours: Batch, b: Batch)
    requires Inv(s) && id in s.handles && s.handles[id].phase == Unknown(ours)
    requires s.handles[id].next in s.slots && s.slots[s.handles[id].next] == b && !IsOurs(ours, b)
    ensures NowhereBut(s, NameOf(ours), -1)
  {
    assert HandleSafe(s, id);
    assert forall f :: Live(s, f) ==> f.slot !in s.slots;
  }

  /** The only flight with the batch's name is the one the empty read ends. */
  lemma FlightEnds(s: System, id: Id)
    requires Inv(s) && Enabled(s, ResolveEmpty(id))
    ensures NowhereBut(Do(s, ResolveEmpty(id), false), NameOf(s.handles[id].phase.batch), -1)
  {
    var h := s.handles[id];
    assert HandleSafe(s, id);
    forall f | Live(s, f) && NameOf(f.batch) == NameOf(h.phase.batch) ensures f == Flight(h.next, h.phase.batch) {
    }
  }

  lemma StepRead(s: System, step: Step)
    requires Inv(s) && Enabled(s, step)
    requires step.Poll? || step.CreateTaken? || step.CreateRefused? || step.ReadWinner? || step.ReadFails?
    ensures Inv(Do(s, step, false))
  {
    ReadOwn(s, step);
    hide Inv, HandleSafe;
    HandleStep(s, Do(s, step, false), step.id);
  }

  lemma ReadOwn(s: System, step: Step)
    requires Inv(s) && Enabled(s, step)
    requires step.Poll? || step.CreateTaken? || step.CreateRefused? || step.ReadWinner? || step.ReadFails?
    ensures HandleSafe(Do(s, step, false), step.id)
  {
    hide Inv, Logged, Holds, NowhereBut, Dense;
    SafeParts(s, step.id);
    if step.Poll? || step.ReadWinner? {
      LogGrows(s.slots, s.handles[step.id]);
    }
    SameNowhere(s, Do(s, step, false));
  }

  lemma SameNowhere(s: System, s': System)
    requires s'.slots == s.slots && s'.flights == s.flights
    ensures forall name, slot :: NowhereBut(s, name, slot) ==> NowhereBut(s', name, slot)
  {
    assert forall f :: Live(s', f) == Live(s, f);
  }

  /** One step of any handle, or of the store, keeps the invariant. */
  lemma InvNext(s: System, step: Step)
    requires Inv(s) && Enabled(s, step)
    ensures Inv(Do(s, step, false))
  {
    hide Inv, Do;
    match step
    case Open(id, from) => StepOpen(s, id, from);
    case Begin(id, records) => StepBegin(s, id, records);
    case CreateOk(id) => StepCreateOk(s, id);
    case CreateAmbiguous(id) => StepAmbiguous(s, id);
    case Land(f) => StepLand(s, f);
    case ResolveEmpty(_) => StepResolve(s, step);
    case ResolveFound(_) => StepResolve(s, step);
    case ResolveFails(_) => StepResolve(s, step);
    case Poll(_) => StepRead(s, step);
    case CreateTaken(_) => StepRead(s, step);
    case CreateRefused(_) => StepRead(s, step);
    case ReadWinner(_) => StepRead(s, step);
    case ReadFails(_) => StepRead(s, step);
  }

  // ----- whole runs -----

  ghost predicate Run(states: seq<System>, steps: seq<Step>, lateWrites: bool) {
    && |states| == |steps| + 1 && states[0] == EMPTY
    && forall i :: 0 <= i < |steps| ==> Enabled(states[i], steps[i]) && states[i + 1] == Do(states[i], steps[i], lateWrites)
  }

  lemma {:induction false} RunSafe(states: seq<System>, steps: seq<Step>, n: nat)
    requires Run(states, steps, false) && n < |states|
    ensures Inv(states[n])
  {
    hide Inv, Do, Enabled;
    if n == 0 {
      InvInit();
    } else {
      RunSafe(states, steps, n - 1);
      assert Enabled(states[n - 1], steps[n - 1]) && states[n] == Do(states[n - 1], steps[n - 1], false);
      InvNext(states[n - 1], steps[n - 1]);
    }
  }

  /** What is written stays written: slots never change and never go away. */
  ghost predicate Extends(slots: map<nat, Batch>, slots': map<nat, Batch>) {
    forall i :: i in slots ==> i in slots' && slots'[i] == slots[i]
  }

  lemma {:induction false} RunAppends(states: seq<System>, steps: seq<Step>, m: nat, n: nat)
    requires Run(states, steps, false) && m <= n < |states|
    ensures Extends(states[m].slots, states[n].slots)
    decreases n
  {
    if m < n {
      RunAppends(states, steps, m, n - 1);
      assert Enabled(states[n - 1], steps[n - 1]) && states[n] == Do(states[n - 1], steps[n - 1], false);
    }
  }

  /**
   * In any interleaving, the occupied slots are a gap-free prefix, no batch sits in two of them, and a handle has
   * observed exactly the slots from where it opened to where it stands, in order.
   */
  lemma ObservesTheChain(states: seq<System>, steps: seq<Step>, n: nat, id: Id)
    requires Run(states, steps, false) && n < |states| && id in states[n].handles
    ensures var slots := states[n].slots; var h := states[n].handles[id];
            && (forall i: nat :: i in slots <==> i < |slots|)
            && (forall i, j :: i in slots && j in slots && NameOf(slots[i]) == NameOf(slots[j]) ==> i == j)
            && h.from <= h.next <= |slots| && h.log == seq(h.next - h.from, i requires 0 <= i < h.next - h.from => slots[h.from + i])
  {
    RunSafe(states, steps, n);
    assert HandleSafe(states[n], id);
  }

  /**
   * Agreement over a whole run: at any two moments, two handles that opened at the same place have delivered the same
   * batches in the same order, as far as both have got.
   */
  lemma Agreement(states: seq<System>, steps: seq<Step>, m: nat, n: nat, a: Id, b: Id, i: nat)
    requires Run(states, steps, false) && m <= n < |states|
    requires a in states[m].handles && b in states[n].handles
    requires states[m].handles[a].from == states[n].handles[b].from
    requires i < |states[m].handles[a].log| && i < |states[n].handles[b].log|
    ensures states[m].handles[a].log[i] == states[n].handles[b].log[i]
  {
    RunSafe(states, steps, m);
    RunSafe(states, steps, n);
    RunAppends(states, steps, m, n);
    assert HandleSafe(states[m], a) && HandleSafe(states[n], b);
  }

  /** A successful Append returned the one slot that holds its batch, then and ever after. */
  lemma AppendedExactlyOnce(states: seq<System>, steps: seq<Step>, m: nat, n: nat, id: Id, batchId: u64, i: nat)
    requires Run(states, steps, false) && m <= n < |states|
    requires id in states[m].handles && batchId in states[m].handles[id].won
    requires i in states[n].slots
    ensures NameOf(states[n].slots[i]) == Name(id, batchId) <==> i == states[m].handles[id].won[batchId]
  {
    RunSafe(states, steps, m);
    RunSafe(states, steps, n);
    RunAppends(states, steps, m, n);
    assert HandleSafe(states[m], id);
  }

  // ----- why a late write must not be allowed -----

  const LONE := Id(1, 1)
  const FIRST := Batch(1, 1, 1, [])

  const LATE_STEPS := [Open(LONE, 0), Begin(LONE, []), CreateAmbiguous(LONE), ResolveEmpty(LONE),
                       Land(Flight(0, FIRST)), CreateTaken(LONE), ReadWinner(LONE), CreateOk(LONE)]

  /** The run of LATE_STEPS: the lone handle's own first copy lands after it has read the slot as empty. */
  function LateState(i: nat): System {
    var h0 := Handle(0, 0, 0, Idle, [], map[]);
    var h1 := Handle(0, 0, 1, Creating(FIRST), [], map[]);
    if i == 0 then EMPTY
    else if i == 1 then System(map[], {}, map[LONE := h0])
    else if i == 2 then System(map[], {}, map[LONE := h1])
    else if i == 3 then System(map[], {Flight(0, FIRST)}, map[LONE := h1.(phase := Unknown(FIRST))])
    else if i == 4 then System(map[], {Flight(0, FIRST)}, map[LONE := h1])
    else if i == 5 then System(map[0 := FIRST], {}, map[LONE := h1])
    else if i == 6 then System(map[0 := FIRST], {}, map[LONE := h1.(phase := Taken(FIRST))])
    else if i == 7 then System(map[0 := FIRST], {}, map[LONE := Handle(0, 1, 1, Creating(FIRST), [FIRST], map[])])
    else System(map[0 := FIRST, 1 := FIRST], {}, map[LONE := Handle(0, 2, 1, Idle, [FIRST, FIRST], map[1 := 1])])
  }

  lemma LateStepsBegin(i: nat)
    requires 0 <= i < 4
    ensures Enabled(LateState(i), LATE_STEPS[i])
    ensures Do(LateState(i), LATE_STEPS[i], true) == LateState(i + 1)
  {
    var s' := Do(LateState(i), LATE_STEPS[i], true);
    if i == 0 { assert s' == LateState(1); }
    if i == 1 { assert s' == LateState(2); }
    if i == 2 { assert s' == LateState(3); }
    if i == 3 { assert s' == LateState(4); }
  }

  lemma LateStepsEnd(i: nat)
    requires 4 <= i < 8
    ensures Enabled(LateState(i), LATE_STEPS[i])
    ensures Do(LateState(i), LATE_STEPS[i], true) == LateState(i + 1)
  {
    var s' := Do(LateState(i), LATE_STEPS[i], true);
    if i == 4 { assert s' == LateState(5); }
    if i == 5 { assert s' == LateState(6); }
    if i == 6 { assert s'.handles[LONE] == LateState(7).handles[LONE]; }
    if i == 7 { assert s'.handles[LONE] == LateState(8).handles[LONE]; }
  }

  /**
   * If a write may still land after its issuer has read the slot as empty, one batch can end up in two slots: the
   * retry finds its own first copy in the slot, takes it for a winner, and appends again behind it.
   */
  lemma LateWriteDuplicates() returns (states: seq<System>)
    ensures Run(states, LATE_STEPS, true)
    ensures !Once(states[|states| - 1].slots)
  {
    hide Do, Enabled, LateState;
    states := seq(9, (i: nat) => LateState(i));
    LateEnds();
    forall i | 0 <= i < 8
      ensures Enabled(states[i], LATE_STEPS[i]) && states[i + 1] == Do(states[i], LATE_STEPS[i], true)
    {
      if i < 4 { LateStepsBegin(i); } else { LateStepsEnd(i); }
    }
  }

  lemma LateEnds()
    ensures LateState(0) == EMPTY && !Once(LateState(8).slots)
  {
    var slots := LateState(8).slots;
    assert NameOf(slots[0]) == NameOf(slots[1]);
  }
}
