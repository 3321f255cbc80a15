/** What lands on the chain, chain/chain.go Append: the records each append was called with, and when it returns a slot. */
module ChainContents {
  import opened Bytes
  import opened Records
  import opened Chain

  /** The records a handle was asked to append, call by call. */
  function Asked(steps: seq<Step>, id: Id): (calls: seq<seq<Record>>)
    ensures |calls| <= |steps|
  {
    if steps == [] then []
    else
      var before, step := Asked(steps[..|steps| - 1], id), steps[|steps| - 1];
      if step.Begin? && step.id == id then before + [step.records] else before
  }

  lemma AskedMore(steps: seq<Step>, step: Step, id: Id)
    ensures Asked(steps + [step], id) == if step.Begin? && step.id == id then Asked(steps, id) + [step.records] else Asked(steps, id)
  {
    assert (steps + [step])[..|steps|] == steps;
  }

  lemma {:induction false} AskedGrows(steps: seq<Step>, m: nat, n: nat, id: Id)
    requires m <= n <= |steps|
    ensures Asked(steps[..m], id) <= Asked(steps[..n], id)
    decreases n
  {
    if m < n {
      AskedGrows(steps, m, n - 1, id);
      assert steps[..n] == steps[..n - 1] + [steps[n - 1]];
      AskedMore(steps[..n - 1], steps[n - 1], id);
    }
  }

  /** The batch is its handle's call of that number, records and all. */
  ghost predicate IsCall(steps: seq<Step>, b: Batch) {
    var calls := Asked(steps, Id(b.writer, b.incarnation));
    1 <= b.batchId <= |calls| && b.records == calls[b.batchId - 1]
  }

  lemma CallStays(steps: seq<Step>, step: Step, b: Batch)
    requires IsCall(steps, b)
    ensures IsCall(steps + [step], b)
  {
    AskedMore(steps, step, Id(b.writer, b.incarnation));
  }

  /** The batch a handle is appending, if it is. */
  function Current(p: Phase): Option<Batch> {
    if p.Idle? then None else Some(p.batch)
  }

  /** Every batch anywhere is a call of its handle, and a handle's counter is the number of its calls. */
  ghost predicate Carries(s: System, steps: seq<Step>) {
    && (forall id :: |Asked(steps, id)| == if id in s.handles then s.handles[id].batchID as nat else 0)
    && (forall i :: i in s.slots ==> IsCall(steps, s.slots[i]))
    && (forall f :: f in s.flights ==> IsCall(steps, f.batch))
    && (forall id :: id in s.handles && Current(s.handles[id].phase).Some? ==> IsCall(steps, Current(s.handles[id].phase).value))
  }

  /** A step that begins nothing: no new batch, no counter moves. */
  lemma NothingNew(s: System, s': System, steps: seq<Step>, step: Step)
    requires Carries(s, steps) && !step.Begin?
    requires forall i :: i in s'.slots ==> IsCall(steps, s'.slots[i])
    requires forall f :: f in s'.flights ==> IsCall(steps, f.batch)
    requires forall id :: id in s.handles ==> id in s'.handles && s'.handles[id].batchID == s.handles[id].batchID
    requires forall id :: id in s'.handles && id !in s.handles ==> s'.handles[id].batchID == 0
    requires forall id :: id in s'.handles && Current(s'.handles[id].phase).Some? ==>
               IsCall(steps, Current(s'.handles[id].phase).value)
    ensures Carries(s', steps + [step])
  {
    hide IsCall;
    var more := steps + [step];
    forall id ensures Asked(more, id) == Asked(steps, id) {
      AskedMore(steps, step, id);
    }
    forall i | i in s'.slots ensures IsCall(more, s'.slots[i]) {
      CallStays(steps, step, s'.slots[i]);
    }
    forall f | f in s'.flights ensures IsCall(more, f.batch) {
      CallStays(steps, step, f.batch);
    }
    forall id | id in s'.handles && Current(s'.handles[id].phase).Some? ensures IsCall(more, Current(s'.handles[id].phase).value) {
      CallStays(steps, step, Current(s'.handles[id].phase).value);
    }
  }

  lemma BeginCarries(s: System, steps: seq<Step>, id: Id, records: seq<Record>, lateWrites: bool)
    requires Carries(s, steps) && Enabled(s, Begin(id, records))
    ensures Carries(Do(s, Begin(id, records), lateWrites), steps + [Begin(id, records)])
  {
    var step, s' := Begin(id, records), Do(s, Begin(id, records), lateWrites);
    var more := steps + [step];
    forall other ensures |Asked(more, other)| == if other in s'.handles then s'.handles[other].batchID as nat else 0 {
      AskedMore(steps, step, other);
    }
    AskedMore(steps, step, id);
    assert IsCall(more, s'.handles[id].phase.batch);
    forall i | i in s'.slots ensures IsCall(more, s'.slots[i]) {
      CallStays(steps, step, s.slots[i]);
    }
    forall f | f in s'.flights ensures IsCall(more, f.batch) {
      CallStays(steps, step, f.batch);
    }
    forall other | other in s'.handles && other != id && Current(s'.handles[other].phase).Some?
      ensures IsCall(more, Current(s'.handles[other].phase).value)
    {
      CallStays(steps, step, Current(s.handles[other].phase).value);
    }
  }

  lemma StepCarries(s: System, steps: seq<Step>, step: Step, lateWrites: bool)
    requires Carries(s, steps) && Enabled(s, step)
    ensures Carries(Do(s, step, lateWrites), steps + [step])
  {
    hide IsCall, Carries;
    if step.Begin? {
      BeginCarries(s, steps, step.id, step.records, lateWrites);
    } else if step.CreateOk? || step.CreateAmbiguous? || step.Land? {
      WriteCarries(s, steps, step, lateWrites);
    } else {
      ReadCarries(s, steps, step, lateWrites);
    }
  }

  /** A create that went through, is in flight or lands puts a batch there that was on its way already. */
  lemma WriteCarries(s: System, steps: seq<Step>, step: Step, lateWrites: bool)
    requires Carries(s, steps) && Enabled(s, step) && (step.CreateOk? || step.CreateAmbiguous? || step.Land?)
    ensures Carries(Do(s, step, lateWrites), steps + [step])
  {
    hide IsCall, Asked;
    NothingNew(s, Do(s, step, lateWrites), steps, step);
  }

  lemma ReadCarries(s: System, steps: seq<Step>, step: Step, lateWrites: bool)
    requires Carries(s, steps) && Enabled(s, step)
    requires !step.Begin? && !step.CreateOk? && !step.CreateAmbiguous? && !step.Land?
    ensures Carries(Do(s, step, lateWrites), steps + [step])
  {
    ReadKeeps(s, step, lateWrites);
    hide IsCall, Asked, Do, Enabled;
    NothingNew(s, Do(s, step, lateWrites), steps, step);
  }

  /** The other steps write nothing, and a handle that moves keeps its batch or drops it. */
  lemma ReadKeeps(s: System, step: Step, lateWrites: bool)
    requires Enabled(s, step) && !step.Begin? && !step.CreateOk? && !step.CreateAmbiguous? && !step.Land?
    ensures var s' := Do(s, step, lateWrites);
            && s'.slots == s.slots && s'.flights <= s.flights
            && (forall id :: id in s.handles ==> id in s'.handles && s'.handles[id].batchID == s.handles[id].batchID)
            && (forall id :: id in s'.handles && id !in s.handles ==> s'.handles[id].batchID == 0 && s'.handles[id].phase == Idle)
            && (forall id :: id in s.handles ==>
                  s'.handles[id].phase == Idle || Current(s'.handles[id].phase) == Current(s.handles[id].phase))
  {
  }

  lemma {:induction false} RunCarries(states: seq<System>, steps: seq<Step>, lateWrites: bool, n: nat)
    requires Run(states, steps, lateWrites) && n < |states|
    ensures Carries(states[n], steps[..n])
  {
    hide Do, Enabled, IsCall;
    if n == 0 {
      assert steps[..0] == [];
    } else {
      RunCarries(states, steps, lateWrites, n - 1);
      assert Enabled(states[n - 1], steps[n - 1]) && states[n] == Do(states[n - 1], steps[n - 1], lateWrites);
      StepCarries(states[n - 1], steps[..n - 1], steps[n - 1], lateWrites);
      assert steps[..n] == steps[..n - 1] + [steps[n - 1]];
    }
  }

  /**
   * In any interleaving, late writes included, every occupied slot holds exactly the records that some handle was asked to
   * append, in the call that the batch's number says.
   */
  lemma SlotsHoldCalls(states: seq<System>, steps: seq<Step>, lateWrites: bool, n: nat, i: nat)
    requires Run(states, steps, lateWrites) && n < |states| && i in states[n].slots
    ensures var b := states[n].slots[i];
            var calls := Asked(steps[..n], Id(b.writer, b.incarnation));
            1 <= b.batchId <= |calls| && b.records == calls[b.batchId - 1]
  {
    RunCarries(states, steps, lateWrites, n);
  }

  /**
   * An append that returned a slot landed there, then and ever after, and nowhere else: with its handle's name and
   * number, and with exactly the records it was called with.
   */
  lemma AppendLands(states: seq<System>, steps: seq<Step>, m: nat, n: nat, id: Id, batchId: u64)
    requires Run(states, steps, false) && m <= n < |states|
    requires id in states[m].handles && batchId in states[m].handles[id].won
    ensures var slot, calls, slots := states[m].handles[id].won[batchId], Asked(steps[..m], id), states[n].slots;
            && slot in slots && 1 <= batchId <= |calls|
            && slots[slot] == Batch(id.writer, id.incarnation, batchId, calls[batchId - 1])
            && forall i :: i in slots && NameOf(slots[i]) == Name(id, batchId) ==> i == slot
  {
    hide Do, Enabled;
    RunSafe(states, steps, m);
    RunAppends(states, steps, m, n);
    assert HandleSafe(states[m], id);
    var slot := states[m].handles[id].won[batchId];
    SlotsHoldCalls(states, steps, false, m, slot);
    forall i | i in states[n].slots && NameOf(states[n].slots[i]) == Name(id, batchId) ensures i == slot {
      AppendedExactlyOnce(states, steps, m, n, id, batchId, i);
    }
  }

  // ----- when an append returns its slot -----

  /** The handle is told, for certain, that its batch of that number is in the slot where it stands. */
  ghost predicate Told(s: System, step: Step, id: Id, batchId: u64) {
    && id in s.handles && s.handles[id].batchID == batchId
    && (|| step == CreateOk(id)
        || (step == ResolveFound(id) && s.handles[id].next in s.slots && NameOf(s.slots[s.handles[id].next]) == Name(id, batchId)))
  }

  lemma WonStep(s: System, step: Step, id: Id)
    requires Inv(s) && Enabled(s, step) && id in Do(s, step, false).handles
    ensures var s' := Do(s, step, false);
            var won := if id in s.handles then s.handles[id].won else map[];
            && (id in s.handles && Told(s, step, id, s.handles[id].batchID)
                ==> s'.handles[id].won == won[s.handles[id].batchID := s.handles[id].next])
            && (!(id in s.handles && Told(s, step, id, s.handles[id].batchID)) ==> s'.handles[id].won == won)
  {
    hide Dense, Once, Owned, FlightsSafe, Logged, Holds, NowhereBut;
    assert HandleSafe(s, id);
  }

  /** Told twice of one number, a handle stands at the same slot both times. */
  lemma ToldOnce(s: System, step: Step, id: Id, batchId: u64)
    requires Inv(s) && Enabled(s, step) && Told(s, step, id, batchId) && batchId in s.handles[id].won
    ensures s.handles[id].won[batchId] == s.handles[id].next
  {
    hide Dense, Owned, FlightsSafe, Logged;
    assert HandleSafe(s, id);
  }

  /**
   * An append returns a slot exactly when its create went through, or the read behind an unknown outcome found its own
   * batch; and the slot is the one it stood at.
   */
  lemma {:induction false} ReturnedIff(states: seq<System>, steps: seq<Step>, n: nat, id: Id, batchId: u64)
    requires Run(states, steps, false) && n < |states| && id in states[n].handles
    ensures batchId in states[n].handles[id].won <==> exists k :: 0 <= k < n && Told(states[k], steps[k], id, batchId)
    ensures forall k :: 0 <= k < n && Told(states[k], steps[k], id, batchId) ==>
              batchId in states[n].handles[id].won && states[n].handles[id].won[batchId] == states[k].handles[id].next
  {
    hide Do, Enabled, Inv, Told;
    if n > 0 {
      var s, step := states[n - 1], steps[n - 1];
      RunSafe(states, steps, n - 1);
      assert Enabled(s, step) && states[n] == Do(s, step, false);
      WonStep(s, step, id);
      if id in s.handles {
        ReturnedIff(states, steps, n - 1, id, batchId);
        ToldNow(s, step, id, batchId);
      } else {
        NotYetTold(states, steps, n, id, batchId);
      }
    } else {
      NobodyOpen(id);
    }
  }

  lemma NobodyOpen(id: Id)
    ensures id !in EMPTY.handles
  {
  }

  lemma ToldNow(s: System, step: Step, id: Id, batchId: u64)
    requires Inv(s) && Enabled(s, step) && id in s.handles
    ensures Told(s, step, id, batchId) ==> s.handles[id].batchID == batchId
    ensures Told(s, step, id, batchId) && batchId in s.handles[id].won ==> s.handles[id].won[batchId] == s.handles[id].next
  {
    hide Inv, Enabled;
    if Told(s, step, id, batchId) && batchId in s.handles[id].won {
      ToldOnce(s, step, id, batchId);
    }
  }

  /** Handles stay on record, so one that is not there yet never was. */
  lemma {:induction false} NotYetTold(states: seq<System>, steps: seq<Step>, n: nat, id: Id, batchId: u64)
    requires Run(states, steps, false) && 0 < n < |states| && id !in states[n - 1].handles
    ensures forall k :: 0 <= k < n ==> !Told(states[k], steps[k], id, batchId)
  {
    if n > 1 {
      assert Enabled(states[n - 2], steps[n - 2]) && states[n - 1] == Do(states[n - 2], steps[n - 2], false);
      assert id !in states[n - 2].handles;
      NotYetTold(states, steps, n - 1, id, batchId);
    }
  }

  // ----- an append that runs alone -----

  /** A stretch of a run, from any state, in which only the handle moves. */
  ghost predicate Alone(states: seq<System>, steps: seq<Step>, id: Id) {
    && |states| == |steps| + 1
    && forall i :: 0 <= i < |steps| ==>
         !steps[i].Land? && steps[i].id == id && Enabled(states[i], steps[i]) && states[i + 1] == Do(states[i], steps[i], false)
  }

  lemma AloneMore(s: System, step: Step, id: Id, states: seq<System>, steps: seq<Step>)
    requires !step.Land? && step.id == id && Enabled(s, step) && Alone(states, steps, id) && states[0] == Do(s, step, false)
    ensures Alone([s] + states, [step] + steps, id)
  {
    hide Do, Enabled;
  }

  /** The batch is in the first free slot, the handle knows so, has observed it, and is done. */
  ghost predicate Landed(s: System, s': System, id: Id, b: Batch) {
    && id in s'.handles && s'.slots == s.slots[|s.slots| := b]
    && var h := s'.handles[id]; h.phase == Idle && h.next == |s.slots| + 1 && b.batchId in h.won && h.won[b.batchId] == |s.slots|
  }

  /** About to create: it observes the winners it has not seen, one by one, and takes the first free slot. */
  lemma {:induction false} CreateAlone(s: System, id: Id) returns (states: seq<System>, steps: seq<Step>)
    requires Inv(s) && id in s.handles && s.handles[id].phase.Creating?
    ensures Alone(states, steps, id) && states[0] == s
    ensures Landed(s, states[|states| - 1], id, s.handles[id].phase.batch)
    decreases |s.slots| - s.handles[id].next
  {
    var h := s.handles[id];
    WithinSlots(s, id);
    if h.next < |s.slots| {
      var taken := Do(s, CreateTaken(id), false);
      InvNext(s, CreateTaken(id));
      var read := Do(taken, ReadWinner(id), false);
      InvNext(taken, ReadWinner(id));
      states, steps := CreateAlone(read, id);
      hide Inv;
      AloneMore(taken, ReadWinner(id), id, states, steps);
      AloneMore(s, CreateTaken(id), id, [taken] + states, [ReadWinner(id)] + steps);
      states, steps := [s] + ([taken] + states), [CreateTaken(id)] + ([ReadWinner(id)] + steps);
    } else {
      states, steps := [s, Do(s, CreateOk(id), false)], [CreateOk(id)];
    }
  }

  lemma WithinSlots(s: System, id: Id)
    requires Inv(s) && id in s.handles
    ensures s.handles[id].next <= |s.slots| && (s.handles[id].next in s.slots <==> s.handles[id].next < |s.slots|)
  {
    assert HandleSafe(s, id);
  }

  /**
   * Append on any reachable state, when nobody else moves: whatever the handle has missed, its records land in the first
   * free slot, and it returns that slot.
   */
  lemma AppendAlone(s: System, id: Id, records: seq<Record>) returns (states: seq<System>, steps: seq<Step>)
    requires Inv(s) && id in s.handles && s.handles[id].phase.Idle? && s.handles[id].batchID < LAST_BATCH
    ensures Alone(states, steps, id) && states[0] == s && steps != [] && steps[0] == Begin(id, records)
    ensures Landed(s, states[|states| - 1], id, Batch(id.writer, id.incarnation, s.handles[id].batchID + 1, records))
  {
    var begun := Do(s, Begin(id, records), false);
    InvNext(s, Begin(id, records));
    states, steps := CreateAlone(begun, id);
    AloneMore(s, Begin(id, records), id, states, steps);
    states, steps := [s] + states, [Begin(id, records)] + steps;
  }

  /**
   * Resolving alone: an append that does not know its outcome finds out. Either its batch sits where it stands, and that
   * slot is returned, or it is not there, and it lands in the first free slot.
   */
  lemma ResolveAlone(s: System, id: Id) returns (states: seq<System>, steps: seq<Step>)
    requires Inv(s) && id in s.handles && s.handles[id].phase.Unknown?
    ensures Alone(states, steps, id) && states[0] == s
    ensures var h, s' := s.handles[id], states[|states| - 1];
            if h.next in s.slots && NameOf(s.slots[h.next]) == NameOf(h.phase.batch)
            then s'.slots == s.slots && id in s'.handles && s'.handles[id].phase == Idle
                 && h.batchID in s'.handles[id].won && s'.handles[id].won[h.batchID] == h.next
            else Landed(s, s', id, h.phase.batch)
  {
    var h := s.handles[id];
    if h.next in s.slots && NameOf(s.slots[h.next]) == NameOf(h.phase.batch) {
      FoundItself(s, id);
      states, steps := [s, Do(s, ResolveFound(id), false)], [ResolveFound(id)];
    } else {
      var step := if h.next in s.slots then ResolveFound(id) else ResolveEmpty(id);
      NotFound(s, id, step);
      InvNext(s, step);
      hide Do, Inv, Enabled;
      states, steps := CreateAlone(Do(s, step, false), id);
      AloneMore(s, step, id, states, steps);
      states, steps := [s] + states, [step] + steps;
    }
  }

  lemma FoundItself(s: System, id: Id)
    requires Inv(s) && id in s.handles && s.handles[id].phase.Unknown? && s.handles[id].next in s.slots
    requires NameOf(s.slots[s.handles[id].next]) == NameOf(s.handles[id].phase.batch)
    ensures Enabled(s, ResolveFound(id))
    ensures var h, s' := s.handles[id], Do(s, ResolveFound(id), false);
            && s'.slots == s.slots && id in s'.handles && s'.handles[id].phase == Idle
            && h.batchID in s'.handles[id].won && s'.handles[id].won[h.batchID] == h.next
  {
    hide Dense, Once, Owned, FlightsSafe, Logged, Holds, NowhereBut;
    assert HandleSafe(s, id);
  }

  lemma NotFound(s: System, id: Id, step: Step)
    requires id in s.handles && s.handles[id].phase.Unknown?
    requires step == if s.handles[id].next in s.slots then ResolveFound(id) else ResolveEmpty(id)
    requires s.handles[id].next in s.slots ==> NameOf(s.slots[s.handles[id].next]) != NameOf(s.handles[id].phase.batch)
    ensures Enabled(s, step)
    ensures var s' := Do(s, step, false);
            s'.slots == s.slots && id in s'.handles && s'.handles[id].phase == Creating(s.handles[id].phase.batch)
  {
  }

  /** The handle has observed every occupied slot, in order, and is where it would append. */
  ghost predicate CaughtUp(s: System, s': System, id: Id)
    requires id in s.handles
  {
    && s'.slots == s.slots && s'.flights == s.flights && id in s'.handles
    && var h, h' := s.handles[id], s'.handles[id];
       && h'.phase == Idle && h'.next == |s.slots| && h'.batchID == h.batchID && h'.won == h.won
       && h.next <= |s.slots| && |h'.log| == |h.log| + |s.slots| - h.next && h'.log[..|h.log|] == h.log
       && forall i :: h.next <= i < |s.slots| ==> i in s.slots && h'.log[|h.log| + i - h.next] == s.slots[i]
  }

  lemma PollOne(s: System, id: Id)
    requires Inv(s) && id in s.handles && s.handles[id].phase.Idle? && s.handles[id].next < |s.slots|
    ensures Enabled(s, Poll(id)) && Inv(Do(s, Poll(id), false))
    ensures var s', h := Do(s, Poll(id), false), s.handles[id];
            && s'.slots == s.slots && s'.flights == s.flights && h.next in s.slots
            && id in s'.handles && s'.handles[id] == h.(next := h.next + 1, log := h.log + [s.slots[h.next]])
  {
    WithinSlots(s, id);
    InvNext(s, Poll(id));
    hide Inv;
  }

  lemma CatchesUp(s: System, s1: System, s': System, id: Id)
    requires id in s.handles && s.handles[id].phase.Idle? && s.handles[id].next in s.slots && s.handles[id].next < |s.slots|
    requires s1.slots == s.slots && s1.flights == s.flights && id in s1.handles
    requires var h := s.handles[id]; s1.handles[id] == h.(next := h.next + 1, log := h.log + [s.slots[h.next]])
    requires CaughtUp(s1, s', id)
    ensures CaughtUp(s, s', id)
  {
    var h, h1, h' := s.handles[id], s1.handles[id], s'.handles[id];
    assert h'.log[..|h1.log|] == h1.log && h'.log[..|h.log|] == h1.log[..|h.log|] == h.log;
    assert h'.log[|h.log|] == h'.log[..|h1.log|][|h.log|];
    forall i | h.next <= i < |s.slots| ensures i in s.slots && h'.log[|h.log| + i - h.next] == s.slots[i] {
      if i > h.next {
        assert i in s1.slots && h'.log[|h1.log| + i - h1.next] == s1.slots[i];
      }
    }
  }

  /** Poll on any reachable state, when nobody else moves: it observes everything up to the first free slot, and stops there. */
  lemma {:induction false} PollAlone(s: System, id: Id) returns (states: seq<System>, steps: seq<Step>)
    requires Inv(s) && id in s.handles && s.handles[id].phase.Idle?
    ensures Alone(states, steps, id) && states[0] == s && forall i :: 0 <= i < |steps| ==> steps[i] == Poll(id)
    ensures CaughtUp(s, states[|states| - 1], id) && !Enabled(states[|states| - 1], Poll(id))
    decreases |s.slots| - s.handles[id].next
  {
    WithinSlots(s, id);
    if s.handles[id].next < |s.slots| {
      PollOne(s, id);
      var s1 := Do(s, Poll(id), false);
      hide Do, Enabled, Inv, CaughtUp;
      var states1, steps1 := PollAlone(s1, id);
      AloneMore(s, Poll(id), id, states1, steps1);
      states, steps := [s] + states1, [Poll(id)] + steps1;
      CatchesUp(s, s1, states1[|states1| - 1], id);
    } else {
      states, steps := [s], [];
    }
  }

  /** An append that gives up tells its handle nothing, lands nothing and takes nothing back; the handle may append again. */
  lemma GivesUp(s: System, step: Step)
    requires Enabled(s, step) && (step.CreateRefused? || step.ReadFails? || step.ResolveFails?)
    ensures var s', h := Do(s, step, false), s.handles[step.id];
            && s'.slots == s.slots && s'.flights == s.flights && s'.handles.Keys == s.handles.Keys
            && (forall id :: id in s.handles && id != step.id ==> s'.handles[id] == s.handles[id])
            && s'.handles[step.id] == Handle(h.from, h.next, h.batchID, Idle, h.log, h.won)
  {
  }
}
