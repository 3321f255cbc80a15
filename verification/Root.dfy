/**
 * The root pointer of chain/root.go, in both discovery modes: one object replaced under its etag, or a dense sequence
 * of rootv objects. Any number of stores run Load and Advance; a write with an unknown outcome may take effect at any
 * later time, or several times over.
 */
module Root {
  import opened Bytes
  import opened Records

  datatype Root = Root(writer: u64, dbid: u64, createdMS: u64, p: u16, shardSize: u32, frozen: seq<byte>, ckptSeq: u64)

  /** What no later root may change. */
  ghost predicate SameDatabase(a: Root, b: Root) {
    a.dbid == b.dbid && a.createdMS == b.createdMS && a.p == b.p && a.shardSize == b.shardSize && a.frozen == b.frozen
  }

  ghost predicate Forward(a: Root, b: Root) {
    SameDatabase(a, b) && a.ckptSeq < b.ckptSeq
  }

  type Etag = nat

  /** What a write demands: the n-th root is not there yet, or the object still has this etag. */
  datatype Condition = Slot(n: nat) | Match(etag: Etag)

  datatype Phase =
    | Idle
    | Loading(target: u64)
    | Writing(target: u64, root: Root)
    | Returned(target: u64, root: Root)

  /** A store's fields, and where its Advance stands. */
  datatype Handle = Handle(writer: u64, etag: Etag, next: nat, cur: Option<Root>, phase: Phase)

  datatype Flight = Flight(condition: Condition, root: Root)

  /**
   * roots are the roots that have been current, oldest first. In seq mode they are the rootv objects; in cas mode the
   * last of them is the root object, and etags are those the object has had.
   */
  datatype World = World(seqMode: bool, roots: seq<Root>, etags: seq<Etag>, handles: map<nat, Handle>, flights: set<Flight>)

  datatype Action =
    | Connect(id: nat, writer: u64)
    | Create(id: nat, root: Root, etag: Etag)
    | CreateAmbiguous(id: nat, root: Root)
    | Begin(id: nat, target: u64)
    | Probe(id: nat)
    | Decide(id: nat)
    | WriteOk(id: nat, etag: Etag)
    | WriteRefused(id: nat)
    | WriteAmbiguous(id: nat)
    | Fail(id: nat)
    | Land(flight: Flight, etag: Etag)

  predicate Applies(w: World, c: Condition) {
    match c
    case Slot(n) => n == |w.roots|
    case Match(e) => 0 < |w.etags| && w.etags[|w.etags| - 1] == e
  }

  /** An etag may be a counter or a digest: all that is relied on is that one etag never names two contents. */
  predicate MayTag(w: World, root: Root, etag: Etag) {
    |w.etags| == |w.roots| && forall i :: 0 <= i < |w.etags| && w.etags[i] == etag ==> w.roots[i] == root
  }

  function Put(w: World, root: Root, etag: Etag): World {
    w.(roots := w.roots + [root], etags := w.etags + [etag])
  }

  function ConditionOf(w: World, h: Handle): Condition {
    if w.seqMode then Slot(h.next) else Match(h.etag)
  }

  /** Advance with the root it has loaded: either that root is far enough, or a successor is to be written. */
  function Decided(h: Handle, cur: Root): Handle
    requires h.phase.Loading?
  {
    if cur.ckptSeq >= h.phase.target then h.(phase := Returned(h.phase.target, cur))
    else h.(phase := Writing(h.phase.target, cur.(ckptSeq := h.phase.target, writer := h.writer)))
  }

  predicate Enabled(w: World, a: Action) {
    match a
    case Connect(id, _) => id !in w.handles
    case Create(id, root, etag) => id in w.handles && w.handles[id].phase.Idle? && w.roots == [] && MayTag(w, root, etag)
    case CreateAmbiguous(id, _) => id in w.handles && w.handles[id].phase.Idle?
    case Begin(id, _) => id in w.handles && (w.handles[id].phase.Idle? || w.handles[id].phase.Returned?)
    case Probe(id) => id in w.handles && w.handles[id].phase.Loading? && w.seqMode && w.handles[id].next < |w.roots|
    case Decide(id) =>
      && id in w.handles && w.handles[id].phase.Loading? && |w.etags| == |w.roots|
      && (if w.seqMode then w.handles[id].next >= |w.roots| && w.handles[id].cur.Some? else w.roots != [])
    case WriteOk(id, etag) =>
      && id in w.handles && w.handles[id].phase.Writing? && Applies(w, ConditionOf(w, w.handles[id]))
      && MayTag(w, w.handles[id].phase.root, etag)
    case WriteRefused(id) => id in w.handles && w.handles[id].phase.Writing? && !Applies(w, ConditionOf(w, w.handles[id]))
    case WriteAmbiguous(id) => id in w.handles && w.handles[id].phase.Writing?
    case Fail(id) => id in w.handles
    case Land(f, etag) => f in w.flights && (Applies(w, f.condition) ==> MayTag(w, f.root, etag))
  }

  function Act(w: World, a: Action): World
    requires Enabled(w, a)
  {
    match a
    case Connect(id, writer) => w.(handles := w.handles[id := Handle(writer, 0, 0, None, Idle)])
    case Create(id, root, etag) =>
      var h := w.handles[id];
      var r := root.(writer := h.writer);
      var h' := if w.seqMode then h.(cur := Some(r), next := 1) else h.(etag := etag);
      Put(w, r, etag).(handles := w.handles[id := h'])
    case CreateAmbiguous(id, root) =>
      w.(flights := w.flights + {Flight(Slot(0), root.(writer := w.handles[id].writer))})
    case Begin(id, target) => w.(handles := w.handles[id := w.handles[id].(phase := Loading(target))])
    case Probe(id) =>
      var h := w.handles[id];
      w.(handles := w.handles[id := h.(cur := Some(w.roots[h.next]), next := h.next + 1)])
    case Decide(id) =>
      var h := w.handles[id];
      var h' := if w.seqMode then Decided(h, h.cur.value)
                else Decided(h.(etag := w.etags[|w.etags| - 1]), w.roots[|w.roots| - 1]);
      w.(handles := w.handles[id := h'])
    case WriteOk(id, etag) =>
      var h := w.handles[id];
      var r := h.phase.root;
      var h' := if w.seqMode then h.(cur := Some(r), next := h.next + 1) else h.(etag := etag);
      Put(w, r, etag).(handles := w.handles[id := h'.(phase := Returned(h.phase.target, r))])
    case WriteRefused(id) =>
      w.(handles := w.handles[id := w.handles[id].(phase := Loading(w.handles[id].phase.target))])
    case WriteAmbiguous(id) =>
      var h := w.handles[id];
      w.(flights := w.flights + {Flight(ConditionOf(w, h), h.phase.root)},
         handles := w.handles[id := h.(phase := Loading(h.phase.target))])
    case Fail(id) => w.(handles := w.handles[id := w.handles[id].(phase := Idle)])
    case Land(f, etag) => if Applies(w, f.condition) then Put(w, f.root, etag) else w
  }

  // ----- the invariant -----

  /** A write in preparation or in flight moves on from the root its condition names. */
  ghost predicate MovesOn(w: World, c: Condition, root: Root)
    requires |w.etags| == |w.roots|
  {
    match c
    case Slot(n) => n <= |w.roots| && (n > 0 ==> Forward(w.roots[n - 1], root))
    case Match(e) => exists i :: 0 <= i < |w.roots| && w.etags[i] == e && Forward(w.roots[i], root)
  }

  ghost predicate HandleSafe(w: World, h: Handle)
    requires |w.etags| == |w.roots|
  {
    && (w.seqMode ==> h.next <= |w.roots| && h.cur == if h.next == 0 then None else Some(w.roots[h.next - 1]))
    && (h.phase.Writing? ==> h.phase.root.ckptSeq == h.phase.target && MovesOn(w, ConditionOf(w, h), h.phase.root))
    && (h.phase.Returned? ==> h.phase.root.ckptSeq >= h.phase.target && h.phase.root in w.roots)
  }

  ghost predicate Increasing(roots: seq<Root>) {
    forall i, j :: 0 <= i < j < |roots| ==> Forward(roots[i], roots[j])
  }

  ghost predicate Inv(w: World) {
    && |w.etags| == |w.roots| && Increasing(w.roots)
    && (forall i, j :: 0 <= i < |w.etags| && 0 <= j < |w.etags| && w.etags[i] == w.etags[j] ==> w.roots[i] == w.roots[j])
    && (forall id :: id in w.handles ==> HandleSafe(w, w.handles[id]))
    && (forall f :: f in w.flights ==> MovesOn(w, f.condition, f.root))
  }

  function Empty(seqMode: bool): World {
    World(seqMode, [], [], map[], {})
  }

  lemma PutKeepsHandle(w: World, root: Root, etag: Etag, h: Handle)
    requires |w.etags| == |w.roots| && HandleSafe(w, h)
    ensures HandleSafe(Put(w, root, etag), h)
  {
    if h.phase.Writing? {
      PutKeepsMove(w, root, etag, ConditionOf(w, h), h.phase.root);
    }
  }

  lemma PutKeepsMove(w: World, root: Root, etag: Etag, c: Condition, r: Root)
    requires |w.etags| == |w.roots| && MovesOn(w, c, r)
    ensures MovesOn(Put(w, root, etag), c, r)
  {
    if c.Match? {
      var i :| 0 <= i < |w.roots| && w.etags[i] == c.etag && Forward(w.roots[i], r);
      assert Put(w, root, etag).etags[i] == c.etag;
    }
  }

  /** A write whose condition still holds moves on from the current root, however late it takes effect. */
  lemma PutMovesOn(w: World, root: Root, etag: Etag, c: Condition)
    requires Inv(w) && MovesOn(w, c, root) && Applies(w, c) && MayTag(w, root, etag)
    ensures Inv(Put(w, root, etag))
  {
    var w' := Put(w, root, etag);
    if w.roots != [] {
      var last := w.roots[|w.roots| - 1];
      assert Forward(last, root);
      forall i | 0 <= i < |w.roots| ensures Forward(w.roots[i], root) {
        assert i < |w.roots| - 1 ==> Forward(w.roots[i], last);
      }
    }
    forall id | id in w'.handles ensures HandleSafe(w', w'.handles[id]) {
      PutKeepsHandle(w, root, etag, w.handles[id]);
    }
    forall f | f in w'.flights ensures MovesOn(w', f.condition, f.root) {
      PutKeepsMove(w, root, etag, f.condition, f.root);
    }
  }

  lemma HandleAct(w: World, w': World, id: nat, h: Handle)
    requires Inv(w) && w' == w.(handles := w.handles[id := h]) && HandleSafe(w', h)
    ensures Inv(w')
  {
    forall o | o in w'.handles ensures HandleSafe(w', w'.handles[o]) {
      assert o != id ==> HandleSafe(w, w.handles[o]);
    }
    forall f | f in w'.flights ensures MovesOn(w', f.condition, f.root) {
      assert MovesOn(w, f.condition, f.root);
    }
  }

  /** A handle that decides on the current root returns it, or prepares a write that moves on from it. */
  lemma DecidedSafe(w: World, h: Handle)
    requires |w.etags| == |w.roots| && w.roots != [] && HandleSafe(w, h) && h.phase.Loading?
    requires if w.seqMode then h.next == |w.roots| else h.etag == w.etags[|w.etags| - 1]
    ensures HandleSafe(w, Decided(h, w.roots[|w.roots| - 1]))
  {
    var n := |w.roots| - 1;
    var cur := w.roots[n];
    if cur.ckptSeq < h.phase.target {
      assert Forward(cur, cur.(ckptSeq := h.phase.target, writer := h.writer));
      hide Forward;
      assert w.etags[n] == w.etags[|w.etags| - 1];
    }
  }

  lemma TagSeen(w: World, h: Handle, etag: Etag)
    requires |w.etags| == |w.roots| && HandleSafe(w, h) && !w.seqMode && !h.phase.Writing?
    ensures HandleSafe(w, h.(etag := etag))
  {
    hide MovesOn;
  }

  lemma ActDecide(w: World, id: nat)
    requires Inv(w) && Enabled(w, Decide(id))
    ensures Inv(Act(w, Decide(id)))
  {
    hide Increasing, MovesOn, Forward;
    var w', h := Act(w, Decide(id)), w.handles[id];
    assert HandleSafe(w, h);
    if w.seqMode {
      DecidedSafe(w, h);
    } else {
      TagSeen(w, h, w.etags[|w.etags| - 1]);
      DecidedSafe(w, h.(etag := w.etags[|w.etags| - 1]));
    }
    SameElsewhere(w, w', w'.handles[id]);
    hide Inv, HandleSafe;
    HandleAct(w, w', id, w'.handles[id]);
  }

  lemma SameElsewhere(w: World, w': World, h: Handle)
    requires |w.etags| == |w.roots| && w'.etags == w.etags && w'.roots == w.roots && w'.seqMode == w.seqMode
    requires HandleSafe(w, h)
    ensures HandleSafe(w', h)
  {
  }

  /** The handle whose write went through holds the root it wrote. */
  lemma WroteSafe(w: World, p: World, id: nat, etag: Etag)
    requires id in w.handles && w.handles[id].phase.Writing? && |w.etags| == |w.roots| && HandleSafe(w, w.handles[id])
    requires w.seqMode ==> w.handles[id].next == |w.roots|
    requires p == Put(w, w.handles[id].phase.root, etag)
    ensures var h := w.handles[id];
            var h' := if w.seqMode then h.(cur := Some(h.phase.root), next := h.next + 1) else h.(etag := etag);
            HandleSafe(p, h'.(phase := Returned(h.phase.target, h.phase.root)))
  {
    hide MovesOn;
    assert p.roots[|w.roots|] == w.handles[id].phase.root;
  }

  lemma ActWrite(w: World, id: nat, etag: Etag)
    requires Inv(w) && Enabled(w, WriteOk(id, etag))
    ensures Inv(Act(w, WriteOk(id, etag)))
  {
    hide Increasing, Forward, MovesOn;
    var h := w.handles[id];
    assert HandleSafe(w, h);
    var p := Put(w, h.phase.root, etag);
    PutMovesOn(w, h.phase.root, etag, ConditionOf(w, h));
    WroteSafe(w, p, id, etag);
    hide Inv, HandleSafe;
    var w' := Act(w, WriteOk(id, etag));
    HandleAct(p, w', id, w'.handles[id]);
  }

  lemma ActCreate(w: World, id: nat, root: Root, etag: Etag)
    requires Inv(w) && Enabled(w, Create(id, root, etag))
    ensures Inv(Act(w, Create(id, root, etag)))
  {
    var h := w.handles[id];
    var r := root.(writer := h.writer);
    PutMovesOn(w, r, etag, Slot(0));
    var p := Put(w, r, etag);
    var w' := Act(w, Create(id, root, etag));
    HandleAct(p, w', id, w'.handles[id]);
  }

  /** One more write in flight. */
  lemma FlightAct(w: World, f: Flight)
    requires Inv(w) && MovesOn(w, f.condition, f.root)
    ensures Inv(w.(flights := w.flights + {f}))
  {
    hide Increasing, HandleSafe;
    var w' := w.(flights := w.flights + {f});
    forall o | o in w'.handles ensures HandleSafe(w', w'.handles[o]) {
      SameElsewhere(w, w', w.handles[o]);
    }
    forall g | g in w'.flights ensures MovesOn(w', g.condition, g.root) {
      assert g in w.flights ==> MovesOn(w, g.condition, g.root);
    }
  }

  lemma BackToLoading(w: World, w': World, h: Handle)
    requires |w.etags| == |w.roots| && w'.etags == w.etags && w'.roots == w.roots && w'.seqMode == w.seqMode
    requires HandleSafe(w, h) && h.phase.Writing?
    ensures HandleSafe(w', h.(phase := Loading(h.phase.target))) && MovesOn(w, ConditionOf(w, h), h.phase.root)
  {
    hide MovesOn;
  }

  lemma ActAmbiguous(w: World, a: Action)
    requires Inv(w) && Enabled(w, a) && (a.CreateAmbiguous? || a.WriteAmbiguous?)
    ensures Inv(Act(w, a))
  {
    hide Increasing, HandleSafe;
    var w', h := Act(w, a), w.handles[a.id];
    assert HandleSafe(w, h);
    if a.CreateAmbiguous? {
      FlightAct(w, Flight(Slot(0), a.root.(writer := h.writer)));
    } else {
      var f := Flight(ConditionOf(w, h), h.phase.root);
      BackToLoading(w, w', h);
      FlightAct(w, f);
      hide Inv;
      HandleAct(w.(flights := w.flights + {f}), w', a.id, w'.handles[a.id]);
    }
  }

  lemma ActHandle(w: World, a: Action)
    requires Inv(w) && Enabled(w, a) && (a.Connect? || a.Begin? || a.Probe? || a.WriteRefused? || a.Fail?)
    ensures Inv(Act(w, a))
  {
    hide Increasing;
    var w' := Act(w, a);
    if a.id in w.handles {
      assert HandleSafe(w, w.handles[a.id]);
    }
    HandleAct(w, w', a.id, w'.handles[a.id]);
  }

  lemma InvNext(w: World, a: Action)
    requires Inv(w) && Enabled(w, a)
    ensures Inv(Act(w, a))
  {
    if a.Create? {
      ActCreate(w, a.id, a.root, a.etag);
    } else if a.Decide? {
      ActDecide(w, a.id);
    } else if a.WriteOk? {
      ActWrite(w, a.id, a.etag);
    } else if a.Land? {
      if Applies(w, a.flight.condition) {
        PutMovesOn(w, a.flight.root, a.etag, a.flight.condition);
      }
    } else if a.CreateAmbiguous? || a.WriteAmbiguous? {
      ActAmbiguous(w, a);
    } else {
      ActHandle(w, a);
    }
  }

  // ----- whole runs -----

  ghost predicate Run(ws: seq<World>, actions: seq<Action>) {
    && |ws| == |actions| + 1 && ws[0] == Empty(ws[0].seqMode)
    && forall i :: 0 <= i < |actions| ==> Enabled(ws[i], actions[i]) && ws[i + 1] == Act(ws[i], actions[i])
  }

  lemma {:induction false} RunSafe(ws: seq<World>, actions: seq<Action>, n: nat)
    requires Run(ws, actions) && n < |ws|
    ensures Inv(ws[n])
  {
    hide Inv, Enabled, Act;
    if n == 0 {
      EmptySafe(ws[0].seqMode);
    } else {
      RunSafe(ws, actions, n - 1);
      assert Enabled(ws[n - 1], actions[n - 1]) && ws[n] == Act(ws[n - 1], actions[n - 1]);
      InvNext(ws[n - 1], actions[n - 1]);
    }
  }

  lemma EmptySafe(seqMode: bool)
    ensures Inv(Empty(seqMode))
  {
  }

  lemma {:induction false} RootsStay(ws: seq<World>, actions: seq<Action>, m: nat, n: nat)
    requires Run(ws, actions) && m <= n < |ws|
    ensures ws[m].roots <= ws[n].roots
    decreases n
  {
    if m < n {
      RootsStay(ws, actions, m, n - 1);
      assert Enabled(ws[n - 1], actions[n - 1]) && ws[n] == Act(ws[n - 1], actions[n - 1]);
    }
  }

  /**
   * Whatever lands, and however late: the current root's checkpoint never goes back, a new root always carries a later
   * one, and identity and frozen policy never change.
   */
  lemma RootOnlyMovesForward(ws: seq<World>, actions: seq<Action>, m: nat, n: nat)
    requires Run(ws, actions) && m <= n < |ws| && ws[m].roots != []
    ensures ws[n].roots != []
    ensures var a, b := ws[m].roots[|ws[m].roots| - 1], ws[n].roots[|ws[n].roots| - 1];
            SameDatabase(a, b) && a.ckptSeq <= b.ckptSeq && (a.ckptSeq == b.ckptSeq ==> a == b)
  {
    RootsStay(ws, actions, m, n);
    RunSafe(ws, actions, n);
    var i, j := |ws[m].roots| - 1, |ws[n].roots| - 1;
    assert ws[m].roots[i] == ws[n].roots[i];
    assert i < j ==> Forward(ws[n].roots[i], ws[n].roots[j]);
  }

  /** Advance returns a root at or past the sequence asked for, and from then on no current root is behind it. */
  lemma AdvanceReaches(ws: seq<World>, actions: seq<Action>, m: nat, n: nat, id: nat)
    requires Run(ws, actions) && m <= n < |ws| && id in ws[m].handles && ws[m].handles[id].phase.Returned?
    ensures var Returned(target, root) := ws[m].handles[id].phase;
            && target <= root.ckptSeq && ws[n].roots != []
            && SameDatabase(root, ws[n].roots[|ws[n].roots| - 1]) && root.ckptSeq <= ws[n].roots[|ws[n].roots| - 1].ckptSeq
  {
    RunSafe(ws, actions, m);
    assert HandleSafe(ws[m], ws[m].handles[id]);
    RootsStay(ws, actions, m, n);
    RunSafe(ws, actions, n);
    var root := ws[m].handles[id].phase.root;
    var i :| 0 <= i < |ws[m].roots| && ws[m].roots[i] == root;
    assert ws[n].roots[i] == root;
    var j := |ws[n].roots| - 1;
    assert i < j ==> Forward(ws[n].roots[i], ws[n].roots[j]);
  }

  /** The root an Advance returns by writing is the current root as it returns. */
  lemma AdvanceWritesCurrent(w: World, id: nat, etag: Etag)
    requires Inv(w) && Enabled(w, WriteOk(id, etag))
    ensures var w' := Act(w, WriteOk(id, etag));
            var Returned(target, root) := w'.handles[id].phase;
            root == w'.roots[|w'.roots| - 1] && root.ckptSeq == target && (w.roots != [] ==> w.roots[|w.roots| - 1].ckptSeq < target)
  {
    var h := w.handles[id];
    assert HandleSafe(w, h);
    if !w.seqMode {
      var i :| 0 <= i < |w.roots| && w.etags[i] == h.etag && Forward(w.roots[i], h.phase.root);
      assert w.roots[i] == w.roots[|w.roots| - 1];
    }
  }
}
