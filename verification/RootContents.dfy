/** Whose root is current, chain/root.go: what Create and Advance write into the root, and that an Advance running alone ends. */
module RootContents {
  import opened Bytes
  import opened Root

  /** The writer a store was opened for. */
  function Writer(actions: seq<Action>, id: nat): Option<u64> {
    if actions == [] then None
    else
      var a := actions[|actions| - 1];
      if a.Connect? && a.id == id then Some(a.writer) else Writer(actions[..|actions| - 1], id)
  }

  /** The sequence number its last Advance was called with. */
  function Target(actions: seq<Action>, id: nat): Option<u64> {
    if actions == [] then None
    else
      var a := actions[|actions| - 1];
      if a.Begin? && a.id == id then Some(a.target) else Target(actions[..|actions| - 1], id)
  }

  /**
   * Action k sent this root off: a Create, of the caller's root under the store's writer; or the write of an Advance, to the
   * number it was called with, under the store's writer.
   */
  ghost predicate Sent(actions: seq<Action>, k: nat, root: Root)
    requires k < |actions|
  {
    match actions[k]
    case Create(id, r, _) => Writer(actions[..k], id) == Some(root.writer) && root == r.(writer := root.writer)
    case CreateAmbiguous(id, r) => Writer(actions[..k], id) == Some(root.writer) && root == r.(writer := root.writer)
    case WriteOk(id, _) => Writer(actions[..k], id) == Some(root.writer) && Target(actions[..k], id) == Some(root.ckptSeq)
    case WriteAmbiguous(id) => Writer(actions[..k], id) == Some(root.writer) && Target(actions[..k], id) == Some(root.ckptSeq)
    case _ => false
  }

  ghost predicate SentBySome(actions: seq<Action>, root: Root) {
    exists k: nat :: k < |actions| && Sent(actions, k, root)
  }

  lemma StillSent(actions: seq<Action>, a: Action, root: Root)
    requires SentBySome(actions, root)
    ensures SentBySome(actions + [a], root)
  {
    var k: nat :| k < |actions| && Sent(actions, k, root);
    SentLater(actions, a, k, root);
  }

  lemma SentLater(actions: seq<Action>, a: Action, k: nat, root: Root)
    requires k < |actions| && Sent(actions, k, root)
    ensures Sent(actions + [a], k, root)
  {
    assert (actions + [a])[..k] == actions[..k];
  }

  /** What one more action says of a store. */
  lemma OneMore(actions: seq<Action>, a: Action, id: nat)
    ensures Writer(actions + [a], id) == if a.Connect? && a.id == id then Some(a.writer) else Writer(actions, id)
    ensures Target(actions + [a], id) == if a.Begin? && a.id == id then Some(a.target) else Target(actions, id)
  {
    assert (actions + [a])[..|actions|] == actions;
  }

  /** A store carries its own writer, and the number it was asked for; a root it is about to write carries both. */
  ghost predicate Knows(actions: seq<Action>, id: nat, h: Handle) {
    && Writer(actions, id) == Some(h.writer)
    && (!h.phase.Idle? ==> Target(actions, id) == Some(h.phase.target))
    && (h.phase.Writing? ==> h.phase.root.writer == h.writer && h.phase.root.ckptSeq == h.phase.target)
  }

  ghost predicate Carries(w: World, actions: seq<Action>) {
    && (forall id :: id in w.handles ==> Knows(actions, id, w.handles[id]))
    && (forall i :: 0 <= i < |w.roots| ==> SentBySome(actions, w.roots[i]))
    && (forall f :: f in w.flights ==> SentBySome(actions, f.root))
  }

  lemma CarriesMore(w: World, w': World, actions: seq<Action>, a: Action)
    requires forall id :: id in w'.handles ==> Knows(actions + [a], id, w'.handles[id])
    requires forall i :: 0 <= i < |w'.roots| ==> SentBySome(actions, w'.roots[i]) || SentBySome(actions + [a], w'.roots[i])
    requires forall f :: f in w'.flights ==> SentBySome(actions, f.root) || SentBySome(actions + [a], f.root)
    ensures Carries(w', actions + [a])
  {
    hide Knows, SentBySome;
    forall i | 0 <= i < |w'.roots| ensures SentBySome(actions + [a], w'.roots[i]) {
      if SentBySome(actions, w'.roots[i]) {
        StillSent(actions, a, w'.roots[i]);
      }
    }
    forall f | f in w'.flights ensures SentBySome(actions + [a], f.root) {
      if SentBySome(actions, f.root) {
        StillSent(actions, a, f.root);
      }
    }
  }

  lemma HandlesKnow(w: World, actions: seq<Action>, a: Action)
    requires Carries(w, actions) && Enabled(w, a)
    ensures forall id :: id in Act(w, a).handles ==> Knows(actions + [a], id, Act(w, a).handles[id])
  {
    hide SentBySome, Applies, MayTag, Writer, Target;
    forall id | id in Act(w, a).handles ensures Knows(actions + [a], id, Act(w, a).handles[id]) {
      OneMore(actions, a, id);
      assert id in w.handles ==> Knows(actions, id, w.handles[id]);
    }
  }

  /** What an action writes, or sends off, it has sent itself; what lands was sent before. */
  lemma SendsItself(w: World, actions: seq<Action>, a: Action)
    requires Carries(w, actions) && Enabled(w, a)
    ensures a.Create? ==> SentBySome(actions + [a], a.root.(writer := w.handles[a.id].writer))
    ensures a.CreateAmbiguous? ==> SentBySome(actions + [a], a.root.(writer := w.handles[a.id].writer))
    ensures a.WriteOk? || a.WriteAmbiguous? ==> SentBySome(actions + [a], w.handles[a.id].phase.root)
  {
    hide Applies, MayTag, Writer, Target;
    var more := actions + [a];
    assert more[..|actions|] == actions && more[|actions|] == a;
    if a.Create? || a.CreateAmbiguous? || a.WriteOk? || a.WriteAmbiguous? {
      assert Knows(actions, a.id, w.handles[a.id]);
      var h := w.handles[a.id];
      var root := if a.Create? || a.CreateAmbiguous? then a.root.(writer := h.writer) else h.phase.root;
      assert Sent(more, |actions|, root);
    }
  }

  lemma ActCarries(w: World, actions: seq<Action>, a: Action)
    requires Carries(w, actions) && Enabled(w, a)
    ensures Carries(Act(w, a), actions + [a])
  {
    HandlesKnow(w, actions, a);
    SendsItself(w, actions, a);
    hide Knows, SentBySome, Applies, MayTag;
    CarriesMore(w, Act(w, a), actions, a);
  }

  lemma {:induction false} RunCarries(ws: seq<World>, actions: seq<Action>, n: nat)
    requires Run(ws, actions) && n < |ws|
    ensures Carries(ws[n], actions[..n])
  {
    hide Act, Enabled, Knows, SentBySome;
    if n == 0 {
      assert actions[..0] == [];
    } else {
      RunCarries(ws, actions, n - 1);
      assert Enabled(ws[n - 1], actions[n - 1]) && ws[n] == Act(ws[n - 1], actions[n - 1]);
      ActCarries(ws[n - 1], actions[..n - 1], actions[n - 1]);
      assert actions[..n] == actions[..n - 1] + [actions[n - 1]];
    }
  }

  /**
   * In both modes, and however late a write lands: every root that has ever been current was sent off by a Create or an
   * Advance, and carries the writer of the store that sent it, and for an Advance the number it was called with.
   */
  lemma RootsNameTheirWriters(ws: seq<World>, actions: seq<Action>, n: nat, i: nat) returns (k: nat)
    requires Run(ws, actions) && n < |ws| && i < |ws[n].roots|
    ensures k < n && Sent(actions, k, ws[n].roots[i])
  {
    RunCarries(ws, actions, n);
    assert SentBySome(actions[..n], ws[n].roots[i]);
    k :| k < n && Sent(actions[..n], k, ws[n].roots[i]);
    assert actions[..n][..k] == actions[..k];
  }

  /** The root an Advance returns by writing is its store's own. */
  lemma WriteIsOwn(ws: seq<World>, actions: seq<Action>, n: nat, id: nat, etag: Etag)
    requires Run(ws, actions) && n + 1 < |ws| && actions[n] == WriteOk(id, etag)
    ensures var w, w' := ws[n], ws[n + 1];
            && id in w.handles && w'.roots != [] && w'.roots[|w'.roots| - 1].writer == w.handles[id].writer
            && Writer(actions[..n], id) == Some(w.handles[id].writer)
            && w'.handles[id].phase == Returned(w.handles[id].phase.target, w'.roots[|w'.roots| - 1])
  {
    RunCarries(ws, actions, n);
    assert Enabled(ws[n], actions[n]) && ws[n + 1] == Act(ws[n], actions[n]);
    assert Knows(actions[..n], id, ws[n].handles[id]);
  }

  // ----- an Advance that runs alone -----

  /** A stretch of a run, from any world, in which only the store moves. */
  ghost predicate Alone(ws: seq<World>, actions: seq<Action>, id: nat) {
    && |ws| == |actions| + 1
    && forall i :: 0 <= i < |actions| ==>
         !actions[i].Land? && actions[i].id == id && Enabled(ws[i], actions[i]) && ws[i + 1] == Act(ws[i], actions[i])
  }

  lemma OneMoreAlone(w: World, a: Action, id: nat, ws: seq<World>, actions: seq<Action>)
    returns (ws': seq<World>, actions': seq<Action>)
    requires !a.Land? && a.id == id && Enabled(w, a) && Alone(ws, actions, id) && ws[0] == Act(w, a)
    ensures Alone(ws', actions', id) && ws'[0] == w && ws'[|ws'| - 1] == ws[|ws| - 1]
    ensures ws' != [] && actions' != [] && actions'[0] == a
  {
    hide Act, Enabled;
    ws', actions' := [w] + ws, [a] + actions;
  }

  /** What an Advance to target makes of the current root. */
  function Advanced(cur: Root, target: u64, writer: u64): Root {
    if cur.ckptSeq >= target then cur else cur.(ckptSeq := target, writer := writer)
  }

  ghost predicate Reached(w: World, w': World, id: nat)
    requires w.roots != [] && id in w.handles && w.handles[id].phase.Loading?
  {
    var cur, h := w.roots[|w.roots| - 1], w.handles[id];
    var root := Advanced(cur, h.phase.target, h.writer);
    && w'.roots == (if root == cur then w.roots else w.roots + [root])
    && id in w'.handles && w'.handles[id].phase == Returned(h.phase.target, root)
  }

  /** From the point where it has seen every root: decide, and write if a later root is called for. */
  lemma DecideAlone(w: World, id: nat, etag: Etag) returns (ws: seq<World>, actions: seq<Action>)
    requires Inv(w) && id in w.handles && w.handles[id].phase.Loading? && w.roots != [] && etag !in w.etags
    requires w.seqMode ==> w.handles[id].next == |w.roots|
    ensures Alone(ws, actions, id) && ws != [] && ws[0] == w && Reached(w, ws[|ws| - 1], id)
  {
    hide Increasing, MovesOn;
    assert HandleSafe(w, w.handles[id]);
    var decided := Act(w, Decide(id));
    if w.roots[|w.roots| - 1].ckptSeq >= w.handles[id].phase.target {
      ws, actions := [w, decided], [Decide(id)];
    } else {
      ws, actions := [w, decided, Act(decided, WriteOk(id, etag))], [Decide(id), WriteOk(id, etag)];
    }
  }

  /** The store has moved inside its own Load: the roots are as they were, and it wants what it wanted. */
  ghost predicate SameLoad(w: World, w': World, id: nat) {
    && w'.roots == w.roots && w'.etags == w.etags && w'.seqMode == w.seqMode
    && id in w.handles && id in w'.handles && w.handles[id].phase.Loading?
    && w'.handles[id].phase == w.handles[id].phase && w'.handles[id].writer == w.handles[id].writer
  }

  lemma ProbeOne(w: World, id: nat)
    requires Inv(w) && id in w.handles && w.handles[id].phase.Loading? && w.seqMode && w.handles[id].next < |w.roots|
    ensures Enabled(w, Probe(id)) && Inv(Act(w, Probe(id))) && SameLoad(w, Act(w, Probe(id)), id)
    ensures Act(w, Probe(id)).handles[id].next == w.handles[id].next + 1
  {
    InvNext(w, Probe(id));
    hide Inv;
  }

  lemma SameReach(w: World, w1: World, w': World, id: nat)
    requires SameLoad(w, w1, id) && w.roots != [] && Reached(w1, w', id)
    ensures Reached(w, w', id)
  {
  }

  lemma {:induction false} LoadAlone(w: World, id: nat, etag: Etag) returns (ws: seq<World>, actions: seq<Action>)
    requires Inv(w) && id in w.handles && w.handles[id].phase.Loading? && w.roots != [] && etag !in w.etags
    ensures Alone(ws, actions, id) && ws != [] && ws[0] == w && Reached(w, ws[|ws| - 1], id)
    decreases |w.roots| - w.handles[id].next
  {
    hide Inv, Act, Enabled, Reached, Alone;
    NextWithin(w, id);
    if w.seqMode && w.handles[id].next < |w.roots| {
      ProbeOne(w, id);
      var probed := Act(w, Probe(id));
      var ws1, actions1 := LoadAlone(probed, id, etag);
      ws, actions := OneMoreAlone(w, Probe(id), id, ws1, actions1);
      SameReach(w, probed, ws[|ws| - 1], id);
    } else {
      ws, actions := DecideAlone(w, id, etag);
    }
  }

  lemma NextWithin(w: World, id: nat)
    requires Inv(w) && id in w.handles
    ensures w.seqMode ==> w.handles[id].next <= |w.roots|
  {
    hide MovesOn, Increasing;
    assert HandleSafe(w, w.handles[id]);
  }

  lemma BeginOne(w: World, id: nat, target: u64)
    requires Inv(w) && id in w.handles && (w.handles[id].phase.Idle? || w.handles[id].phase.Returned?)
    ensures Enabled(w, Begin(id, target)) && Inv(Act(w, Begin(id, target)))
    ensures var w' := Act(w, Begin(id, target));
            && w'.roots == w.roots && w'.etags == w.etags && w'.seqMode == w.seqMode
            && id in w'.handles && w'.handles[id] == w.handles[id].(phase := Loading(target))
  {
    InvNext(w, Begin(id, target));
    hide Inv;
  }

  /**
   * Advance on any world with a root, in either mode, when nobody else moves: it returns the current root if that is at the
   * number asked for or past it, and otherwise writes its successor under its own writer, and returns that.
   */
  lemma AdvanceAlone(w: World, id: nat, target: u64, etag: Etag) returns (ws: seq<World>, actions: seq<Action>)
    requires Inv(w) && id in w.handles && (w.handles[id].phase.Idle? || w.handles[id].phase.Returned?)
    requires w.roots != [] && etag !in w.etags
    ensures Alone(ws, actions, id) && ws[0] == w && actions != [] && actions[0] == Begin(id, target)
    ensures var cur, w' := w.roots[|w.roots| - 1], ws[|ws| - 1];
            var root := if cur.ckptSeq >= target then cur else cur.(ckptSeq := target, writer := w.handles[id].writer);
            && w'.roots == (if cur.ckptSeq >= target then w.roots else w.roots + [root])
            && id in w'.handles && w'.handles[id].phase == Returned(target, root)
  {
    hide Inv, Act, Enabled, Alone;
    BeginOne(w, id, target);
    var begun := Act(w, Begin(id, target));
    var ws1, actions1 := LoadAlone(begun, id, etag);
    ws, actions := OneMoreAlone(w, Begin(id, target), id, ws1, actions1);
  }

  lemma RetryOne(w: World, id: nat, step: Action)
    requires Inv(w) && id in w.handles && w.handles[id].phase.Writing? && w.roots != []
    requires step == WriteAmbiguous(id) || (step == WriteRefused(id) && !Applies(w, ConditionOf(w, w.handles[id])))
    ensures Enabled(w, step) && Inv(Act(w, step))
    ensures var w' := Act(w, step);
            && w'.roots == w.roots && w'.etags == w.etags && w'.seqMode == w.seqMode
            && id in w'.handles && w'.handles[id] == w.handles[id].(phase := Loading(w.handles[id].phase.target))
  {
    InvNext(w, step);
    hide Inv;
  }

  /**
   * A write that is refused, or whose outcome is unknown, is not the end: the Advance loads again, and alone it still returns
   * a root at the number asked for or past it, the current one or its own successor of that.
   */
  lemma RetryAlone(w: World, id: nat, etag: Etag, step: Action) returns (ws: seq<World>, actions: seq<Action>)
    requires Inv(w) && id in w.handles && w.handles[id].phase.Writing? && w.roots != [] && etag !in w.etags
    requires step == WriteAmbiguous(id) || (step == WriteRefused(id) && !Applies(w, ConditionOf(w, w.handles[id])))
    ensures Alone(ws, actions, id) && ws != [] && ws[0] == w && actions != [] && actions[0] == step
    ensures var cur, w', target := w.roots[|w.roots| - 1], ws[|ws| - 1], w.handles[id].phase.target;
            var root := if cur.ckptSeq >= target then cur else cur.(ckptSeq := target, writer := w.handles[id].writer);
            && w'.roots == (if cur.ckptSeq >= target then w.roots else w.roots + [root])
            && id in w'.handles && w'.handles[id].phase == Returned(target, root)
  {
    hide Inv, Act, Enabled, Alone, Applies;
    RetryOne(w, id, step);
    var ws1, actions1 := LoadAlone(Act(w, step), id, etag);
    ws, actions := OneMoreAlone(w, step, id, ws1, actions1);
  }

  /** After its own Create or write a store is up to date: it holds the current root, its number, or its etag. */
  lemma HoldsItsOwn(w: World, a: Action)
    requires Enabled(w, a) && (a.Create? || a.WriteOk?)
    ensures var w' := Act(w, a);
            && w'.roots != [] && w'.etags != [] && a.id in w'.handles
            && var h := w'.handles[a.id];
               if w.seqMode then h.next == |w'.roots| && h.cur == Some(w'.roots[|w'.roots| - 1])
               else h.etag == w'.etags[|w'.etags| - 1]
  {
    hide MayTag;
  }
}
