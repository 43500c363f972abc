/** Removing a loop iteration is deletion from that loop's sequence of iterations. */
module Removal {
  import opened Wrappers
  import opened Chase
  import opened Engine
  import opened Bodies
  import opened Gathering
  import opened Progress
  import opened ClientRuns
  import opened Stuck

  // ── The answer rows ───────────────────────────────────────────────────────

  /** What one iteration holds. */
  function RowAt(answers: Answers, ids: set<string>, i: nat): map<string, Answer> {
    map id | id in ids && (id, i) in answers :: answers[(id, i)]
  }

  /** The first m iterations of a loop with these body nodes. */
  function Rows(answers: Answers, ids: set<string>, m: nat): (rows: seq<map<string, Answer>>)
    ensures |rows| == m
  {
    seq(m, i requires 0 <= i < m => RowAt(answers, ids, i))
  }

  /** The iterations that hold an answer are exactly 0, 1, …, m - 1. */
  ghost predicate GapFree(answers: Answers, ids: set<string>, m: nat) {
    forall i: nat :: RowAt(answers, ids, i) != map[] <==> i < m
  }

  /** Key by key: other nodes and lower iterations stay, later iterations move down by one. */
  lemma RemovedAt(answers: Answers, ids: set<string>, k: nat, id: string, i: nat)
    ensures var after := ShiftDown(DeleteAt(answers, ids, k), ids, k);
      var from := if id in ids && i >= k then i + 1 else i;
      && ((id, i) in after <==> (id, from) in answers)
      && ((id, i) in after ==> after[(id, i)] == answers[(id, from)])
  {
    var deleted := DeleteAt(answers, ids, k);
    var from := if id in ids && i >= k then i + 1 else i;
    if (id, from) in deleted {
      assert Down(ids, k, (id, from)) == (id, i);
    }
    if (id, i) in ShiftDown(deleted, ids, k) {
      var key :| key in deleted && Down(ids, k, key) == (id, i);
    }
  }

  lemma RemovedRow(answers: Answers, ids: set<string>, k: nat, i: nat)
    ensures RowAt(ShiftDown(DeleteAt(answers, ids, k), ids, k), ids, i) == RowAt(answers, ids, if i >= k then i + 1 else i)
  {
    hide DeleteAt, ShiftDown;
    forall id | id in ids {
      RemovedAt(answers, ids, k, id, i);
    }
  }

  /** The loop's iterations, as a sequence, lose exactly the k-th; gap-free stays gap-free; and
      no answer outside the loop's body changes. */
  lemma RemovalIsDeletion(v: View, loopId: string, k: nat, m: nat)
    requires RemoveIteration(v, loopId, k).Ok? && k < m
    ensures var w := RemoveIteration(v, loopId, k).value; var ids := BodyIds(v.t, loopId);
      var rows := Rows(v.answers, ids, m);
      && Rows(w.answers, ids, m - 1) == rows[..k] + rows[k + 1..]
      && (GapFree(v.answers, ids, m) ==> GapFree(w.answers, ids, m - 1))
      && (forall id, i: nat :: id !in ids ==> SameAnswer(v, w, id, i))
      && (forall id :: id != loopId ==> (id in v.loops <==> id in w.loops) && (id in v.loops ==> v.loops[id] == w.loops[id]))
  {
    hide ById, BodyOf, DeleteAt, ShiftDown, RowAt;
    var w := RemoveIteration(v, loopId, k).value;
    var ids := BodyIds(v.t, loopId);
    if BodyOf(v.t.nodes, loopId) == [] {
      NoIdsNoRows(v.answers, m);
      NoIdsNoRows(v.answers, m - 1);
      assert ids == {} && Rows(v.answers, {}, m)[0] == RowAt(v.answers, {}, 0);
    } else {
      forall i: nat ensures RowAt(w.answers, ids, i) == RowAt(v.answers, ids, if i >= k then i + 1 else i) {
        RemovedRow(v.answers, ids, k, i);
      }
      forall id, i: nat | id !in ids ensures SameAnswer(v, w, id, i) {
        RemovedAt(v.answers, ids, k, id, i);
      }
    }
  }

  lemma NoIdsNoRows(answers: Answers, m: nat)
    ensures forall i :: 0 <= i < m ==> Rows(answers, {}, m)[i] == map[]
  {
  }

  /** Removing an iteration that does not exist changes no answer. */
  lemma RemovalBeyondEnd(v: View, loopId: string, k: nat, m: nat)
    requires RemoveIteration(v, loopId, k).Ok? && m <= k && GapFree(v.answers, BodyIds(v.t, loopId), m)
    ensures RemoveIteration(v, loopId, k).value.answers == v.answers
  {
    hide ById, BodyOf, BodyIds, DeleteAt, ShiftDown, GapFree;
    var w := RemoveIteration(v, loopId, k).value;
    if BodyOf(v.t.nodes, loopId) != [] {
      forall key: (string, nat) ensures SameAnswer(v, w, key.0, key.1) {
        BeyondEnd(v.answers, BodyIds(v.t, loopId), k, m, key.0, key.1);
      }
      forall key: (string, nat) ensures key in v.answers <==> key in w.answers {
        assert SameAnswer(v, w, key.0, key.1);
      }
      forall key: (string, nat) | key in v.answers ensures v.answers[key] == w.answers[key] {
        assert SameAnswer(v, w, key.0, key.1);
      }
    }
  }

  lemma BeyondEnd(answers: Answers, ids: set<string>, k: nat, m: nat, id: string, i: nat)
    requires m <= k && GapFree(answers, ids, m)
    ensures var after := ShiftDown(DeleteAt(answers, ids, k), ids, k);
      && ((id, i) in after <==> (id, i) in answers)
      && ((id, i) in after ==> after[(id, i)] == answers[(id, i)])
  {
    hide DeleteAt, ShiftDown;
    RemovedAt(answers, ids, k, id, i);
    if id in ids && i >= k {
      assert RowAt(answers, ids, i) == map[] && RowAt(answers, ids, i + 1) == map[];
      assert id !in RowAt(answers, ids, i) && id !in RowAt(answers, ids, i + 1);
    }
  }

  // ── The cursor ────────────────────────────────────────────────────────────

  /** The session as it stood, except that a loop cursor at the doomed iteration looks at the next one. */
  function PastIteration(v: View, loopId: string, k: nat): View {
    if IterOf(v.loops, loopId) == k then v.(loops := v.loops[loopId := LoopCursor(k + 1, IsDone(v.loops, loopId))]) else v
  }

  /** The same thing shown, with the loop's later iterations renumbered. */
  function Renumbered(c: Cursor, loopId: string, k: nat): Cursor {
    match c
    case ShowNode(n, Some(ctx)) =>
      if ctx.loopId == loopId && ctx.iter > k then ShowNode(n, Some(LoopContext(loopId, ctx.iter - 1))) else c
    case ShowLoopStep(id, iter) => if id == loopId && iter > k then ShowLoopStep(id, iter - 1) else c
    case _ => c
  }

  function RenumberedDecision(d: Decision, loopId: string, k: nat): Decision {
    if d.Halt? then Halt(Renumbered(d.cursor, loopId, k)) else d
  }

  /** Where a question sends the walk by its answer at one iteration, if anywhere. */
  function ReadAt(u: View, n: Node, i: nat): Option<string> {
    if (n.id, i) !in u.answers || ResolveNext(n, u.answers[(n.id, i)]).Invalid? then None
    else Some(Target(ResolveNext(n, u.answers[(n.id, i)])))
  }

  ghost predicate Meets(u: View, id: string) {
    (id in TopWalk(u).trail || id == TopWalk(u).stop) && id in ById(u.t.nodes)
  }

  /** Every question of this loop's body that the walk over the template meets, and reads at iteration
      0, leads to the same place by its answer at iteration 1. */
  ghost predicate RereadsAlike(u: View, loopId: string) {
    forall id :: Meets(u, id) && id in BodyIds(u.t, loopId) ==> RereadAlike(u, ById(u.t.nodes)[id])
  }

  predicate RereadAlike(u: View, n: Node) {
    n.nodeType.Loop? || ReadAt(u, n, 0) == ReadAt(u, n, 1)
  }

  /** When top-level rules never enter a body, there is nothing to reread. */
  lemma TopLevelRereadsAlike(u: View, loopId: string)
    requires UniqueIds(u.t) && TopLevelClosed(u.t) && loopId != ""
    ensures forall id :: Meets(u, id) ==> id !in BodyIds(u.t, loopId)
    ensures RereadsAlike(u, loopId)
  {
    hide ById, TopWalk, BodyIds, TopLevelClosed, RereadAlike;
    forall id | Meets(u, id) ensures id !in BodyIds(u.t, loopId) {
      if id in BodyIds(u.t, loopId) {
        BodyIdParent(u.t, loopId, id);
        if id in TopWalk(u).trail {
          TrailTopLevel(u, id);
        } else {
          StopTopLevel(u);
        }
      }
    }
  }

  /** The responder has walked the same way and sees what was shown before, with only the iteration
      number adjusted; a loop cursor that stood at the removed iteration shows the one that followed it. */
  ghost predicate KeepsCursor(v: View, loopId: string, k: nat)
    requires RemoveIteration(v, loopId, k).Ok?
  {
    var u, w := PastIteration(v, loopId, k), RemoveIteration(v, loopId, k).value;
    TopWalk(w) == TopWalk(u) && CursorOf(w) == Renumbered(CursorOf(u), loopId, k)
  }

  /** The removal of a later iteration always keeps the cursor; that of iteration 0 exactly when every
      question of the body that the template itself walks over leads on alike. */
  lemma RemovalKeepsCursor(v: View, loopId: string, k: nat)
    requires UniqueIds(v.t) && RemoveIteration(v, loopId, k).Ok?
    ensures KeepsCursor(v, loopId, k) <==> k > 0 || RereadsAlike(PastIteration(v, loopId, k), loopId)
  {
    hide KeepsCursor, RereadsAlike, RemoveIteration, PastIteration, ById, UniqueIds;
    if k > 0 || RereadsAlike(PastIteration(v, loopId, k), loopId) {
      AlikeKeepsCursor(v, loopId, k);
    }
    if k == 0 && KeepsCursor(v, loopId, k) {
      KeptReadsAlike(v, loopId);
    }
  }

  lemma AlikeKeepsCursor(v: View, loopId: string, k: nat)
    requires UniqueIds(v.t) && RemoveIteration(v, loopId, k).Ok?
    requires k > 0 || RereadsAlike(PastIteration(v, loopId, k), loopId)
    ensures KeepsCursor(v, loopId, k)
  {
    hide ById, TopWalk, CursorOf, BodyIds, RemoveIteration, PastIteration, Decide, DecidedAlike, UniqueIds, RereadAlike, Renumbered,
         RenumberedDecision;
    var u, w := PastIteration(v, loopId, k), RemoveIteration(v, loopId, k).value;
    RemovalKeepsTemplate(v, loopId, k);
    forall id | Meets(u, id)
      ensures Decide(w, ById(v.t.nodes)[id]) == RenumberedDecision(Decide(u, ById(v.t.nodes)[id]), loopId, k)
    {
      MetDecision(v, loopId, k, id);
    }
    forall id | id in TopWalk(u).trail ensures DecidedAlike(u, w, id, loopId, k) {
      TrailPasses(u, id);
      assert Meets(u, id);
      DecidedAlikeIntro(u, w, id, loopId, k);
    }
    if TopWalk(u).stop in ById(v.t.nodes) {
      StopTopLevel(u);
      assert Meets(u, TopWalk(u).stop);
    }
    SameShape(u, w, loopId, k);
  }

  lemma MetDecision(v: View, loopId: string, k: nat, id: string)
    requires UniqueIds(v.t) && RemoveIteration(v, loopId, k).Ok? && id in ById(v.t.nodes)
    requires k > 0 || (id in BodyIds(v.t, loopId) ==> RereadAlike(PastIteration(v, loopId, k), ById(v.t.nodes)[id]))
    ensures var x := ById(v.t.nodes)[id];
      Decide(RemoveIteration(v, loopId, k).value, x) == RenumberedDecision(Decide(PastIteration(v, loopId, k), x), loopId, k)
  {
    hide ById, BodyIds, RemoveIteration, PastIteration, Decide, UniqueIds, RenumberedDecision;
    var x := ById(v.t.nodes)[id];
    if k > 0 || x.id !in BodyIds(v.t, loopId) || x.nodeType.Loop? {
      DecisionRenumbered(v, loopId, k, x);
    } else {
      BodyDecision(v, loopId, x);
      OthersNotRenumbered(PastIteration(v, loopId, k), loopId, k, x);
    }
  }

  function ByReading(n: Node, read: Option<string>): Decision {
    if read.Some? then Pass(read.value) else Halt(ShowNode(n, None))
  }

  /** A question of the body is decided by its answer at iteration 0 before the removal of that
      iteration, and by the one at iteration 1 after it. */
  lemma BodyDecision(v: View, loopId: string, x: Node)
    requires UniqueIds(v.t) && RemoveIteration(v, loopId, 0).Ok? && x.id in BodyIds(v.t, loopId) && !x.nodeType.Loop?
    ensures var u := PastIteration(v, loopId, 0);
      && Decide(u, x) == ByReading(x, ReadAt(u, x, 0))
      && Decide(RemoveIteration(v, loopId, 0).value, x) == ByReading(x, ReadAt(u, x, 1))
  {
    hide ById, BodyOf, DeleteAt, ShiftDown, ResolveNext;
    RemovedAt(v.answers, BodyIds(v.t, loopId), 0, x.id, 0);
  }

  lemma KeptReadsAlike(v: View, loopId: string)
    requires UniqueIds(v.t) && RemoveIteration(v, loopId, 0).Ok? && KeepsCursor(v, loopId, 0)
    ensures RereadsAlike(PastIteration(v, loopId, 0), loopId)
  {
    hide ById, CursorOf, BodyIds, RemoveIteration, PastIteration, Decide, Decisions, UniqueIds, ReadAt, Renumbered, Follow;
    var u, w := PastIteration(v, loopId, 0), RemoveIteration(v, loopId, 0).value;
    RemovalKeepsTemplate(v, loopId, 0);
    TrailIsChain(Decisions(u), u.t.root, {});
    TrailIsChain(Decisions(w), w.t.root, {});
    forall id | Meets(u, id) && id in BodyIds(u.t, loopId) ensures RereadAlike(u, ById(u.t.nodes)[id]) {
      var x := ById(u.t.nodes)[id];
      DecisionAt(u, id);
      DecisionAt(w, id);
      if !x.nodeType.Loop? {
        BodyDecision(v, loopId, x);
        if id in TopWalk(u).trail {
          var i :| 0 <= i < |TopWalk(u).trail| && TopWalk(u).trail[i] == id;
          assert Decisions(u)[id] == After(TopWalk(u), i) == Decisions(w)[id];
        } else {
          StopTopLevel(u);
        }
      }
    }
  }

  lemma RemovalKeepsTemplate(v: View, loopId: string, k: nat)
    requires RemoveIteration(v, loopId, k).Ok?
    ensures RemoveIteration(v, loopId, k).value.t == v.t && PastIteration(v, loopId, k).t == v.t
    ensures loopId in ById(v.t.nodes)
  {
    hide ById, BodyOf, BodyIds;
  }

  ghost predicate DecidedAlike(u: View, w: View, id: string, loopId: string, k: nat) {
    && u.t == w.t && id in ById(u.t.nodes) && id != "" && Decide(u, ById(u.t.nodes)[id]).Pass?
    && Decide(w, ById(u.t.nodes)[id]) == RenumberedDecision(Decide(u, ById(u.t.nodes)[id]), loopId, k)
  }

  lemma DecidedAlikeIntro(u: View, w: View, id: string, loopId: string, k: nat)
    requires u.t == w.t && id in ById(u.t.nodes) && id != "" && Decide(u, ById(u.t.nodes)[id]).Pass?
    requires Decide(w, ById(u.t.nodes)[id]) == RenumberedDecision(Decide(u, ById(u.t.nodes)[id]), loopId, k)
    ensures DecidedAlike(u, w, id, loopId, k)
  {
    hide Decide, ById;
  }

  lemma TrailTopLevel(u: View, id: string)
    requires id in TopWalk(u).trail
    ensures TopLevelClosed(u.t) ==> id in ById(u.t.nodes) && ById(u.t.nodes)[id].parent == ""
  {
    hide ById, TopWalk, TopLevelClosed;
    if TopLevelClosed(u.t) {
      var i :| 0 <= i < |TopWalk(u).trail| && TopWalk(u).trail[i] == id;
      TopLevelTrail(u, i);
    }
  }

  lemma StopTopLevel(u: View)
    requires TopWalk(u).stop in ById(u.t.nodes) && UniqueIds(u.t)
    ensures TopLevelClosed(u.t) ==> ById(u.t.nodes)[TopWalk(u).stop].parent == ""
    ensures TopWalk(u).stop != ""
  {
    hide ById, TopWalk;
    StopOrRoot(u);
    var w := TopWalk(u);
    if w.trail != [] && TopLevelClosed(u.t) {
      TopLevelTrail(u, |w.trail| - 1);
      assert After(w, |w.trail| - 1) == w.stop;
    }
  }

  /** Every node the walk can stand on decides the same, up to renumbering. */
  lemma DecisionRenumbered(v: View, loopId: string, k: nat, x: Node)
    requires UniqueIds(v.t) && RemoveIteration(v, loopId, k).Ok? && x.id in ById(v.t.nodes) && ById(v.t.nodes)[x.id] == x
    requires k > 0 || x.id !in BodyIds(v.t, loopId) || x.nodeType.Loop?
    ensures Decide(RemoveIteration(v, loopId, k).value, x)
         == RenumberedDecision(Decide(PastIteration(v, loopId, k), x), loopId, k)
  {
    hide ById, BodyOf, BodyIds, BodyOutcome, ResolveNext, DeleteAt, ShiftDown, SameInputs, RemoveIteration, Decide, PastIteration;
    RemovalKeepsTemplate(v, loopId, k);
    if x.nodeType.Loop? && x.id == loopId {
      LoopRenumbered(v, loopId, k, x);
    } else {
      OthersUntouched(v, loopId, k, x);
      SameInputsSameDecision(PastIteration(v, loopId, k), RemoveIteration(v, loopId, k).value, x);
      OthersNotRenumbered(PastIteration(v, loopId, k), loopId, k, x);
    }
  }

  lemma OthersNotRenumbered(u: View, loopId: string, k: nat, x: Node)
    requires !(x.nodeType.Loop? && x.id == loopId)
    ensures RenumberedDecision(Decide(u, x), loopId, k) == Decide(u, x)
  {
    hide BodyOf, BodyOutcome, ResolveNext;
  }

  lemma OthersUntouched(v: View, loopId: string, k: nat, x: Node)
    requires UniqueIds(v.t) && RemoveIteration(v, loopId, k).Ok? && x.id in ById(v.t.nodes) && ById(v.t.nodes)[x.id] == x
    requires k > 0 || x.id !in BodyIds(v.t, loopId) || x.nodeType.Loop?
    requires !(x.nodeType.Loop? && x.id == loopId)
    ensures SameInputs(PastIteration(v, loopId, k), RemoveIteration(v, loopId, k).value, x)
  {
    hide ById, BodyOf, BodyIds, DeleteAt, ShiftDown;
    var ids := BodyIds(v.t, loopId);
    forall id, i: nat {
      RemovedAt(v.answers, ids, k, id, i);
    }
    if x.nodeType.Loop? {
      forall b | b in BodyIds(v.t, x.id) ensures b !in ids {
        BodyIdParent(v.t, x.id, b);
        if b in ids {
          BodyIdParent(v.t, loopId, b);
        }
      }
    }
  }

  lemma LoopRenumbered(v: View, loopId: string, k: nat, x: Node)
    requires RemoveIteration(v, loopId, k).Ok? && x.nodeType.Loop? && x.id == loopId
    ensures Decide(RemoveIteration(v, loopId, k).value, x)
         == RenumberedDecision(Decide(PastIteration(v, loopId, k), x), loopId, k)
  {
    hide ById, BodyOf, BodyIds, BodyOutcome, ResolveNext, DeleteAt, ShiftDown;
    var u, w := PastIteration(v, loopId, k), RemoveIteration(v, loopId, k).value;
    var ids := BodyIds(v.t, loopId);
    var i, j := IterOf(u.loops, loopId), IterOf(w.loops, loopId);
    if BodyOf(v.t.nodes, loopId) != [] && !IsDone(v.loops, loopId) {
      assert i != k && j == (if i > k then i - 1 else i);
      forall id {
        RemovedAt(v.answers, ids, k, id, j);
      }
      ShiftedBodyOutcome(v.t, loopId, u.answers, i, w.answers, j);
    }
  }

  /** A body walk depends on the answers of its iteration, not on the iteration's number. */
  lemma ShiftedBodyOutcome(t: Template, loopId: string, a: Answers, i: nat, b: Answers, j: nat)
    requires forall id :: id in BodyIds(t, loopId) ==> ((id, i) in a <==> (id, j) in b)
    requires forall id :: id in BodyIds(t, loopId) && (id, i) in a ==> a[(id, i)] == b[(id, j)]
    ensures BodyOutcome(t, loopId, a, i) == BodyOutcome(t, loopId, b, j)
  {
    hide ById, BodyOf, Follow;
    assert BodyDecisions(t, loopId, a, i) == BodyDecisions(t, loopId, b, j);
  }

  lemma SameShape(u: View, w: View, loopId: string, k: nat)
    requires u.t == w.t
    requires forall id :: id in TopWalk(u).trail ==> DecidedAlike(u, w, id, loopId, k)
    requires var stop := TopWalk(u).stop; stop in ById(u.t.nodes) ==>
      stop != "" && Decide(w, ById(u.t.nodes)[stop]) == RenumberedDecision(Decide(u, ById(u.t.nodes)[stop]), loopId, k)
    ensures TopWalk(w) == TopWalk(u) && CursorOf(w) == Renumbered(CursorOf(u), loopId, k)
  {
    hide ById, Decide, Decisions, Follow;
    var top := TopWalk(u);
    TrailIsChain(Decisions(u), u.t.root, {});
    forall id | id in top.trail ensures id in Decisions(u) && id in Decisions(w) && Decisions(w)[id] == Decisions(u)[id] {
      assert DecidedAlike(u, w, id, loopId, k);
      DecisionAt(u, id);
      DecisionAt(w, id);
    }
    DecisionAt(u, top.stop);
    DecisionAt(w, top.stop);
    FollowSame(Decisions(u), Decisions(w), u.t.root);
  }

  // ── When the template enters a body from outside ──────────────────────────

  /** Two iterations, `extra` answered where the template reads it, and the loop declared done. */
  function Completed(c: Answer): View {
    View(TRAP, map[("first", 0) := c, ("first", 1) := c, ("extra", 0) := c], map["loop" := LoopCursor(1, true)], InProgress)
  }

  /** Removing iteration 0 then reopens a session that was at its end, although the loop's cursor
      stood elsewhere. */
  lemma EnteredBodyReopens(c: Answer)
    ensures CursorOf(Completed(c)) == AtEnd
    ensures RemoveIteration(Completed(c), "loop", 0).Ok?
    ensures CursorOf(RemoveIteration(Completed(c), "loop", 0).value) == ShowNode(EXTRA, None)
  {
    hide ById, BodyOf, DeleteAt, ShiftDown;
    TrapNodes();
    TrapBody();
    var v := Completed(c);
    var w := RemoveIteration(v, "loop", 0).value;
    RemovedAt(v.answers, BodyIds(v.t, "loop"), 0, "extra", 0);
    TrapCursor(v);
    TrapCursor(w);
  }

  lemma TrapCursor(v: View)
    requires v.t == TRAP && IsDone(v.loops, "loop")
    ensures CursorOf(v) == if ("extra", 0) in v.answers then AtEnd else ShowNode(EXTRA, None)
  {
    hide ById, BodyOf;
    TrapNodes();
    DecisionAt(v, "loop");
    DecisionAt(v, "extra");
    assert Decide(v, LOOP) == Pass("extra");
    FollowStep(Decisions(v), "loop", {});
    if ("extra", 0) in v.answers {
      assert Decide(v, EXTRA) == Pass("");
      FollowStep(Decisions(v), "extra", {"loop"});
    }
  }
}
