/**
 Where progress fails: a rule of a top-level node may lead into a loop body.  The body node is then
 read at iteration 0 but written at the loop's current iteration.  Validation does not report this.
 */
module Stuck {
  import opened Wrappers
  import opened Chase
  import opened Engine
  import opened Bodies
  import opened Validator
  import opened Gathering
  import opened Progress
  import opened ClientRuns

  /** The write of an accepted answer to a body node that is shown outside its loop. */
  lemma OutsideWrite(v: View, a: Answer)
    requires UniqueIds(v.t) && CursorOf(v).ShowNode? && CursorOf(v).context.None? && CursorOf(v).node.parent != ""
    requires Submit(v, CursorOf(v).node.id, a).Ok?
    ensures var w := Submit(v, CursorOf(v).node.id, a).value; var n := CursorOf(v).node;
      && w.t == v.t && !n.nodeType.Loop?
      && w.answers == v.answers[(n.id, IterOf(v.loops, n.parent)) := Persisted(n, a)]
      && !ResolveNext(n, Persisted(n, a)).Invalid?
      && (forall id :: IterOf(w.loops, id) == IterOf(v.loops, id) && IsDone(w.loops, id) == IsDone(v.loops, id))
  {
    hide ById, CursorOf, TopWalk, BodyOf, ResolveNext, BodyOutcome;
    ShownNode(v);
  }

  /** The loop of a body node, when the walk passed it unfinished: a loop whose body dead-ended. */
  predicate DeadEnded(v: View, n: Node) {
    && n.parent in TopWalk(v).trail && n.parent in ById(v.t.nodes)
    && ById(v.t.nodes)[n.parent].nodeType.Loop? && !IsDone(v.loops, n.parent)
  }

  /** The loop halts the walk again. */
  predicate Reopens(w: View, n: Node) {
    n.parent in ById(w.t.nodes) && Decide(w, ById(w.t.nodes)[n.parent]).Halt?
  }

  /** Accepting an answer to a body node shown outside its loop.  When the loop had dead-ended and the
      answer reopens it, the loop is shown.  Otherwise the cursor moves on exactly when the loop's
      cursor is at iteration 0; at any other iteration the same question is shown again. */
  lemma OutsideLoopStep(v: View, w: View, a: Answer)
    requires UniqueIds(v.t) && CursorOf(v).ShowNode? && CursorOf(v).context.None? && CursorOf(v).node.parent != ""
    requires Submit(v, CursorOf(v).node.id, a) == Ok(w)
    ensures var n := CursorOf(v).node;
      if DeadEnded(v, n) && Reopens(w, n) then CursorOf(w) == Decide(w, ById(v.t.nodes)[n.parent]).cursor
      else if IterOf(v.loops, n.parent) == 0 then KeepsTrail(v, w) && GoesFurther(v, w)
      else CursorOf(w) == CursorOf(v)
  {
    hide ById, CursorOf, TopWalk, BodyIds, BodyOf, BodyTrail, BodyOutcome, ResolveNext, Submit, Persisted, IterOf, IsDone,
         Decisions, Decide, Follow, KeepsTrail, GoesFurther;
    var byId := ById(v.t.nodes);
    var n := CursorOf(v).node;
    StandsAt(v);
    ShownNode(v);
    OutsideWrite(v, a);
    forall id | id in TopWalk(v).trail && id in byId && (id != n.parent || !DeadEnded(v, n) || !Reopens(w, n))
      ensures Decide(v, byId[id]) == Decide(w, byId[id])
    {
      OutsideDecision(v, w, a, id);
    }
    if DeadEnded(v, n) && Reopens(w, n) {
      ReopenedShows(v, w, n.parent);
    } else {
      DecisionsKeepTrail(v, w);
      OutsideMovesOn(v, w, a);
    }
  }

  lemma OutsideDecision(v: View, w: View, a: Answer, id: string)
    requires UniqueIds(v.t) && CursorOf(v).ShowNode? && CursorOf(v).context.None? && CursorOf(v).node.parent != ""
    requires Submit(v, CursorOf(v).node.id, a) == Ok(w) && id in TopWalk(v).trail && id in ById(v.t.nodes)
    requires var n := CursorOf(v).node; id != n.parent || !DeadEnded(v, n) || !Reopens(w, n)
    ensures Decide(v, ById(v.t.nodes)[id]) == Decide(w, ById(v.t.nodes)[id])
  {
    hide ById, CursorOf, TopWalk, BodyIds, BodyOf, BodyTrail, BodyOutcome, ResolveNext, Submit, Persisted, IterOf, IsDone,
         Decisions, Decide, Follow, SameInputs;
    var n, x := CursorOf(v).node, ById(v.t.nodes)[id];
    StandsAt(v);
    ShownNode(v);
    OutsideWrite(v, a);
    TrailPasses(v, id);
    if id == n.parent && DeadEnded(v, n) {
      StillPasses(v, w, x);
    } else {
      OutsideMisses(v, w, x, n, IterOf(v.loops, n.parent), Persisted(n, a));
      SameInputsSameDecision(v, w, x);
    }
  }

  /** An unfinished loop passes one way only: as a dead end. */
  lemma StillPasses(v: View, w: View, loop: Node)
    requires v.t == w.t && loop.nodeType.Loop? && !IsDone(v.loops, loop.id) && !IsDone(w.loops, loop.id)
    requires Decide(v, loop).Pass? && Decide(w, loop).Pass?
    ensures Decide(v, loop) == Decide(w, loop)
  {
    hide BodyOf, BodyOutcome, ResolveNext;
  }

  lemma ReopenedShows(v: View, w: View, loopId: string)
    requires v.t == w.t && loopId in TopWalk(v).trail && loopId in ById(v.t.nodes) && Decide(w, ById(v.t.nodes)[loopId]).Halt?
    requires forall id :: id in TopWalk(v).trail && id in ById(v.t.nodes) && id != loopId ==>
               Decide(v, ById(v.t.nodes)[id]) == Decide(w, ById(v.t.nodes)[id])
    ensures CursorOf(w) == Decide(w, ById(v.t.nodes)[loopId]).cursor
  {
    hide ById, Decide, Decisions, Follow;
    var top := TopWalk(v);
    TrailIsChain(Decisions(v), v.t.root, {});
    var i :| 0 <= i < |top.trail| && top.trail[i] == loopId;
    forall id | id in top.trail[..i] ensures id in Decisions(v) && id in Decisions(w) && Decisions(w)[id] == Decisions(v)[id] {
      var j :| 0 <= j < i && top.trail[j] == id;
      DecisionAt(v, id);
      DecisionAt(w, id);
    }
    DecisionAt(v, loopId);
    DecisionAt(w, loopId);
    FollowCut(Decisions(v), Decisions(w), v.t.root, {}, i);
  }

  lemma OutsideMovesOn(v: View, w: View, a: Answer)
    requires UniqueIds(v.t) && CursorOf(v).ShowNode? && CursorOf(v).context.None? && CursorOf(v).node.parent != ""
    requires Submit(v, CursorOf(v).node.id, a) == Ok(w) && KeepsTrail(v, w)
    ensures if IterOf(v.loops, CursorOf(v).node.parent) == 0 then GoesFurther(v, w) else CursorOf(w) == CursorOf(v)
  {
    hide ById, CursorOf, TopWalk, BodyIds, BodyOf, BodyTrail, BodyOutcome, ResolveNext, Submit, Persisted, IterOf, IsDone,
         Decisions, Follow, KeepsTrail, GoesFurther, DecideLoop;
    var n := CursorOf(v).node;
    StandsAt(v);
    ShownNode(v);
    OutsideWrite(v, a);
    DecisionAt(w, n.id);
    if IterOf(v.loops, n.parent) == 0 {
      TopGrows(v, w);
    } else {
      StoppedAlike(v, w);
    }
  }

  /** A body walk that does not meet a question does not notice its answer, so a dead-ended loop
      whose walk misses the shown question stays passed. */
  lemma UnreadStaysPassed(v: View, w: View, a: Answer)
    requires UniqueIds(v.t) && CursorOf(v).ShowNode? && CursorOf(v).context.None? && CursorOf(v).node.parent != ""
    requires Submit(v, CursorOf(v).node.id, a) == Ok(w) && DeadEnded(v, CursorOf(v).node)
    requires BodyOf(v.t.nodes, CursorOf(v).node.parent) != []
    requires var n := CursorOf(v).node; var walk := BodyTrail(v.t, n.parent, v.answers, IterOf(v.loops, n.parent));
      n.id !in walk.trail && n.id != walk.stop
    ensures !Reopens(w, CursorOf(v).node)
  {
    hide ById, CursorOf, TopWalk, BodyOf, BodyTrail, BodyOutcome, ResolveNext, Submit, Persisted, IterOf, IsDone, Decisions, Follow;
    var n := CursorOf(v).node;
    ShownNode(v);
    OutsideWrite(v, a);
    TrailPasses(v, n.parent);
    UnreadOutcome(v.t, n.parent, v.answers, IterOf(v.loops, n.parent), n, Persisted(n, a));
  }

  lemma UnreadOutcome(t: Template, loopId: string, answers: Answers, iter: nat, n: Node, a: Answer)
    requires BodyOf(t.nodes, loopId) != []
    requires n.id !in BodyTrail(t, loopId, answers, iter).trail && n.id != BodyTrail(t, loopId, answers, iter).stop
    ensures BodyOutcome(t, loopId, answers[(n.id, iter) := a], iter) == BodyOutcome(t, loopId, answers, iter)
  {
    hide ById, BodyOf, BodyIds, BodyDecisions, ResolveNext, Follow;
    var was, now := BodyDecisions(t, loopId, answers, iter), BodyDecisions(t, loopId, answers[(n.id, iter) := a], iter);
    var entry := BodyOf(t.nodes, loopId)[0].id;
    TrailIsChain(was, entry, {});
    OtherDecisionsSame(t, loopId, answers, iter, n, a);
    FollowSame(was, now, entry);
  }

  lemma OtherDecisionsSame(t: Template, loopId: string, answers: Answers, iter: nat, n: Node, a: Answer)
    ensures var was, now := BodyDecisions(t, loopId, answers, iter), BodyDecisions(t, loopId, answers[(n.id, iter) := a], iter);
      forall id :: id != n.id ==> (id in was <==> id in now) && (id in was ==> was[id] == now[id])
  {
    hide ById, BodyIds, ResolveNext;
  }

  /** A dead-ended body walk that stopped at the shown question, answered there without a matching
      rule, is taken past it by the accepted answer. */
  lemma DeadEndGoesOn(v: View, w: View, a: Answer)
    requires UniqueIds(v.t) && CursorOf(v).ShowNode? && CursorOf(v).context.None? && CursorOf(v).node.parent != ""
    requires Submit(v, CursorOf(v).node.id, a) == Ok(w) && DeadEnded(v, CursorOf(v).node)
    requires BodyOf(v.t.nodes, CursorOf(v).node.parent) != []
    requires var n := CursorOf(v).node; var walk := BodyTrail(v.t, n.parent, v.answers, IterOf(v.loops, n.parent));
      n.id !in walk.trail && n.id == walk.stop
    ensures var n := CursorOf(v).node; var iter := IterOf(v.loops, n.parent);
      BodyTrail(v.t, n.parent, v.answers, iter).trail + [n.id] <= BodyTrail(v.t, n.parent, w.answers, iter).trail
  {
    hide ById, CursorOf, TopWalk, BodyOf, BodyOutcome, BodyDecisions, ResolveNext, Submit, Persisted, IterOf, IsDone, Decisions, Follow, Decide;
    var n := CursorOf(v).node;
    var iter := IterOf(v.loops, n.parent);
    ShownNode(v);
    StandsAt(v);
    OutsideWrite(v, a);
    var was, now := BodyDecisions(v.t, n.parent, v.answers, iter), BodyDecisions(v.t, n.parent, w.answers, iter);
    var entry := BodyOf(v.t.nodes, n.parent)[0].id;
    TrailIsChain(was, entry, {});
    assert n in v.t.nodes && n.id in BodyIds(v.t, n.parent);
    BodyDecisionsGrow(v.t, n.parent, v.answers, iter, n, Persisted(n, a));
    FollowGrows(was, now, entry);
  }

  lemma OutsideMisses(v: View, w: View, x: Node, n: Node, iter: nat, a: Answer)
    requires UniqueIds(v.t) && n.id in ById(v.t.nodes) && ById(v.t.nodes)[n.id] == n && x in ById(v.t.nodes).Values
    requires w.t == v.t && w.answers == v.answers[(n.id, iter) := a]
    requires IterOf(w.loops, x.id) == IterOf(v.loops, x.id) && IsDone(w.loops, x.id) == IsDone(v.loops, x.id)
    requires x.nodeType.Loop? ==> n.parent != x.id || IsDone(v.loops, x.id)
    requires !x.nodeType.Loop? ==> x.id != n.id || iter != 0
    ensures SameInputs(v, w, x)
  {
    hide BodyIds, ById, IterOf, IsDone;
    if x.nodeType.Loop? && IsDone(v.loops, x.id) {
    } else {
      WriteMisses(v, w, x, n, iter, a);
    }
  }

  // ── A clean template that traps its client ────────────────────────────────

  const LOOP := Node("loop", Loop, true, 0, [Rule(Always, Other, "extra")], 0, "", "", None)
  const FIRST := Node("first", ShortText, true, 0, [Rule(Always, Other, END_NODE)], 0, "loop", "", None)
  const EXTRA := Node("extra", ShortText, true, 0, [Rule(Always, Other, END_NODE)], 1, "loop", "", None)
  const TRAP := Template("loop", [LOOP, FIRST, EXTRA])

  lemma TrapNodes()
    ensures ById(TRAP.nodes) == map["loop" := LOOP, "first" := FIRST, "extra" := EXTRA]
    ensures UniqueIds(TRAP)
  {
    assert TRAP.nodes[..2] == [LOOP, FIRST];
    assert TRAP.nodes[..2][..1] == [LOOP];
    assert ById([]) == map[];
    assert ById([LOOP]) == map["loop" := LOOP];
    assert ById([LOOP, FIRST]) == map["loop" := LOOP, "first" := FIRST];
  }

  lemma TrapIsReachable(id: string)
    requires id in ["loop", "first", "extra"]
    ensures Reachable(ById(TRAP.nodes), "loop", id)
  {
    hide ById, Reachable;
    TrapNodes();
    var byId := ById(TRAP.nodes);
    ReachableRoot(byId, "loop");
    assert Edge(byId, "loop", "first") && Edge(byId, "loop", "extra");
    ReachableStep(byId, "loop", "loop", "first");
    ReachableStep(byId, "loop", "loop", "extra");
  }

  lemma TrapNodeIsClean(n: Node, number: Answer -> JsNumber, x: Issue)
    requires n in [LOOP, FIRST, EXTRA]
    ensures var byId := ById(TRAP.nodes);
            !RuleIssue(n, byId, x) && !ToggleIssue(n, number, x) && !UnreachableIssue(TRAP, byId, n, x)
    ensures forall body :: !CollisionIssue(n, body, x)
  {
    hide ById, Reachable;
    TrapNodes();
    TrapIsReachable(n.id);
    assert forall r :: r in n.rules ==> r == n.rules[0];
  }

  /** The validator has nothing to say about it. */
  lemma TrapIsClean(number: Answer -> JsNumber, x: Issue)
    ensures !Reported(TRAP, number, x)
  {
    hide ById, RuleIssue, ToggleIssue, UnreachableIssue, CollisionIssue;
    TrapNodes();
    TrapNodeIsClean(LOOP, number, x);
    TrapNodeIsClean(FIRST, number, x);
    TrapNodeIsClean(EXTRA, number, x);
  }

  /** Two iterations answered and the loop declared done, but `extra` never reached inside it. */
  ghost predicate Trapped(v: View) {
    && v.t == TRAP && "loop" in v.loops && v.loops["loop"] == LoopCursor(1, true)
    && ("extra", 0) !in v.answers
  }

  /** Every accepted answer leaves the client trapped, looking at the same question. */
  lemma TrappedForever(v: View)
    requires Trapped(v)
    ensures CursorOf(v) == ShowNode(EXTRA, None)
    ensures forall a :: Submit(v, "extra", a).Ok? ==> Trapped(Submit(v, "extra", a).value)
  {
    hide ById, BodyOf;
    TrapNodes();
    DecisionAt(v, "loop");
    DecisionAt(v, "extra");
    assert Decide(v, LOOP) == Pass("extra");
    FollowStep(Decisions(v), "loop", {});
  }

  /** A client gets there from a fresh session by answering what is shown, twice over. */
  lemma ClientIsTrapped(a: Answer, b: Answer) returns (v0: View, v1: View, v2: View, v3: View, v4: View)
    requires a.Text? && b.Text?
    ensures v0 == View(TRAP, map[], map[], Issued) && CursorOf(v0) == ShowNode(FIRST, Some(LoopContext("loop", 0)))
    ensures Submit(v0, "first", a) == Ok(v1) && CursorOf(v1) == ShowLoopStep("loop", 0)
    ensures StepLoop(v1, "loop", Continue) == Ok(v2) && CursorOf(v2) == ShowNode(FIRST, Some(LoopContext("loop", 1)))
    ensures Submit(v2, "first", b) == Ok(v3) && CursorOf(v3) == ShowLoopStep("loop", 1)
    ensures StepLoop(v3, "loop", Done) == Ok(v4) && Trapped(v4)
  {
    hide ById, BodyOf, Follow, CursorOf;
    TrapNodes();
    v0 := View(TRAP, map[], map[], Issued);
    v1 := Submit(v0, "first", a).value;
    v2 := StepLoop(v1, "loop", Continue).value;
    v3 := Submit(v2, "first", b).value;
    v4 := StepLoop(v3, "loop", Done).value;
    TrapShows(v0, 0);
    TrapShows(v1, 0);
    TrapShows(v2, 1);
    TrapShows(v3, 1);
  }

  /** The progress laws at work on that client: an answer inside the loop and the final done both
      take the walk further. */
  lemma ClientProgresses(a: Answer, b: Answer) returns (v0: View, v1: View, v3: View, v4: View)
    requires a.Text? && b.Text?
    ensures v0 == View(TRAP, map[], map[], Issued) && GoesFurther(v0, v1)
    ensures CursorOf(v3) == ShowLoopStep("loop", 1) && GoesFurther(v3, v4)
  {
    hide ById, BodyOf, CursorOf, Submit, GoesFurther, KeepsTrail, TopWalk, UniqueIds, ResolveNext;
    var v2;
    v0, v1, v2, v3, v4 := ClientIsTrapped(a, b);
    TrapNodes();
    AnswerExtends(v0, v1, a);
    LoopHasRule();
    DoneExtends(v3, v4);
  }

  lemma LoopHasRule()
    ensures !ResolveNext(LOOP, Text("")).Invalid?
  {
  }

  /** While the loop iterates, its first child is shown until answered, and then the loop step. */
  lemma TrapShows(v: View, iter: nat)
    requires v.t == TRAP && !IsDone(v.loops, "loop") && IterOf(v.loops, "loop") == iter
    ensures CursorOf(v) == if ("first", iter) in v.answers then ShowLoopStep("loop", iter)
                           else ShowNode(FIRST, Some(LoopContext("loop", iter)))
  {
    hide ById, BodyOf, BodyOutcome, IsDone;
    TrapNodes();
    TrapBody();
    TrapOutcome(v.answers, iter);
    DecisionAt(v, "loop");
    assert Decide(v, LOOP).Halt?;
  }

  lemma TrapOutcome(answers: Answers, iter: nat)
    ensures BodyOutcome(TRAP, "loop", answers, iter) == if ("first", iter) in answers then BodyEnd else Unanswered(FIRST)
  {
    hide ById, BodyOf;
    TrapNodes();
    TrapBody();
    var decisions := BodyDecisions(TRAP, "loop", answers, iter);
    if ("first", iter) in answers {
      assert decisions["first"] == "";
      FollowStep(decisions, "first", {});
    }
  }

  lemma TrapChildren()
    ensures ChildrenOf(TRAP.nodes, "loop") == [FIRST, EXTRA]
  {
    assert TRAP.nodes[..2] == [LOOP, FIRST];
    assert [LOOP, FIRST][..1] == [LOOP];
    assert [LOOP][..0] == [];
    assert ChildrenOf([LOOP], "loop") == [];
    assert ChildrenOf([LOOP, FIRST], "loop") == [FIRST];
  }

  lemma TrapBody()
    ensures BodyOf(TRAP.nodes, "loop") == [FIRST, EXTRA]
  {
    hide ChildrenOf;
    TrapChildren();
    assert [FIRST, EXTRA][..1] == [FIRST];
    assert [FIRST][..0] == [];
    assert SortByPosition([FIRST]) == [FIRST];
  }
}
