/**
 Progress of the gathering session: accepting what the cursor shows always extends the walked
 trail, and so a client who never adds an iteration reaches the end within a known number of steps.
 */
module Progress {
  import opened Wrappers
  import opened Chase
  import opened Engine
  import opened Bodies
  import opened Gathering

  // ── Which decisions a write can change ────────────────────────────────────

  /** The two views agree on every answer a node's decision looks at. */
  ghost predicate SameInputs(v: View, w: View, n: Node) {
    if n.nodeType.Loop? then
      && IsDone(v.loops, n.id) == IsDone(w.loops, n.id)
      && (!IsDone(v.loops, n.id) ==>
            && IterOf(v.loops, n.id) == IterOf(w.loops, n.id)
            && forall id :: id in BodyIds(v.t, n.id) ==> SameAnswer(v, w, id, IterOf(v.loops, n.id)))
    else SameAnswer(v, w, n.id, 0)
  }

  predicate SameAnswer(v: View, w: View, id: string, iter: nat) {
    && ((id, iter) in v.answers <==> (id, iter) in w.answers)
    && ((id, iter) in v.answers ==> v.answers[(id, iter)] == w.answers[(id, iter)])
  }

  lemma SameInputsSameDecision(v: View, w: View, n: Node)
    requires v.t == w.t && SameInputs(v, w, n)
    ensures Decide(v, n) == Decide(w, n)
  {
    hide ById, BodyOf, ResolveNext;
    if n.nodeType.Loop? && !IsDone(v.loops, n.id) {
      var iter := IterOf(v.loops, n.id);
      assert BodyDecisions(v.t, n.id, v.answers, iter) == BodyDecisions(w.t, n.id, w.answers, iter) by {
        assert forall id :: id in BodyIds(v.t, n.id) ==> SameAnswer(v, w, id, iter);
      }
      SameBodyOutcome(v.t, n.id, v.answers, w.answers, iter);
    }
  }

  lemma SameBodyOutcome(t: Template, loopId: string, a: Answers, b: Answers, iter: nat)
    requires BodyDecisions(t, loopId, a, iter) == BodyDecisions(t, loopId, b, iter)
    requires forall id :: id in BodyIds(t, loopId) ==> ((id, iter) in a <==> (id, iter) in b)
    ensures BodyOutcome(t, loopId, a, iter) == BodyOutcome(t, loopId, b, iter)
  {
    hide ById, BodyOf, Follow;
  }

  lemma DecisionAt(v: View, id: string)
    ensures id in Decisions(v) <==> id in ById(v.t.nodes) && id != "" && Decide(v, ById(v.t.nodes)[id]).Pass?
    ensures id in Decisions(v) ==> Decisions(v)[id] == Decide(v, ById(v.t.nodes)[id]).next
  {
    hide ById, Decide;
  }

  /** The trail of one view is decided the same way in the other. */
  ghost predicate KeepsTrail(v: View, w: View) {
    Keeps(Decisions(v), Decisions(w), TopWalk(v).trail)
  }

  lemma DecisionsKeepTrail(v: View, w: View)
    requires v.t == w.t
    requires forall id :: id in TopWalk(v).trail && id in ById(v.t.nodes) ==> Decide(v, ById(v.t.nodes)[id]) == Decide(w, ById(v.t.nodes)[id])
    ensures KeepsTrail(v, w)
  {
    hide ById, Decide, Decisions, Follow;
    TrailIsChain(Decisions(v), v.t.root, {});
    forall id | id in TopWalk(v).trail
      ensures id in Decisions(v) && id in Decisions(w) && Decisions(w)[id] == Decisions(v)[id]
    {
      DecisionAt(v, id);
      DecisionAt(w, id);
    }
  }

  lemma SameInputsKeepTrail(v: View, w: View)
    requires v.t == w.t
    requires forall id :: id in TopWalk(v).trail && id in ById(v.t.nodes) ==> SameInputs(v, w, ById(v.t.nodes)[id])
    ensures KeepsTrail(v, w)
  {
    hide ById, Decide, TopWalk, SameInputs;
    forall id | id in TopWalk(v).trail && id in ById(v.t.nodes)
      ensures Decide(v, ById(v.t.nodes)[id]) == Decide(w, ById(v.t.nodes)[id])
    {
      SameInputsSameDecision(v, w, ById(v.t.nodes)[id]);
    }
    DecisionsKeepTrail(v, w);
  }

  // ── Where the walk stands ─────────────────────────────────────────────────

  /** The node the walk stopped at, when it has something to show. */
  lemma StandsAt(v: View)
    requires !CursorOf(v).AtEnd?
    ensures var w := TopWalk(v);
      && w.stop !in w.trail && w.stop != "" && w.stop in ById(v.t.nodes)
      && Decide(v, ById(v.t.nodes)[w.stop]) == Halt(CursorOf(v))
  {
    hide ById, Follow, Decide;
    TrailIsChain(Decisions(v), v.t.root, {});
    DecisionAt(v, TopWalk(v).stop);
  }

  /** The unanswered child a body walk stopped at. */
  lemma UnansweredChild(t: Template, loopId: string, answers: Answers, iter: nat)
    requires UniqueIds(t) && BodyOutcome(t, loopId, answers, iter).Unanswered?
    ensures var n := BodyOutcome(t, loopId, answers, iter).node;
      && n.id in ById(t.nodes) && ById(t.nodes)[n.id] == n
      && n.id != "" && n.id in BodyIds(t, loopId) && n.parent == loopId && (n.id, iter) !in answers
      && BodyOf(t.nodes, loopId) != []
      && n.id == BodyTrail(t, loopId, answers, iter).stop && n.id !in BodyTrail(t, loopId, answers, iter).trail
  {
    hide BodyTrail, BodyDecisions;
    var b :| b in BodyOf(t.nodes, loopId) && b.id == BodyTrail(t, loopId, answers, iter).stop;
    UniqueLookup(t.nodes, b);
  }

  /** The two ways a node can be what stops the walk: on its own, or as a child of the loop. */
  ghost predicate ShowsAlone(v: View, at: Node, c: Cursor) {
    && c == ShowNode(at, None)
    && (at.nodeType.Loop? ==> ResolveNext(at, Text("")).Invalid?)
    && (!at.nodeType.Loop? && (at.id, 0) in v.answers ==> ResolveNext(at, v.answers[(at.id, 0)]).Invalid?)
  }

  ghost predicate ShowsChild(v: View, at: Node, c: Cursor) {
    && c.ShowNode? && c.context == Some(LoopContext(at.id, IterOf(v.loops, at.id)))
    && at.nodeType.Loop? && !IsDone(v.loops, at.id)
    && BodyOutcome(v.t, at.id, v.answers, IterOf(v.loops, at.id)) == Unanswered(c.node)
  }

  lemma HaltsShowing(v: View, at: Node)
    requires Decide(v, at).Halt? && Decide(v, at).cursor.ShowNode?
    ensures ShowsAlone(v, at, Decide(v, at).cursor) || ShowsChild(v, at, Decide(v, at).cursor)
  {
    hide BodyOf, BodyOutcome, ResolveNext;
  }

  /** A node shown without loop context is the one the walk stopped at; one shown with context
      is an unanswered child of the loop the walk stopped at. */
  lemma ShownNode(v: View)
    requires UniqueIds(v.t) && CursorOf(v).ShowNode?
    ensures var byId := ById(v.t.nodes); var n := CursorOf(v).node; var stop := TopWalk(v).stop;
      && stop != "" && stop in byId && n.id in byId && byId[n.id] == n
      && if CursorOf(v).context.None? then ShowsAlone(v, byId[stop], CursorOf(v))
         else ShowsChild(v, byId[stop], CursorOf(v))
  {
    hide Follow, CursorOf, TopWalk, BodyOutcome, BodyOf, ResolveNext, Decide;
    StandsAt(v);
    HaltsShowing(v, ById(v.t.nodes)[TopWalk(v).stop]);
    if CursorOf(v).context.Some? {
      UnansweredChild(v.t, TopWalk(v).stop, v.answers, IterOf(v.loops, TopWalk(v).stop));
    }
  }

  lemma ShownChild(v: View)
    requires UniqueIds(v.t) && CursorOf(v).ShowNode? && CursorOf(v).context.Some?
    ensures var n := CursorOf(v).node; var loopId := TopWalk(v).stop; var iter := IterOf(v.loops, loopId);
      && n.id != "" && n.id in BodyIds(v.t, loopId) && n.parent == loopId && (n.id, iter) !in v.answers
      && BodyOf(v.t.nodes, loopId) != []
      && n.id == BodyTrail(v.t, loopId, v.answers, iter).stop && n.id !in BodyTrail(v.t, loopId, v.answers, iter).trail
  {
    hide CursorOf, TopWalk, BodyOutcome, BodyIds, BodyOf, BodyTrail, ById;
    ShownNode(v);
    UnansweredChild(v.t, TopWalk(v).stop, v.answers, IterOf(v.loops, TopWalk(v).stop));
  }

  lemma ShownStep(v: View)
    requires CursorOf(v).ShowLoopStep?
    ensures var loopId := CursorOf(v).loopId; var byId := ById(v.t.nodes);
      && loopId == TopWalk(v).stop && loopId in byId && byId[loopId].nodeType.Loop?
      && !IsDone(v.loops, loopId) && CursorOf(v).iter == IterOf(v.loops, loopId)
  {
    hide Follow, CursorOf, TopWalk, ById, BodyOf;
    StandsAt(v);
  }

  // ── One accepted step ─────────────────────────────────────────────────────

  /** What the cursor shows can be written where it is read: a body node is only ever shown
      inside its loop. */
  predicate Proper(c: Cursor) {
    c.ShowNode? ==> c.context.Some? || c.node.parent == ""
  }

  datatype Move = Respond(answer: Answer) | Finish

  /** Answering the shown node, or choosing "done" at the shown loop step. */
  function Advance(v: View, m: Move): Option<View> {
    match (CursorOf(v), m)
    case (ShowNode(n, _), Respond(a)) =>
      var r := Submit(v, n.id, a);
      if r.Ok? then Some(r.value) else None
    case (ShowLoopStep(loopId, _), Finish) =>
      var r := StepLoop(v, loopId, Done);
      if r.Ok? then Some(r.value) else None
    case _ => None
  }

  /** The write of an accepted answer, in terms of what was shown. */
  lemma AcceptedWrite(v: View, a: Answer)
    requires UniqueIds(v.t) && CursorOf(v).ShowNode? && Proper(CursorOf(v))
    requires Submit(v, CursorOf(v).node.id, a).Ok?
    ensures var w := Submit(v, CursorOf(v).node.id, a).value; var n := CursorOf(v).node;
      var iter := if CursorOf(v).context.Some? then CursorOf(v).context.value.iter else 0;
      && w.t == v.t && !(CursorOf(v).context.None? && n.nodeType.Loop?)
      && w.answers == v.answers[(n.id, iter) := Persisted(n, a)]
      && !ResolveNext(n, Persisted(n, a)).Invalid?
      && (forall id :: IterOf(w.loops, id) == IterOf(v.loops, id) && IsDone(w.loops, id) == IsDone(v.loops, id))
  {
    hide ById, CursorOf, TopWalk, BodyIds, BodyOf, ResolveNext, BodyTrail, BodyOutcome;
    ShownNode(v);
    if CursorOf(v).context.Some? {
      ShownChild(v);
    }
  }

  /** Everything decided before the shown node keeps its decision. */
  lemma AnswerKeepsTrail(v: View, w: View, a: Answer)
    requires UniqueIds(v.t) && CursorOf(v).ShowNode? && Proper(CursorOf(v))
    requires Submit(v, CursorOf(v).node.id, a) == Ok(w)
    ensures KeepsTrail(v, w)
  {
    hide *;
    var byId := ById(v.t.nodes);
    AcceptedWrite(v, a);
    forall id | id in TopWalk(v).trail && id in byId ensures SameInputs(v, w, byId[id]) {
      EarlierUntouched(v, w, a, id);
    }
    SameInputsKeepTrail(v, w);
  }

  /** A write at (n, iter) is invisible to every loop that is not n's parent, and to every other question. */
  lemma WriteMisses(v: View, w: View, x: Node, n: Node, iter: nat, a: Answer)
    requires UniqueIds(v.t) && n.id in ById(v.t.nodes) && ById(v.t.nodes)[n.id] == n
    requires w.t == v.t && w.answers == v.answers[(n.id, iter) := a]
    requires IterOf(w.loops, x.id) == IterOf(v.loops, x.id) && IsDone(w.loops, x.id) == IsDone(v.loops, x.id)
    requires if x.nodeType.Loop? then n.parent != x.id else x.id != n.id || iter != 0
    ensures SameInputs(v, w, x)
  {
    hide BodyIds, ById, IterOf, IsDone;
    if x.nodeType.Loop? && !IsDone(v.loops, x.id) {
      forall b | b in BodyIds(v.t, x.id) ensures SameAnswer(v, w, b, IterOf(v.loops, x.id)) {
        BodyIdParent(v.t, x.id, b);
      }
    }
  }

  lemma EarlierUntouched(v: View, w: View, a: Answer, id: string)
    requires UniqueIds(v.t) && CursorOf(v).ShowNode? && Proper(CursorOf(v))
    requires Submit(v, CursorOf(v).node.id, a) == Ok(w)
    requires id in TopWalk(v).trail && id in ById(v.t.nodes)
    ensures SameInputs(v, w, ById(v.t.nodes)[id])
  {
    hide CursorOf, TopWalk, ResolveNext, Submit, BodyOutcome, ById, BodyIds, BodyOf, BodyTrail, IterOf, IsDone, Persisted,
         SameInputs, SameAnswer, Decisions, Decide, Follow;
    var n := CursorOf(v).node;
    var iter := if CursorOf(v).context.Some? then CursorOf(v).context.value.iter else 0;
    StandsAt(v);
    ShownNode(v);
    AcceptedWrite(v, a);
    TrailPasses(v, id);
    if CursorOf(v).context.Some? {
      ShownChild(v);
    }
    if id == n.id && !n.nodeType.Loop? {
      PassedIsAnswered(v, id);
    }
    WriteMisses(v, w, ById(v.t.nodes)[id], n, iter, Persisted(n, a));
  }

  lemma BodyIdParent(t: Template, loopId: string, id: string)
    requires UniqueIds(t) && id in BodyIds(t, loopId)
    ensures id in ById(t.nodes) && ById(t.nodes)[id].parent == loopId
  {
    var m :| m in BodyOf(t.nodes, loopId) && m.id == id;
    UniqueLookup(t.nodes, m);
  }

  lemma TrailPasses(v: View, id: string)
    requires id in TopWalk(v).trail
    ensures id in ById(v.t.nodes) && id != "" && Decide(v, ById(v.t.nodes)[id]).Pass?
  {
    hide ById, Decide, Follow;
    TrailIsChain(Decisions(v), v.t.root, {});
    DecisionAt(v, id);
  }

  lemma PassedIsAnswered(v: View, id: string)
    requires id in TopWalk(v).trail && id in ById(v.t.nodes) && !ById(v.t.nodes)[id].nodeType.Loop?
    ensures (id, 0) in v.answers
  {
    hide ById, TopWalk;
    TrailPasses(v, id);
  }

  /** The walk of `w` goes strictly further than that of `v`: past the node where `v` stopped,
      or further inside the loop iteration where `v` stopped. */
  ghost predicate GoesFurther(v: View, w: View) {
    var top := TopWalk(v);
    || top.trail + [top.stop] <= TopWalk(w).trail
    || (&& TopWalk(w) == top && BodyOf(v.t.nodes, top.stop) != []
        && var iter := IterOf(v.loops, top.stop);
           var body := BodyTrail(v.t, top.stop, v.answers, iter);
           body.trail + [body.stop] <= BodyTrail(v.t, top.stop, w.answers, iter).trail)
  }

  lemma TopGrows(v: View, w: View)
    requires v.t == w.t && KeepsTrail(v, w)
    requires var top := TopWalk(v); top.stop !in top.trail && top.stop in Decisions(w)
    ensures GoesFurther(v, w)
  {
    hide Follow, Decisions, BodyTrail, BodyOf;
    FollowGrows(Decisions(v), Decisions(w), v.t.root);
  }

  /** An accepted answer to the shown node strictly extends the walked trail, and everything
      on the trail keeps its decision. */
  lemma AnswerExtends(v: View, w: View, a: Answer)
    requires UniqueIds(v.t) && CursorOf(v).ShowNode? && Proper(CursorOf(v))
    requires Submit(v, CursorOf(v).node.id, a) == Ok(w)
    ensures KeepsTrail(v, w) && GoesFurther(v, w)
  {
    hide CursorOf, TopWalk, BodyTrail, ResolveNext, Submit, Decisions, KeepsTrail, GoesFurther, Follow, ById, BodyOf;
    StandsAt(v);
    ShownNode(v);
    AcceptedWrite(v, a);
    AnswerKeepsTrail(v, w, a);
    var top := TopWalk(v);
    DecisionAt(w, top.stop);
    if top.stop in Decisions(w) {
      TopGrows(v, w);
    } else {
      BodyGrows(v, w, a);
    }
  }

  lemma BodyGrows(v: View, w: View, a: Answer)
    requires UniqueIds(v.t) && CursorOf(v).ShowNode? && Proper(CursorOf(v))
    requires Submit(v, CursorOf(v).node.id, a) == Ok(w)
    requires KeepsTrail(v, w) && TopWalk(v).stop !in Decisions(w)
    ensures GoesFurther(v, w)
  {
    hide CursorOf, ResolveNext, Submit, Follow, ById, BodyOf;
    StandsAt(v);
    ShownNode(v);
    AcceptedWrite(v, a);
    DecisionAt(w, TopWalk(v).stop);
    var n, loopId := CursorOf(v).node, TopWalk(v).stop;
    var iter := IterOf(v.loops, loopId);
    ShownChild(v);
    FollowSame(Decisions(v), Decisions(w), v.t.root);
    var was, now := BodyDecisions(v.t, loopId, v.answers, iter), BodyDecisions(v.t, loopId, w.answers, iter);
    BodyDecisionsGrow(v.t, loopId, v.answers, iter, n, Persisted(n, a));
    var entry := BodyOf(v.t.nodes, loopId)[0].id;
    TrailIsChain(was, entry, {});
    FollowGrows(was, now, entry);
  }

  lemma BodyDecisionsGrow(t: Template, loopId: string, answers: Answers, iter: nat, n: Node, a: Answer)
    requires n.id in ById(t.nodes) && ById(t.nodes)[n.id] == n && n.id != "" && n.id in BodyIds(t, loopId)
    requires !ResolveNext(n, a).Invalid?
    ensures BodyDecisions(t, loopId, answers[(n.id, iter) := a], iter)
         == BodyDecisions(t, loopId, answers, iter)[n.id := Target(ResolveNext(n, a))]
  {
    hide ById, BodyIds, ResolveNext;
  }

  /** Choosing "done" at the shown loop step walks past the loop, if a rule of the loop matches. */
  lemma DoneExtends(v: View, w: View)
    requires UniqueIds(v.t) && CursorOf(v).ShowLoopStep?
    requires StepLoop(v, CursorOf(v).loopId, Done) == Ok(w)
    ensures KeepsTrail(v, w)
    ensures !ResolveNext(ById(v.t.nodes)[CursorOf(v).loopId], Text("")).Invalid? ==> GoesFurther(v, w)
  {
    hide CursorOf, ResolveNext, Follow, ById, BodyOf, Decisions, TopWalk, BodyTrail, GoesFurther, KeepsTrail;
    StandsAt(v);
    ShownStep(v);
    var byId := ById(v.t.nodes);
    forall id | id in TopWalk(v).trail && id in byId ensures SameInputs(v, w, byId[id]) {
    }
    SameInputsKeepTrail(v, w);
    DecisionAt(w, TopWalk(v).stop);
    if !ResolveNext(byId[CursorOf(v).loopId], Text("")).Invalid? {
      TopGrows(v, w);
    }
  }

  // ── One more iteration ────────────────────────────────────────────────────

  /** The body walk of an iteration nobody has answered yet stops at the body's first node. */
  lemma EmptyIteration(t: Template, loopId: string, answers: Answers, iter: nat)
    requires UniqueIds(t) && BodyOf(t.nodes, loopId) != []
    requires forall id :: id in BodyIds(t, loopId) ==> (id, iter) !in answers
    ensures BodyOutcome(t, loopId, answers, iter) == Unanswered(BodyOf(t.nodes, loopId)[0])
  {
    hide ById, BodyOf;
    var entry := BodyOf(t.nodes, loopId)[0];
    UniqueLookup(t.nodes, entry);
    assert entry.id in BodyIds(t, loopId);
  }

  /** Choosing "continue" at the shown loop step opens the next iteration at the body's first node,
      with every earlier decision kept. */
  lemma ContinueOpensIteration(v: View, w: View)
    requires UniqueIds(v.t) && CursorOf(v).ShowLoopStep?
    requires StepLoop(v, CursorOf(v).loopId, Continue) == Ok(w)
    requires forall id :: id in BodyIds(v.t, CursorOf(v).loopId) ==> (id, CursorOf(v).iter + 1) !in v.answers
    ensures KeepsTrail(v, w) && BodyOf(v.t.nodes, CursorOf(v).loopId) != []
    ensures CursorOf(w) == ShowNode(BodyOf(v.t.nodes, CursorOf(v).loopId)[0],
                                    Some(LoopContext(CursorOf(v).loopId, CursorOf(v).iter + 1)))
  {
    hide CursorOf, ResolveNext, Follow, ById, BodyOf, BodyIds, BodyOutcome, Decisions, TopWalk, BodyTrail, KeepsTrail, Decide;
    StandsAt(v);
    ShownStep(v);
    var loopId, iter := CursorOf(v).loopId, CursorOf(v).iter;
    forall id | id in TopWalk(v).trail && id in ById(v.t.nodes) ensures SameInputs(v, w, ById(v.t.nodes)[id]) {
    }
    SameInputsKeepTrail(v, w);
    StepHasBody(v, ById(v.t.nodes)[loopId]);
    EmptyIteration(v.t, loopId, v.answers, iter + 1);
    OpenLoop(w, ById(v.t.nodes)[loopId], iter + 1);
    StoppedAlike(v, w);
  }

  lemma StepHasBody(v: View, loop: Node)
    requires Decide(v, loop).Halt? && Decide(v, loop).cursor.ShowLoopStep?
    ensures BodyOf(v.t.nodes, loop.id) != []
  {
    hide BodyOf, BodyOutcome, ResolveNext;
  }

  lemma OpenLoop(w: View, loop: Node, iter: nat)
    requires loop.nodeType.Loop? && loop.id in w.loops && w.loops[loop.id] == LoopCursor(iter, false)
    requires BodyOf(w.t.nodes, loop.id) != [] && BodyOutcome(w.t, loop.id, w.answers, iter).Unanswered?
    ensures Decide(w, loop) == Halt(ShowNode(BodyOutcome(w.t, loop.id, w.answers, iter).node, Some(LoopContext(loop.id, iter))))
  {
    hide BodyOf, BodyOutcome, ResolveNext;
  }

  /** With the trail kept and the node it stopped at still halting, the walk stops there again. */
  lemma StoppedAlike(v: View, w: View)
    requires v.t == w.t && KeepsTrail(v, w) && !CursorOf(v).AtEnd?
    requires var stop := TopWalk(v).stop; stop in ById(v.t.nodes) && Decide(w, ById(v.t.nodes)[stop]).Halt?
    ensures CursorOf(w) == Decide(w, ById(v.t.nodes)[TopWalk(v).stop]).cursor
  {
    hide ById, Follow, Decide, Decisions;
    StandsAt(v);
    DecisionAt(w, TopWalk(v).stop);
    FollowSame(Decisions(v), Decisions(w), v.t.root);
  }
}
