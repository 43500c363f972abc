/**
 Whole client runs: how many accepted steps can a client take before the template ends?
 */
module ClientRuns {
  import opened Wrappers
  import opened Chase
  import opened Engine
  import opened Bodies
  import opened Gathering
  import opened Progress

  // ── The work left ─────────────────────────────────────────────────────────

  /** A question still to settle, or a loop still to be declared done. */
  datatype OpenItem = AnswerTop(id: string) | AnswerBody(id: string) | FinishLoop(id: string)

  predicate TopPending(v: View, n: Node) {
    && !n.nodeType.Loop? && n.parent == ""
    && ((n.id, 0) in v.answers ==> ResolveNext(n, v.answers[(n.id, 0)]).Invalid?)
  }

  predicate LoopPending(v: View, n: Node) {
    n.nodeType.Loop? && !IsDone(v.loops, n.id)
  }

  predicate BodyPending(v: View, byId: map<string, Node>, n: Node) {
    && n.parent in byId && LoopPending(v, byId[n.parent])
    && (n.id, IterOf(v.loops, n.parent)) !in v.answers
  }

  /** The unsettled top-level questions, and for each unfinished loop one item for the loop and
      one for each child unanswered at its current iteration. */
  function OpenItems(v: View): set<OpenItem> {
    var byId := ById(v.t.nodes);
    (set id | id in byId && TopPending(v, byId[id]) :: AnswerTop(id))
    + (set id | id in byId && LoopPending(v, byId[id]) :: FinishLoop(id))
    + (set id | id in byId && BodyPending(v, byId, byId[id]) :: AnswerBody(id))
  }

  predicate IsOpen(v: View, item: OpenItem) {
    var byId := ById(v.t.nodes);
    && item.id in byId
    && match item
       case AnswerTop(id) => TopPending(v, byId[id])
       case FinishLoop(id) => LoopPending(v, byId[id])
       case AnswerBody(id) => BodyPending(v, byId, byId[id])
  }

  lemma OpenItemIff(v: View, item: OpenItem)
    ensures item in OpenItems(v) <==> IsOpen(v, item)
  {
    hide ById, TopPending, LoopPending, BodyPending;
  }

  /** Every accepted step settles an open item for good and adds none. */
  lemma StepSettles(v: View, m: Move)
    requires UniqueIds(v.t) && Proper(CursorOf(v)) && Advance(v, m).Some?
    ensures Advance(v, m).value.t == v.t
    ensures OpenItems(Advance(v, m).value) < OpenItems(v)
  {
    hide ById, CursorOf, OpenItems, Submit, StepLoop;
    var w := Advance(v, m).value;
    if m.Respond? {
      AnswerSettles(v, w, m.answer);
    } else {
      DoneSettles(v, w);
    }
  }

  lemma AnswerSettles(v: View, w: View, a: Answer)
    requires UniqueIds(v.t) && CursorOf(v).ShowNode? && Proper(CursorOf(v))
    requires Submit(v, CursorOf(v).node.id, a) == Ok(w)
    ensures w.t == v.t && OpenItems(w) < OpenItems(v)
  {
    hide ById, CursorOf, OpenItems, Submit, TopWalk, BodyIds, BodyOf, BodyTrail, BodyOutcome, ResolveNext, Persisted, IterOf, IsDone;
    ShownNode(v);
    AcceptedWrite(v, a);
    if CursorOf(v).context.Some? {
      ShownChild(v);
    }
    var n := CursorOf(v).node;
    forall item | item in OpenItems(w) ensures item in OpenItems(v) {
      OpenItemIff(v, item);
      OpenItemIff(w, item);
    }
    var settled := if CursorOf(v).context.Some? then AnswerBody(n.id) else AnswerTop(n.id);
    OpenItemIff(v, settled);
    OpenItemIff(w, settled);
  }

  lemma DoneSettles(v: View, w: View)
    requires UniqueIds(v.t) && CursorOf(v).ShowLoopStep?
    requires StepLoop(v, CursorOf(v).loopId, Done) == Ok(w)
    ensures w.t == v.t && OpenItems(w) < OpenItems(v)
  {
    hide ById, CursorOf, OpenItems, TopWalk, ResolveNext;
    ShownStep(v);
    forall item | item in OpenItems(w) ensures item in OpenItems(v) {
      OpenItemIff(v, item);
      OpenItemIff(w, item);
    }
    OpenItemIff(v, FinishLoop(CursorOf(v).loopId));
    OpenItemIff(w, FinishLoop(CursorOf(v).loopId));
  }

  lemma SmallerSet<T>(a: set<T>, b: set<T>)
    requires a < b
    ensures |a| < |b|
  {
    assert !(b <= a);
    var x :| x in b && x !in a;
    SubsetSize(a, b - {x});
  }

  lemma SubsetSize<T>(a: set<T>, b: set<T>)
    requires a <= b
    ensures |a| <= |b|
  {
    if a != {} {
      var x :| x in a;
      SubsetSize(a - {x}, b - {x});
    }
  }

  // ── Templates whose top level never enters a body ─────────────────────────

  /** The root is top-level, and the rules of top-level nodes lead to top-level nodes only. */
  ghost predicate TopLevelClosed(t: Template) {
    var byId := ById(t.nodes);
    && (t.root in byId ==> byId[t.root].parent == "")
    && forall n, r :: n in t.nodes && n.parent == "" && r in n.rules && r.goto != END_NODE && r.goto in byId ==> byId[r.goto].parent == ""
  }

  lemma {:induction false} TopLevelTrail(v: View, i: nat)
    requires TopLevelClosed(v.t) && i < |TopWalk(v).trail|
    ensures var byId := ById(v.t.nodes); var w := TopWalk(v);
      && w.trail[i] in byId && byId[w.trail[i]].parent == ""
      && (After(w, i) in byId && After(w, i) != "" ==> byId[After(w, i)].parent == "")
  {
    hide Follow, ById, DecideLoop;
    var byId := ById(v.t.nodes);
    var w := TopWalk(v);
    TrailIsChain(Decisions(v), v.t.root, {});
    TrailPasses(v, w.trail[i]);
    DecisionAt(v, w.trail[i]);
    if i == 0 {
    } else {
      TopLevelTrail(v, i - 1);
      assert After(w, i - 1) == w.trail[i];
    }
    if After(w, i) != "" {
      PassIsGoto(v, byId[w.trail[i]]);
    }
  }

  /** Whatever the reason a node passes, it passes along one of its own rules. */
  lemma PassIsGoto(v: View, n: Node)
    requires Decide(v, n).Pass? && Decide(v, n).next != ""
    ensures exists r :: r in n.rules && r.goto == Decide(v, n).next && r.goto != END_NODE
  {
    hide BodyOf, BodyOutcome;
    ResolvesToFirstMatch(n.rules, Text(""));
    if (n.id, 0) in v.answers {
      ResolvesToFirstMatch(n.rules, v.answers[(n.id, 0)]);
    }
  }

  /** On such templates every cursor is proper, whatever the answers and loop cursors are. */
  lemma TopLevelClosedIsProper(v: View)
    requires UniqueIds(v.t) && TopLevelClosed(v.t)
    ensures Proper(CursorOf(v))
  {
    hide Follow, CursorOf, TopWalk, ById, BodyOutcome, ResolveNext;
    if CursorOf(v).ShowNode? && CursorOf(v).context.None? {
      ShownNode(v);
      TrailIsChain(Decisions(v), v.t.root, {});
      var w := TopWalk(v);
      if w.trail != [] {
        TopLevelTrail(v, |w.trail| - 1);
      }
      StopOrRoot(v);
    }
  }

  lemma StopOrRoot(v: View)
    ensures TopWalk(v).trail == [] ==> TopWalk(v).stop == v.t.root
  {
  }

  // ── Runs ──────────────────────────────────────────────────────────────────

  /** A run of accepted steps; None if some step is refused. */
  function Run(v: View, moves: seq<Move>): Option<View>
    decreases |moves|
  {
    if moves == [] then Some(v)
    else
      var w := Advance(v, moves[0]);
      if w.None? then None else Run(w.value, moves[1..])
  }

  /** No run is longer than the number of open items it settles. */
  lemma {:induction false} RunSettles(v: View, moves: seq<Move>)
    requires UniqueIds(v.t) && TopLevelClosed(v.t) && Run(v, moves).Some?
    ensures Run(v, moves).value.t == v.t
    ensures |moves| + |OpenItems(Run(v, moves).value)| <= |OpenItems(v)|
    decreases |moves|
  {
    hide OpenItems, Advance, UniqueIds, TopLevelClosed, CursorOf;
    if moves == [] {
    } else {
      var w := Advance(v, moves[0]).value;
      TopLevelClosedIsProper(v);
      StepSettles(v, moves[0]);
      SmallerSet(OpenItems(w), OpenItems(v));
      RunSettles(w, moves[1..]);
    }
  }

  /** Every loop has a rule that matches its blank answer. */
  ghost predicate LoopsLeave(t: Template) {
    forall n :: n in t.nodes && n.nodeType.Loop? ==> !ResolveNext(n, Text("")).Invalid?
  }

  /** Something is left to do as long as something is shown. */
  lemma ShownMeansOpenItem(v: View)
    requires UniqueIds(v.t) && LoopsLeave(v.t) && Proper(CursorOf(v)) && !CursorOf(v).AtEnd?
    ensures OpenItems(v) != {}
  {
    hide CursorOf, TopWalk, ById, BodyOutcome, ResolveNext, OpenItems, BodyIds, BodyOf, BodyTrail;
    if CursorOf(v).ShowLoopStep? {
      ShownStep(v);
      OpenItemIff(v, FinishLoop(CursorOf(v).loopId));
    } else {
      ShownNode(v);
      if CursorOf(v).context.Some? {
        ShownChild(v);
        OpenItemIff(v, AnswerBody(CursorOf(v).node.id));
      } else {
        OpenItemIff(v, AnswerTop(CursorOf(v).node.id));
      }
    }
  }

  /** A client who only answers what is shown and says "done" at every loop step is at the end
      once the run is as long as the work it started with: it can never be asked for more. */
  lemma RunReachesEnd(v: View, moves: seq<Move>)
    requires UniqueIds(v.t) && TopLevelClosed(v.t) && LoopsLeave(v.t) && Run(v, moves).Some?
    ensures |moves| <= |OpenItems(v)|
    ensures CursorOf(Run(v, moves).value).AtEnd? || |moves| < |OpenItems(v)|
  {
    hide OpenItems, Advance, UniqueIds, TopLevelClosed, CursorOf, LoopsLeave, Run;
    RunSettles(v, moves);
    var w := Run(v, moves).value;
    if !CursorOf(w).AtEnd? {
      TopLevelClosedIsProper(w);
      ShownMeansOpenItem(w);
    }
  }

  /** Every question accepts some answer. */
  ghost predicate Answerable(t: Template) {
    forall n :: n in t.nodes && !n.nodeType.Loop? ==>
      exists a :: (StoresBlank(n, a) || ShapeOk(n.nodeType, Persisted(n, a))) && !ResolveNext(n, Persisted(n, a)).Invalid?
  }

  /** Short of the end there is always an accepted step to take. */
  lemma NeverStuck(v: View)
    requires UniqueIds(v.t) && LoopsLeave(v.t) && Answerable(v.t) && !CursorOf(v).AtEnd?
    ensures exists m :: Advance(v, m).Some?
  {
    hide CursorOf, TopWalk, BodyOutcome, ResolveNext, BodyOf;
    if CursorOf(v).ShowLoopStep? {
      ShownStep(v);
      assert Advance(v, Finish).Some?;
    } else {
      ShownNode(v);
      var n := CursorOf(v).node;
      var a :| (n.nodeType.Loop? ==> a == Null)
               && (StoresBlank(n, a) || ShapeOk(n.nodeType, Persisted(n, a))) && !ResolveNext(n, Persisted(n, a)).Invalid?;
      assert Advance(v, Respond(a)).Some?;
    }
  }
}
