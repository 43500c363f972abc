/** What validation promises the gathering cursor, and how the cursor relates to the preview walker. */
module CursorWalk {
  import opened Wrappers
  import opened Chase
  import opened Engine
  import opened Bodies
  import opened Validator
  import opened Gathering
  import opened Progress
  import opened ClientRuns
  import Preview

  // ── Reachability ──────────────────────────────────────────────────────────

  lemma PassesAlongEdges(v: View)
    ensures Preview.EdgesOnly(ById(v.t.nodes), Decisions(v)) && "" !in Decisions(v)
  {
    hide ById, Decide;
    forall id | id in Decisions(v) && Decisions(v)[id] != "" ensures Edge(ById(v.t.nodes), id, Decisions(v)[id]) {
      PassIsGoto(v, ById(v.t.nodes)[id]);
    }
  }

  /** The cursor's walk only meets nodes the validator counts as reachable. */
  lemma CursorStaysReachable(v: View, id: string)
    requires v.t.root != ""
    requires id in TopWalk(v).trail || (id == TopWalk(v).stop && id != "")
    ensures Reachable(ById(v.t.nodes), v.t.root, id)
  {
    hide ById, Decisions, Reachable, Follow;
    PassesAlongEdges(v);
    ReachableRoot(ById(v.t.nodes), v.t.root);
    Preview.WalkIsReachable(ById(v.t.nodes), Decisions(v), v.t.root, v.t.root, id);
  }

  /** So does the walk inside a reachable loop, at any iteration. */
  lemma BodyStaysReachable(t: Template, loopId: string, answers: Answers, iter: nat, id: string)
    requires UniqueIds(t) && loopId in ById(t.nodes) && ById(t.nodes)[loopId].nodeType.Loop?
    requires Reachable(ById(t.nodes), t.root, loopId) && BodyOf(t.nodes, loopId) != []
    requires var w := BodyTrail(t, loopId, answers, iter); id in w.trail || (id == w.stop && id != "")
    ensures Reachable(ById(t.nodes), t.root, id)
  {
    hide ById, BodyOf, Follow, Reachable;
    var byId := ById(t.nodes);
    var entry := BodyOf(t.nodes, loopId)[0];
    BodyIdParent(t, loopId, entry.id);
    assert byId[entry.id] in t.nodes;
    ReachableStep(byId, t.root, loopId, entry.id);
    var next := BodyDecisions(t, loopId, answers, iter);
    forall a | a in next && next[a] != "" ensures Edge(byId, a, next[a]) {
      Preview.ResolvedIsEdge(byId, a, answers[(a, iter)]);
    }
    Preview.WalkIsReachable(byId, next, t.root, entry.id, id);
  }

  /** Whatever the responder is shown is a node of the template on a path from the root. */
  lemma ShownIsReachable(v: View)
    requires UniqueIds(v.t) && CursorOf(v).ShowNode?
    ensures CursorOf(v).node in v.t.nodes && Reachable(ById(v.t.nodes), v.t.root, CursorOf(v).node.id)
  {
    hide CursorOf, TopWalk, BodyOf, BodyOutcome, BodyTrail, Reachable, BodyIds;
    ShownNode(v);
    var stop := TopWalk(v).stop;
    RootOrTrail(v);
    CursorStaysReachable(v, stop);
    if CursorOf(v).context.Some? {
      ShownChild(v);
      BodyStaysReachable(v.t, stop, v.answers, IterOf(v.loops, stop), CursorOf(v).node.id);
    }
  }

  lemma RootOrTrail(v: View)
    requires TopWalk(v).stop != ""
    ensures v.t.root != ""
  {
    hide ById, Decide;
  }

  /** With no root issue and no dangling goto, the cursor's walk never meets a missing node. */
  lemma ClosedCursorNeverMisses(v: View)
    requires Closed(v.t)
    ensures TopWalk(v).stop == "" || TopWalk(v).stop in ById(v.t.nodes)
  {
    hide ById, Decide, Follow;
    TrailIsChain(Decisions(v), v.t.root, {});
    var w := TopWalk(v);
    if w.trail != [] && w.stop != "" {
      var last := w.trail[|w.trail| - 1];
      assert After(w, |w.trail| - 1) == w.stop;
      DecisionAt(v, last);
      PassIsGoto(v, ById(v.t.nodes)[last]);
    }
  }

  // ── The cursor refines the preview walker ─────────────────────────────────

  /** The answers of a session, as the preview walker takes them. */
  function TopAnswers(v: View): map<string, Answer> {
    var byId := ById(v.t.nodes);
    map id | id in byId && (id, 0) in v.answers :: v.answers[(id, 0)]
  }

  /** The first visited node without an answer, or the number of visited nodes. */
  function FirstOpen(v: View, ids: seq<string>): (i: nat)
    ensures i <= |ids|
    ensures forall j :: 0 <= j < i ==> (ids[j], 0) in v.answers
    ensures i < |ids| ==> (ids[i], 0) !in v.answers
  {
    if ids == [] || (ids[0], 0) !in v.answers then 0 else 1 + FirstOpen(v, ids[1..])
  }

  /** What the walked steps have to show: the first unanswered one; failing that, the last one if
      no rule matches there; and otherwise the end. */
  function ShownOf(v: View, ids: seq<string>): Cursor
    requires forall id :: id in ids ==> id in ById(v.t.nodes)
  {
    var byId := ById(v.t.nodes);
    var i := FirstOpen(v, ids);
    if i < |ids| then ShowNode(byId[ids[i]], None)
    else if ids == [] then AtEnd
    else
      var last := ids[|ids| - 1];
      if ResolveNext(byId[last], Preview.AnswerOrNull(TopAnswers(v), last)).Invalid? then ShowNode(byId[last], None) else AtEnd
  }

  /** On a template without loops the cursor is what the preview walk over the same answers has to show. */
  lemma CursorRefinesWalk(v: View)
    requires forall n :: n in v.t.nodes ==> !n.nodeType.Loop?
    ensures var ids := Preview.Visited(v.t, TopAnswers(v));
      (forall id :: id in ids ==> id in ById(v.t.nodes)) && CursorOf(v) == ShownOf(v, ids)
  {
    hide ById, Follow, Decide, ResolveNext, Decisions, Preview.Decisions, TopAnswers, FirstOpen;
    var byId := ById(v.t.nodes);
    var walked, decided := Preview.Decisions(v.t, TopAnswers(v)), Decisions(v);
    Preview.VisitedAreNodes(v.t, TopAnswers(v));
    DecidedIsAnsweredWalk(v);
    FollowRestricted(walked, decided, v.t.root, {});
    TrailIsChain(walked, v.t.root, {});
    TrailIsChain(decided, v.t.root, {});
    var w, d := Follow(walked, v.t.root, {}), Follow(decided, v.t.root, {});
    assert AllAnswered(v, d.trail);
    if |d.trail| < |w.trail| {
      var ids := Preview.Visited(v.t, TopAnswers(v));
      FirstOpenIs(v, ids, |d.trail|);
      assert d.stop !in d.trail;
      StoppedPlain(v, d.stop);
    } else {
      RefinesToTheEnd(v);
    }
  }

  /** The case where the session has decided everything the walker decides. */
  lemma RefinesToTheEnd(v: View)
    requires forall n :: n in v.t.nodes ==> !n.nodeType.Loop?
    requires TopWalk(v) == Follow(Preview.Decisions(v.t, TopAnswers(v)), v.t.root, {})
    requires AllAnswered(v, TopWalk(v).trail)
    requires forall id :: id in Preview.Visited(v.t, TopAnswers(v)) ==> id in ById(v.t.nodes)
    ensures CursorOf(v) == ShownOf(v, Preview.Visited(v.t, TopAnswers(v)))
  {
    hide ById, Follow, Decide, ResolveNext, Decisions, Preview.Decisions, TopAnswers, FirstOpen, TopWalk, AllAnswered;
    var d := TopWalk(v);
    if d.stop in d.trail || d.stop == "" || d.stop !in ById(v.t.nodes) {
      assert Preview.Visited(v.t, TopAnswers(v)) == d.trail;
      TrailShowsEnd(v, d.trail);
    } else {
      assert Preview.Visited(v.t, TopAnswers(v)) == d.trail + [d.stop];
      StopIsUndecided(v);
      StoppedPlain(v, d.stop);
      LastShows(v, d.trail, d.stop);
    }
  }

  lemma TrailShowsEnd(v: View, trail: seq<string>)
    requires trail == Follow(Preview.Decisions(v.t, TopAnswers(v)), v.t.root, {}).trail && AllAnswered(v, trail)
    requires forall id :: id in trail ==> id in ById(v.t.nodes)
    ensures ShownOf(v, trail) == AtEnd
  {
    hide ById, Follow, ResolveNext, Preview.Decisions, TopAnswers, FirstOpen;
    FirstOpenIs(v, trail, |trail|);
    if trail != [] {
      TrailIsChain(Preview.Decisions(v.t, TopAnswers(v)), v.t.root, {});
      DecidedLast(v, trail[|trail| - 1]);
    }
  }

  lemma LastShows(v: View, trail: seq<string>, stop: string)
    requires AllAnswered(v, trail) && stop in ById(v.t.nodes) && forall id :: id in trail ==> id in ById(v.t.nodes)
    requires (stop, 0) in v.answers ==> ResolveNext(ById(v.t.nodes)[stop], Preview.AnswerOrNull(TopAnswers(v), stop)).Invalid?
    ensures ShownOf(v, trail + [stop]) == ShowNode(ById(v.t.nodes)[stop], None)
  {
    hide ById, ResolveNext, TopAnswers, FirstOpen;
    FirstOpenIs(v, trail + [stop], if (stop, 0) in v.answers then |trail| + 1 else |trail|);
  }

  lemma StopIsUndecided(v: View)
    ensures TopWalk(v).stop in Decisions(v) ==> TopWalk(v).stop in TopWalk(v).trail
  {
    hide Follow, Decisions;
    TrailIsChain(Decisions(v), v.t.root, {});
  }

  predicate AllAnswered(v: View, ids: seq<string>) {
    forall id :: id in ids ==> (id, 0) in v.answers
  }

  lemma FirstOpenIs(v: View, ids: seq<string>, i: nat)
    requires i <= |ids| && AllAnswered(v, ids[..i]) && (i < |ids| ==> (ids[i], 0) !in v.answers)
    ensures FirstOpen(v, ids) == i
  {
    assert forall j :: 0 <= j < i ==> ids[..i][j] == ids[j];
  }

  /** The session's decisions are the walker's, at the answered nodes. */
  lemma DecidedIsAnsweredWalk(v: View)
    requires forall n :: n in v.t.nodes ==> !n.nodeType.Loop?
    ensures var walked, decided := Preview.Decisions(v.t, TopAnswers(v)), Decisions(v);
      forall id :: (id in decided <==> id in walked && (id, 0) in v.answers) && (id in decided ==> decided[id] == walked[id])
  {
    hide ById, Follow, Decide, ResolveNext, TopAnswers;
    var walked, decided := Preview.Decisions(v.t, TopAnswers(v)), Decisions(v);
    forall id ensures (id in decided <==> id in walked && (id, 0) in v.answers) && (id in decided ==> decided[id] == walked[id]) {
      DecisionAt(v, id);
      if id in ById(v.t.nodes) {
        PlainDecision(v, ById(v.t.nodes)[id]);
      }
    }
  }

  lemma DecidedLast(v: View, id: string)
    requires id in Preview.Decisions(v.t, TopAnswers(v))
    ensures id in ById(v.t.nodes) && !ResolveNext(ById(v.t.nodes)[id], Preview.AnswerOrNull(TopAnswers(v), id)).Invalid?
  {
    hide ById, ResolveNext, TopAnswers;
  }

  /** An undecided, unvisited question stops the walk, and is shown. */
  lemma StoppedPlain(v: View, id: string)
    requires id in ById(v.t.nodes) && !ById(v.t.nodes)[id].nodeType.Loop? && id != "" && id !in Decisions(v)
    ensures Decide(v, ById(v.t.nodes)[id]) == Halt(ShowNode(ById(v.t.nodes)[id], None))
    ensures (id, 0) in v.answers ==> ResolveNext(ById(v.t.nodes)[id], Preview.AnswerOrNull(TopAnswers(v), id)).Invalid?
  {
    hide ById, ResolveNext, TopAnswers, Decide;
    DecisionAt(v, id);
    PlainDecision(v, ById(v.t.nodes)[id]);
  }

  lemma PlainDecision(v: View, n: Node)
    requires !n.nodeType.Loop? && n.id in ById(v.t.nodes)
    ensures var answer := Preview.AnswerOrNull(TopAnswers(v), n.id);
      Decide(v, n) == if (n.id, 0) in v.answers && !ResolveNext(n, answer).Invalid? then Pass(Target(ResolveNext(n, answer)))
                      else Halt(ShowNode(n, None))
  {
    hide ById, ResolveNext;
  }
}
