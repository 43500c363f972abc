/** The preview walker: plays a template against one answer per node. */
module Preview {
  import opened Wrappers
  import opened Chase
  import opened Engine
  import opened Validator

  datatype Step = Step(node: Node, answer: Answer, next: Next)

  datatype WalkError = CycleAt(id: string) | MissingAt(id: string)

  function AnswerOrNull(answers: map<string, Answer>, id: string): Answer {
    if id in answers then answers[id] else Null
  }

  /** Where each node leads under the given answers; "" is the end of the template. */
  function Decisions(t: Template, answers: map<string, Answer>): map<string, string> {
    var byId := ById(t.nodes);
    map id | id in byId && id != "" && !ResolveNext(byId[id], AnswerOrNull(answers, id)).Invalid?
      :: Target(ResolveNext(byId[id], AnswerOrNull(answers, id)))
  }

  /** The nodes the walker steps on: every decided node, and the undecidable one it stops at. */
  function Visited(t: Template, answers: map<string, Answer>): seq<string> {
    var w := Follow(Decisions(t, answers), t.root, {});
    if w.stop != "" && w.stop in ById(t.nodes) && w.stop !in w.trail then w.trail + [w.stop] else w.trail
  }

  function StepAt(t: Template, answers: map<string, Answer>, id: string): Step
    requires id in ById(t.nodes)
  {
    var node := ById(t.nodes)[id];
    Step(node, AnswerOrNull(answers, id), ResolveNext(node, AnswerOrNull(answers, id)))
  }

  function StepsAt(t: Template, answers: map<string, Answer>, ids: seq<string>): (steps: seq<Step>)
    requires forall id :: id in ids ==> id in ById(t.nodes)
    ensures |steps| == |ids|
    ensures forall i :: 0 <= i < |ids| ==> steps[i] == StepAt(t, answers, ids[i])
  {
    seq(|ids|, i requires 0 <= i < |ids| => StepAt(t, answers, ids[i]))
  }

  lemma VisitedAreNodes(t: Template, answers: map<string, Answer>)
    ensures forall id :: id in Visited(t, answers) ==> id in ById(t.nodes) && id != ""
  {
    TrailIsChain(Decisions(t, answers), t.root, {});
  }

  function Outcome(t: Template, answers: map<string, Answer>): Result<seq<Step>, WalkError> {
    var w := Follow(Decisions(t, answers), t.root, {});
    VisitedAreNodes(t, answers);
    if w.stop in w.trail then Err(CycleAt(w.stop))
    else if w.stop != "" && w.stop !in ById(t.nodes) then Err(MissingAt(w.stop))
    else Ok(StepsAt(t, answers, Visited(t, answers)))
  }

  lemma StepsGrow(t: Template, answers: map<string, Answer>, ids: seq<string>, id: string)
    requires id in ById(t.nodes) && forall x :: x in ids ==> x in ById(t.nodes)
    ensures StepsAt(t, answers, ids + [id]) == StepsAt(t, answers, ids) + [StepAt(t, answers, id)]
  {
  }

  method Walk(t: Template, answers: map<string, Answer>) returns (r: Result<seq<Step>, WalkError>)
    ensures r == Outcome(t, answers)
  {
    var byId := ById(t.nodes);
    var steps := [];
    var cursor := t.root;
    var visited := {};
    ghost var decisions := Decisions(t, answers);
    ghost var trail: seq<string> := [];
    VisitedAreNodes(t, answers);
    OnWayStart(decisions, t.root);
    while cursor != ""
      invariant visited == Elems(trail)
      invariant OnWay(decisions, t.root, trail, cursor)
      invariant forall id :: id in trail ==> id in byId
      invariant steps == StepsAt(t, answers, trail)
      decreases byId.Keys - visited
    {
      if cursor in visited {
        OnWayStop(decisions, t.root, trail, cursor);
        return Err(CycleAt(cursor));
      }
      if cursor !in byId {
        OnWayStop(decisions, t.root, trail, cursor);
        return Err(MissingAt(cursor));
      }
      var node := byId[cursor];
      var answer := AnswerOrNull(answers, node.id);
      var next := ResolveNext(node, answer);
      steps := steps + [Step(node, answer, next)];
      StepsGrow(t, answers, trail, cursor);
      if next.Invalid? {
        OnWayStop(decisions, t.root, trail, cursor);
        return Ok(steps);
      }
      OnWayStep(decisions, t.root, trail, cursor);
      visited := visited + {cursor};
      trail := trail + [cursor];
      if next.End? {
        cursor := "";
        break;
      }
      cursor := next.nodeId;
    }
    OnWayStop(decisions, t.root, trail, "");
    return Ok(steps);
  }

  // ── What validation promises the walker ───────────────────────────────────

  /** Every resolved target is a rule edge of the graph. */
  lemma ResolvedIsEdge(byId: map<string, Node>, id: string, answer: Answer)
    requires id in byId
    requires ResolveNext(byId[id], answer).Goto?
    requires ResolveNext(byId[id], answer).nodeId != ""
    ensures Edge(byId, id, ResolveNext(byId[id], answer).nodeId)
    ensures exists r :: r in byId[id].rules && r.goto == ResolveNext(byId[id], answer).nodeId
  {
    ResolvesToFirstMatch(byId[id].rules, answer);
  }

  ghost predicate EdgesOnly(byId: map<string, Node>, next: map<string, string>) {
    forall a :: a in next && next[a] != "" ==> Edge(byId, a, next[a])
  }

  /** A chain of decisions that are edges stays on paths from the root. */
  lemma {:induction false} ChainIsReachable(byId: map<string, Node>, next: map<string, string>, root: string, at: string, w: Chase.Walk, i: nat)
    requires Reachable(byId, root, at) && IsChain(next, at, {}, w) && EdgesOnly(byId, next)
    requires i < |w.trail|
    requires forall j :: 0 <= j <= i ==> w.trail[j] != ""
    ensures Reachable(byId, root, w.trail[i])
    ensures After(w, i) != "" ==> Reachable(byId, root, After(w, i))
  {
    if i == 0 {
    } else {
      ChainIsReachable(byId, next, root, at, w, i - 1);
      assert After(w, i - 1) == w.trail[i];
    }
    if After(w, i) != "" {
      ReachableStep(byId, root, w.trail[i], After(w, i));
    }
  }

  /** The same for a whole walk: its trail, and where it stops unless that is the end. */
  lemma WalkIsReachable(byId: map<string, Node>, next: map<string, string>, root: string, at: string, id: string)
    requires Reachable(byId, root, at) && EdgesOnly(byId, next) && "" !in next
    requires var w := Follow(next, at, {}); id in w.trail || (id == w.stop && id != "")
    ensures Reachable(byId, root, id)
  {
    hide Reachable, EdgesOnly, Follow;
    TrailIsChain(next, at, {});
    var w := Follow(next, at, {});
    if w.trail != [] {
      var i := if id in w.trail then (var i :| 0 <= i < |w.trail| && w.trail[i] == id; i) else |w.trail| - 1;
      ChainIsReachable(byId, next, root, at, w, i);
    }
  }

  /** The walker only steps on nodes the validator counts as reachable. */
  lemma WalkStaysReachable(t: Template, answers: map<string, Answer>, id: string)
    requires id in Visited(t, answers)
    ensures Reachable(ById(t.nodes), t.root, id)
  {
    hide Reachable, Edge, Follow;
    var byId := ById(t.nodes);
    var next := Decisions(t, answers);
    TrailIsChain(next, t.root, {});
    forall a | a in next && next[a] != "" ensures Edge(byId, a, next[a]) {
      ResolvedIsEdge(byId, a, AnswerOrNull(answers, a));
    }
    ReachableRoot(byId, t.root);
    WalkIsReachable(byId, next, t.root, t.root, id);
  }

  /** On a template with no root or dangling-goto issue, the walker never meets a missing node. */
  lemma ClosedWalkNeverMisses(t: Template, answers: map<string, Answer>)
    requires Closed(t)
    ensures Outcome(t, answers).Err? ==> Outcome(t, answers).error.CycleAt?
  {
    var byId := ById(t.nodes);
    var next := Decisions(t, answers);
    var w := Follow(next, t.root, {});
    TrailIsChain(next, t.root, {});
    if w.trail != [] && w.stop != "" {
      var last := w.trail[|w.trail| - 1];
      assert After(w, |w.trail| - 1) == w.stop;
      ResolvedIsEdge(byId, last, AnswerOrNull(answers, last));
      assert byId[last] in t.nodes;
    }
  }
}
