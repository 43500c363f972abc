/**
 The tokenised gathering session: the cursor over the questionnaire graph, and the three
 operations that change the state underneath it.
 */
module Gathering {
  import opened Wrappers
  import opened Chase
  import opened Engine
  import opened Bodies

  // ── State ─────────────────────────────────────────────────────────────────

  datatype LoopCursor = LoopCursor(iter: nat, done: bool)

  type Answers = map<(string, nat), Answer>

  type LoopState = map<string, LoopCursor>

  datatype Status = Issued | InProgress | OtherStatus(name: string)

  /** What one session's rows hold: the template is fixed, the rest changes. */
  datatype View = View(t: Template, answers: Answers, loops: LoopState, status: Status)

  datatype LoopContext = LoopContext(loopId: string, iter: nat)

  datatype Cursor = ShowNode(node: Node, context: Option<LoopContext>) | ShowLoopStep(loopId: string, iter: nat) | AtEnd

  datatype GatherError = NodeNotFound | InvalidAnswerShape | TreeResolutionFailed
                       | LoopNotFound | NotALoopNode | NegativeIteration

  function IterOf(loops: LoopState, loopId: string): nat {
    if loopId in loops then loops[loopId].iter else 0
  }

  predicate IsDone(loops: LoopState, loopId: string) {
    loopId in loops && loops[loopId].done
  }

  // ── The walk inside one loop iteration ────────────────────────────────────

  datatype BodyWalk = Unanswered(node: Node) | BodyEnd | BodyInvalid

  function BodyIds(t: Template, loopId: string): set<string> {
    set n | n in BodyOf(t.nodes, loopId) :: n.id
  }

  /** Where each answered body node leads at one iteration; "" is the end of the body. */
  function BodyDecisions(t: Template, loopId: string, answers: Answers, iter: nat): map<string, string> {
    var byId := ById(t.nodes);
    map id | id in byId && id in BodyIds(t, loopId) && id != ""
             && (id, iter) in answers && !ResolveNext(byId[id], answers[(id, iter)]).Invalid?
      :: Target(ResolveNext(byId[id], answers[(id, iter)]))
  }

  function BodyTrail(t: Template, loopId: string, answers: Answers, iter: nat): Walk
    requires BodyOf(t.nodes, loopId) != []
  {
    Follow(BodyDecisions(t, loopId, answers, iter), BodyOf(t.nodes, loopId)[0].id, {})
  }

  function BodyOutcome(t: Template, loopId: string, answers: Answers, iter: nat): BodyWalk {
    if BodyOf(t.nodes, loopId) == [] then BodyEnd
    else
      var w := BodyTrail(t, loopId, answers, iter);
      if w.stop in w.trail then BodyInvalid
      else if w.stop == "" || w.stop !in BodyIds(t, loopId) then BodyEnd
      else if (w.stop, iter) !in answers then Unanswered(ById(t.nodes)[w.stop])
      else BodyInvalid
  }

  method WalkBody(body: seq<Node>, byId: map<string, Node>, answers: Answers, iter: nat,
                  ghost t: Template, ghost loopId: string) returns (r: BodyWalk)
    requires byId == ById(t.nodes) && body == BodyOf(t.nodes, loopId)
    ensures r == BodyOutcome(t, loopId, answers, iter)
  {
    hide Follow, OnWay, ById, BodyOf;
    if body == [] {
      return BodyEnd;
    }
    var bodyIds := set n | n in body :: n.id;
    var cursor := body[0].id;
    var visited := {};
    ghost var decisions := BodyDecisions(t, loopId, answers, iter);
    ghost var trail: seq<string> := [];
    OnWayStart(decisions, cursor);
    while cursor != ""
      invariant visited == Elems(trail) && visited <= decisions.Keys
      invariant OnWay(decisions, body[0].id, trail, cursor)
      decreases decisions.Keys - visited
    {
      if cursor in visited {
        OnWayStop(decisions, body[0].id, trail, cursor);
        return BodyInvalid;
      }
      if cursor !in bodyIds {
        OnWayStop(decisions, body[0].id, trail, cursor);
        return BodyEnd;
      }
      var node := byId[cursor];
      if (node.id, iter) !in answers {
        OnWayStop(decisions, body[0].id, trail, cursor);
        return Unanswered(node);
      }
      var next := ResolveNext(node, answers[(node.id, iter)]);
      if next.Invalid? {
        OnWayStop(decisions, body[0].id, trail, cursor);
        return BodyInvalid;
      }
      OnWayStep(decisions, body[0].id, trail, cursor);
      visited := visited + {cursor};
      trail := trail + [cursor];
      cursor := if next.End? then "" else next.nodeId;
    }
    OnWayStop(decisions, body[0].id, trail, cursor);
    return BodyEnd;
  }

  // ── The walk over the template ────────────────────────────────────────────

  /** What one top-level node does to the walk: send it on, or stop it with something to show. */
  datatype Decision = Pass(next: string) | Halt(cursor: Cursor)

  function PassLoop(loop: Node): Decision {
    var r := ResolveNext(loop, Text(""));
    if r.Invalid? then Halt(ShowNode(loop, None)) else Pass(Target(r))
  }

  function DecideLoop(v: View, loop: Node): Decision {
    if IsDone(v.loops, loop.id) || BodyOf(v.t.nodes, loop.id) == [] then PassLoop(loop)
    else
      var iter := IterOf(v.loops, loop.id);
      match BodyOutcome(v.t, loop.id, v.answers, iter)
      case Unanswered(n) => Halt(ShowNode(n, Some(LoopContext(loop.id, iter))))
      case BodyEnd => Halt(ShowLoopStep(loop.id, iter))
      case BodyInvalid =>
        // A dead-ended body counts as done, and here a loop without a rule ends the walk.
        var r := ResolveNext(loop, Text(""));
        if r.Invalid? then Pass("") else Pass(Target(r))
  }

  function Decide(v: View, node: Node): Decision {
    if node.nodeType.Loop? then DecideLoop(v, node)
    else if (node.id, 0) !in v.answers then Halt(ShowNode(node, None))
    else
      var r := ResolveNext(node, v.answers[(node.id, 0)]);
      if r.Invalid? then Halt(ShowNode(node, None)) else Pass(Target(r))
  }

  function Decisions(v: View): map<string, string> {
    var byId := ById(v.t.nodes);
    map id | id in byId && id != "" && Decide(v, byId[id]).Pass? :: Decide(v, byId[id]).next
  }

  function TopWalk(v: View): Walk {
    Follow(Decisions(v), v.t.root, {})
  }

  /** What the responder sees: whatever the first node that does not pass has to show. */
  function CursorOf(v: View): Cursor {
    var byId := ById(v.t.nodes);
    var w := TopWalk(v);
    if w.stop in w.trail || w.stop == "" || w.stop !in byId then AtEnd
    else
      match Decide(v, byId[w.stop])
      case Halt(cursor) => cursor
      case Pass(_) => AtEnd
  }

  method FindCursor(v: View) returns (c: Cursor)
    ensures c == CursorOf(v)
  {
    hide Follow, OnWay, Decide, DecideLoop, ById, BodyOf;
    ghost var trail: seq<string> := [];
    OnWayStart(Decisions(v), v.t.root);
    if v.t.root == "" {
      OnWayStop(Decisions(v), "", [], "");
      return AtEnd;
    }
    var byId := ById(v.t.nodes);
    var bodyByLoop := GroupBodiesByLoop(v.t.nodes);
    var cursor := v.t.root;
    var visited := {};
    while cursor != ""
      invariant visited == Elems(trail) && visited <= byId.Keys
      invariant OnWay(Decisions(v), v.t.root, trail, cursor)
      decreases byId.Keys - visited
    {
      if cursor in visited || cursor !in byId {
        OnWayStop(Decisions(v), v.t.root, trail, cursor);
        return AtEnd;
      }
      var node := byId[cursor];
      var decision := Visit(v, node, byId, bodyByLoop);
      if decision.Halt? {
        OnWayStop(Decisions(v), v.t.root, trail, cursor);
        return decision.cursor;
      }
      OnWayStep(Decisions(v), v.t.root, trail, cursor);
      visited := visited + {cursor};
      trail := trail + [cursor];
      cursor := decision.next;
    }
    OnWayStop(Decisions(v), v.t.root, trail, cursor);
    return AtEnd;
  }

  /** One turn of the cursor's loop. */
  method Visit(v: View, node: Node, byId: map<string, Node>, bodyByLoop: map<string, seq<Node>>) returns (d: Decision)
    requires byId == ById(v.t.nodes) && node.id != ""
    requires forall p :: p in bodyByLoop <==> p != "" && BodyOf(v.t.nodes, p) != []
    requires forall p :: p in bodyByLoop ==> bodyByLoop[p] == BodyOf(v.t.nodes, p)
    ensures d == Decide(v, node)
  {
    hide ById, BodyOf, BodyOutcome, ResolveNext;
    if node.nodeType.Loop? {
      var r := ResolveNext(node, Text(""));
      if node.id !in v.loops || !v.loops[node.id].done {
        var body := if node.id in bodyByLoop then bodyByLoop[node.id] else [];
        if |body| == 0 {
          return if r.Invalid? then Halt(ShowNode(node, None)) else Pass(Target(r));
        }
        var iter := if node.id in v.loops then v.loops[node.id].iter else 0;
        var inner := WalkBody(body, byId, v.answers, iter, v.t, node.id);
        match inner {
          case Unanswered(n) => return Halt(ShowNode(n, Some(LoopContext(node.id, iter))));
          case BodyEnd => return Halt(ShowLoopStep(node.id, iter));
          case BodyInvalid => return if r.Invalid? then Pass("") else Pass(Target(r));
        }
      }
      return if r.Invalid? then Halt(ShowNode(node, None)) else Pass(Target(r));
    }
    if (node.id, 0) !in v.answers {
      return Halt(ShowNode(node, None));
    }
    var r := ResolveNext(node, v.answers[(node.id, 0)]);
    return if r.Invalid? then Halt(ShowNode(node, None)) else Pass(Target(r));
  }

  // ── The operations, as functions of the old state ─────────────────────────

  predicate IsSkip(answer: Answer) {
    answer == Null || answer == Text("")
  }

  /** No answer of its own is captured: dividers, loops and skipped optional questions. */
  predicate StoresBlank(node: Node, answer: Answer) {
    node.nodeType.Section? || node.nodeType.Loop? || (!node.required && IsSkip(answer))
  }

  function Persisted(node: Node, answer: Answer): Answer {
    if StoresBlank(node, answer) then Text("") else answer
  }

  /** The iteration an answer is written at: the loop's own cursor for a body node, else 0. */
  function WriteIter(v: View, node: Node): nat {
    if node.parent != "" then IterOf(v.loops, node.parent) else 0
  }

  function Submit(v: View, nodeId: string, answer: Answer): Result<View, GatherError> {
    var byId := ById(v.t.nodes);
    if nodeId !in byId then Err(NodeNotFound)
    else
      var node := byId[nodeId];
      var persisted := Persisted(node, answer);
      if !StoresBlank(node, answer) && !ShapeOk(node.nodeType, persisted) then Err(InvalidAnswerShape)
      else if ResolveNext(node, persisted).Invalid? then Err(TreeResolutionFailed)
      else
        Ok(v.(answers := v.answers[(nodeId, WriteIter(v, node)) := persisted],
              loops := if node.parent != "" && node.parent !in v.loops then v.loops[node.parent := LoopCursor(0, false)] else v.loops,
              status := if v.status.Issued? then InProgress else v.status))
  }

  datatype LoopAction = Continue | Done

  function StepLoop(v: View, loopId: string, action: LoopAction): Result<View, GatherError> {
    var byId := ById(v.t.nodes);
    if loopId !in byId then Err(LoopNotFound)
    else if !byId[loopId].nodeType.Loop? then Err(NotALoopNode)
    else
      var iter := IterOf(v.loops, loopId);
      Ok(v.(loops := v.loops[loopId := if action.Continue? then LoopCursor(iter + 1, false) else LoopCursor(iter, true)]))
  }

  /** `deleteMany`: the answers of one iteration. */
  function DeleteAt(answers: Answers, ids: set<string>, k: nat): Answers {
    map key | key in answers && !(key.0 in ids && key.1 == k) :: answers[key]
  }

  function Up(ids: set<string>, k: nat, key: (string, nat)): (string, nat) {
    if key.0 in ids && key.1 >= k then (key.0, key.1 + 1) else key
  }

  function Down(ids: set<string>, k: nat, key: (string, nat)): (string, nat) {
    if key.0 in ids && key.1 > k then (key.0, key.1 - 1) else key
  }

  /** `updateMany ... decrement 1`: the rows of later iterations move down by one.  Iteration k
      is empty by then, so no two rows end up with one key. */
  function ShiftDown(answers: Answers, ids: set<string>, k: nat): Answers
    requires forall key :: key in answers ==> !(key.0 in ids && key.1 == k)
  {
    var keys := set key | key in answers :: Down(ids, k, key);
    map key | key in keys :: answers[Up(ids, k, key)]
  }

  function RemoveIteration(v: View, loopId: string, k: int): Result<View, GatherError> {
    var byId := ById(v.t.nodes);
    if k < 0 then Err(NegativeIteration)
    else if loopId !in byId then Err(LoopNotFound)
    else if !byId[loopId].nodeType.Loop? then Err(NotALoopNode)
    else if BodyOf(v.t.nodes, loopId) == [] then Ok(v)
    else
      var ids := BodyIds(v.t, loopId);
      Ok(v.(answers := ShiftDown(DeleteAt(v.answers, ids, k), ids, k),
            loops := if loopId in v.loops && v.loops[loopId].iter > k
                     then v.loops[loopId := v.loops[loopId].(iter := v.loops[loopId].iter - 1)] else v.loops))
  }

  // ── The session object ────────────────────────────────────────────────────

  /** One engagement's rows.  Each method is one transaction: an error leaves every row as it was. */
  class Session {
    const t: Template
    var answers: Answers
    var loops: LoopState
    var status: Status

    constructor (t: Template)
      ensures Snapshot() == View(t, map[], map[], Issued)
    {
      this.t := t;
      answers, loops, status := map[], map[], Issued;
    }

    ghost function Snapshot(): View
      reads this
    {
      View(t, answers, loops, status)
    }

    method SubmitAnswer(nodeId: string, answer: Answer) returns (r: Result<Cursor, GatherError>)
      modifies this
      ensures match Submit(old(Snapshot()), nodeId, answer)
        case Ok(w) => Snapshot() == w && r == Ok(CursorOf(w))
        case Err(error) => Snapshot() == old(Snapshot()) && r == Err(error)
    {
      hide CursorOf, ById, ResolveNext, ShapeOk, Persisted;
      ghost var outcome := Submit(Snapshot(), nodeId, answer);
      var byId := ById(t.nodes);
      if nodeId !in byId {
        return Err(NodeNotFound);
      }
      var node := byId[nodeId];
      var iter := if node.parent != "" then (if node.parent in loops then loops[node.parent].iter else 0) else 0;
      var persisted := Persisted(node, answer);
      if !StoresBlank(node, answer) && !ShapeOk(node.nodeType, persisted) {
        assert outcome == Err(InvalidAnswerShape);
        return Err(InvalidAnswerShape);
      }
      var saved := (answers, loops, status);
      answers := answers[(nodeId, iter) := persisted];
      if status.Issued? {
        status := InProgress;
      }
      if node.parent != "" && node.parent !in loops {
        loops := loops[node.parent := LoopCursor(0, false)];
      }
      if ResolveNext(node, persisted).Invalid? {
        answers, loops, status := saved.0, saved.1, saved.2;
        return Err(TreeResolutionFailed);
      }
      assert outcome == Ok(Snapshot());
      var cursor := FindCursor(View(t, answers, loops, status));
      return Ok(cursor);
    }

    method SubmitLoopStep(loopId: string, action: LoopAction) returns (r: Result<Cursor, GatherError>)
      modifies this`loops
      ensures match StepLoop(old(Snapshot()), loopId, action)
        case Ok(w) => Snapshot() == w && r == Ok(CursorOf(w))
        case Err(error) => Snapshot() == old(Snapshot()) && r == Err(error)
    {
      hide CursorOf, ById, ResolveNext, ShapeOk;
      var byId := ById(t.nodes);
      if loopId !in byId {
        return Err(LoopNotFound);
      }
      if !byId[loopId].nodeType.Loop? {
        return Err(NotALoopNode);
      }
      var cursor := if loopId in loops then loops[loopId] else LoopCursor(0, false);
      loops := loops[loopId := if action.Continue? then LoopCursor(cursor.iter + 1, false) else LoopCursor(cursor.iter, true)];
      var next := FindCursor(View(t, answers, loops, status));
      return Ok(next);
    }

    method RemoveLoopIteration(loopId: string, k: int) returns (r: Result<(), GatherError>)
      modifies this`answers, this`loops
      ensures match RemoveIteration(old(Snapshot()), loopId, k)
        case Ok(w) => Snapshot() == w && r == Ok(())
        case Err(error) => Snapshot() == old(Snapshot()) && r == Err(error)
    {
      hide ById, BodyOf, ShiftDown;
      if k < 0 {
        return Err(NegativeIteration);
      }
      var byId := ById(t.nodes);
      if loopId !in byId {
        return Err(LoopNotFound);
      }
      if !byId[loopId].nodeType.Loop? {
        return Err(NotALoopNode);
      }
      var body := BodyOf(t.nodes, loopId);
      var bodyIds := set n | n in body :: n.id;
      if |body| == 0 {
        return Ok(());
      }
      answers := DeleteAt(answers, bodyIds, k);
      answers := ShiftDown(answers, bodyIds, k);
      if loopId in loops && loops[loopId].iter > k {
        loops := loops[loopId := loops[loopId].(iter := loops[loopId].iter - 1)];
      }
      return Ok(());
    }
  }
}
