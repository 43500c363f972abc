/** What each operation on a session does to its rows, written out. */
module SessionLaws {
  import opened Wrappers
  import opened Engine
  import opened EngineLaws
  import opened Bodies
  import opened Gathering
  import opened CursorMeaning
  import opened Removal

  /** The shape each type of question wants. */
  predicate Shaped(t: NodeType, a: Answer) {
    && (t.SingleSelect? || t.ShortText? || t.LongText? ==> a.Text?)
    && (t.MultiSelect? ==> a.Choices?)
    && (t.NumberInput? ==> a.Number?)
    && (t.FileUpload? || t.Section? || t.Loop? ==> a == Null || a == Text(""))
  }

  /** A divider, a loop and a skipped optional question keep no answer of their own. */
  predicate Blank(n: Node, a: Answer) {
    n.nodeType.Section? || n.nodeType.Loop? || (!n.required && (a == Null || a == Text("")))
  }

  /** Where it is stored: at the iteration its loop stands at, and at 0 outside loops. */
  predicate StoredAt(v: View, n: Node, iter: nat) {
    if n.parent == "" then iter == 0 else AtIter(v, n.parent, iter)
  }

  /** An accepted answer sets one row and keeps every other.  A loop whose body is answered for the
      first time gets its cursor, and an issued session is in progress from then on. */
  lemma SubmitWrites(v: View, id: string, a: Answer, w: View)
    requires Submit(v, id, a) == Ok(w)
    ensures id in ById(v.t.nodes)
    ensures exists iter: nat :: StoredAt(v, ById(v.t.nodes)[id], iter)
              && w.answers == v.answers[(id, iter) := if Blank(ById(v.t.nodes)[id], a) then Text("") else a]
    ensures w.t == v.t && w.status == (if v.status == Issued then InProgress else v.status)
    ensures var p := ById(v.t.nodes)[id].parent;
      w.loops == if p == "" || p in v.loops then v.loops else v.loops[p := LoopCursor(0, false)]
  {
    hide ById, ResolveNext, ShapeOk;
    var n := ById(v.t.nodes)[id];
    assert StoredAt(v, n, WriteIter(v, n));
  }

  /** A question of its own type, answered and not skipped, holds that very answer afterwards. */
  lemma AnswerIsKept(v: View, id: string, a: Answer, w: View)
    requires Submit(v, id, a) == Ok(w) && id in ById(v.t.nodes)
    requires var n := ById(v.t.nodes)[id];
      !n.nodeType.Section? && !n.nodeType.Loop? && (n.required || (a != Null && a != Text("")))
    ensures exists iter: nat :: StoredAt(v, ById(v.t.nodes)[id], iter) && (id, iter) in w.answers && w.answers[(id, iter)] == a
  {
    hide ById, ResolveNext, ShapeOk, StoredAt, Submit;
    SubmitWrites(v, id, a, w);
  }

  /** Exactly the well-shaped answers that some rule speaks for are accepted; an unknown node, a wrong
      shape and silent rules are told apart, in this order. */
  lemma SubmitAccepts(v: View, id: string, a: Answer)
    ensures Submit(v, id, a) == Err(NodeNotFound) <==> forall n :: n in v.t.nodes ==> n.id != id
    ensures id in ById(v.t.nodes) ==>
      var n := ById(v.t.nodes)[id]; var blank := Blank(n, a);
      && (Submit(v, id, a) == Err(InvalidAnswerShape) <==> !blank && !Shaped(n.nodeType, a))
      && (Submit(v, id, a) == Err(TreeResolutionFailed) <==> (blank || Shaped(n.nodeType, a)) && Silent(n.rules, if blank then Text("") else a))
      && (Submit(v, id, a).Ok? <==> (blank || Shaped(n.nodeType, a)) && !Silent(n.rules, if blank then Text("") else a))
  {
    hide ById, ResolveNext, Silent;
    if id in ById(v.t.nodes) {
      ResolveMeans(ById(v.t.nodes)[id], Persisted(ById(v.t.nodes)[id], a));
    }
  }

  /** A loop step moves that loop's cursor and nothing else: to a fresh iteration, or to the end. */
  lemma StepMeans(v: View, loopId: string, action: LoopAction)
    ensures StepLoop(v, loopId, action) == Err(LoopNotFound) <==> forall n :: n in v.t.nodes ==> n.id != loopId
    ensures loopId in ById(v.t.nodes) && !ById(v.t.nodes)[loopId].nodeType.Loop? ==> StepLoop(v, loopId, action) == Err(NotALoopNode)
    ensures loopId in ById(v.t.nodes) && ById(v.t.nodes)[loopId].nodeType.Loop? ==>
      exists iter: nat :: AtIter(v, loopId, iter) && StepLoop(v, loopId, action) == Ok(v.(loops := v.loops[loopId := StepTo(iter, action)]))
  {
    hide ById;
    assert AtIter(v, loopId, IterOf(v.loops, loopId));
  }

  function StepTo(iter: nat, action: LoopAction): LoopCursor {
    match action
    case Continue => LoopCursor(iter + 1, false)
    case Done => LoopCursor(iter, true)
  }

  ghost predicate Moved(v: View, w: View, loopId: string, k: nat, id: string, i: nat) {
    var from := if i >= k && exists n :: n in v.t.nodes && n.parent == loopId && n.id == id then i + 1 else i;
    && ((id, i) in w.answers <==> (id, from) in v.answers)
    && ((id, i) in w.answers ==> w.answers[(id, i)] == v.answers[(id, from)])
  }

  /** Removing an iteration of a loop with children: their rows at it go, their later rows move down by
      one, every other row stays, and the loop's cursor follows when it stood later. */
  lemma RemoveMeans(v: View, loopId: string, k: int)
    ensures k < 0 <==> RemoveIteration(v, loopId, k) == Err(NegativeIteration)
    ensures k >= 0 && (forall n :: n in v.t.nodes ==> n.id != loopId) <==> RemoveIteration(v, loopId, k) == Err(LoopNotFound)
    ensures k >= 0 && loopId in ById(v.t.nodes) && !ById(v.t.nodes)[loopId].nodeType.Loop?
            <==> RemoveIteration(v, loopId, k) == Err(NotALoopNode)
    ensures RemoveIteration(v, loopId, k).Ok? ==> var w := RemoveIteration(v, loopId, k).value;
      && w.t == v.t && w.status == v.status && (forall id, i: nat :: Moved(v, w, loopId, k, id, i))
      && w.loops == if loopId in v.loops && v.loops[loopId].iter > k && (exists n :: n in v.t.nodes && n.parent == loopId)
                    then v.loops[loopId := LoopCursor(v.loops[loopId].iter - 1, v.loops[loopId].done)] else v.loops
  {
    hide ById, BodyOf, ShiftDown, DeleteAt;
    if RemoveIteration(v, loopId, k).Ok? {
      var body := BodyOf(v.t.nodes, loopId);
      var ids := BodyIds(v.t, loopId);
      assert body != [] ==> body[0] in body;
      forall id, i: nat ensures Moved(v, RemoveIteration(v, loopId, k).value, loopId, k, id, i) {
        RemovedAt(v.answers, ids, k, id, i);
      }
    }
  }
}
