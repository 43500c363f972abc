/**
 What the cursor shows, without the walk that computes it: a chain of nodes, each of them left along
 the first of its rules that speaks for its answer, and the first node that is not left.
 */
module CursorMeaning {
  import opened Wrappers
  import opened Chase
  import opened Engine
  import opened EngineLaws
  import opened Bodies
  import opened Gathering

  ghost predicate IsChild(nodes: seq<Node>, loopId: string, id: string) {
    id != "" && exists n :: n in nodes && n.parent == loopId && n.id == id
  }

  ghost predicate NoTwice(p: seq<string>) {
    forall i, j :: 0 <= i < j < |p| ==> p[i] != p[j]
  }

  // ── Inside one iteration of a loop ────────────────────────────────────────

  /** A child answered at this iteration is left along its rules. */
  ghost predicate BodyMoves(v: View, loopId: string, iter: nat, id: string, next: string) {
    var byId := ById(v.t.nodes);
    && IsChild(v.t.nodes, loopId, id) && id in byId
    && (id, iter) in v.answers && Leads(byId[id].rules, v.answers[(id, iter)], next)
  }

  /** From the first child of lowest position, over the children in `p`, to `e`. */
  ghost predicate BodyRun(v: View, loopId: string, iter: nat, p: seq<string>, e: string) {
    && (exists n :: HeadIsEntry(v.t.nodes, loopId, n) && (p + [e])[0] == n.id)
    && (forall i :: 0 <= i < |p| ==> BodyMoves(v, loopId, iter, p[i], (p + [e])[i + 1]))
    && NoTwice(p)
  }

  ghost predicate Asks(v: View, loopId: string, iter: nat, id: string) {
    exists p :: BodyRun(v, loopId, iter, p, id) && id !in p && IsChild(v.t.nodes, loopId, id) && (id, iter) !in v.answers
  }

  ghost predicate RunsOut(v: View, loopId: string, iter: nat) {
    exists p, e :: BodyRun(v, loopId, iter, p, e) && e !in p && !IsChild(v.t.nodes, loopId, e)
  }

  /** The run comes back to a child, or to one whose rules are silent about its answer. */
  ghost predicate DeadEnds(v: View, loopId: string, iter: nat) {
    exists p, e :: BodyRun(v, loopId, iter, p, e)
      && (e in p || (e in ById(v.t.nodes) && IsChild(v.t.nodes, loopId, e) && (e, iter) in v.answers
                     && Silent(ById(v.t.nodes)[e].rules, v.answers[(e, iter)])))
  }

  lemma DecisionMoves(v: View, loopId: string, iter: nat, id: string)
    requires id in BodyDecisions(v.t, loopId, v.answers, iter)
    ensures BodyMoves(v, loopId, iter, id, BodyDecisions(v.t, loopId, v.answers, iter)[id])
  {
    hide ById, BodyOf, Leads, ResolveNext;
    ResolveMeans(ById(v.t.nodes)[id], v.answers[(id, iter)]);
  }

  lemma BodyTrailIsRun(v: View, loopId: string, iter: nat)
    requires BodyOf(v.t.nodes, loopId) != []
    ensures var w := BodyTrail(v.t, loopId, v.answers, iter); BodyRun(v, loopId, iter, w.trail, w.stop)
  {
    hide Follow, ById, BodyOf, HeadIsEntry, BodyMoves, BodyDecisions;
    var next := BodyDecisions(v.t, loopId, v.answers, iter);
    var w := BodyTrail(v.t, loopId, v.answers, iter);
    TrailIsChain(next, BodyOf(v.t.nodes, loopId)[0].id, {});
    BodyHead(v.t.nodes, loopId);
    forall i | 0 <= i < |w.trail| ensures BodyMoves(v, loopId, iter, w.trail[i], (w.trail + [w.stop])[i + 1]) {
      assert next[w.trail[i]] == After(w, i) == (w.trail + [w.stop])[i + 1];
      DecisionMoves(v, loopId, iter, w.trail[i]);
    }
  }

  /** A loop with children asks the child its run stops at, runs out, or dead-ends. */
  lemma BodyMeans(v: View, loopId: string, iter: nat)
    requires exists n :: n in v.t.nodes && n.parent == loopId
    ensures match BodyOutcome(v.t, loopId, v.answers, iter)
      case Unanswered(n) => exists id :: Asks(v, loopId, iter, id) && id in ById(v.t.nodes) && ById(v.t.nodes)[id] == n
      case BodyEnd => RunsOut(v, loopId, iter)
      case BodyInvalid => DeadEnds(v, loopId, iter)
  {
    hide Follow, ById, BodyOf, BodyRun, BodyTrail, Silent, Leads;
    assert BodyOf(v.t.nodes, loopId) != [];
    var w := BodyTrail(v.t, loopId, v.answers, iter);
    BodyTrailIsRun(v, loopId, iter);
    BodyStop(v, loopId, iter);
    assert w.stop in BodyIds(v.t, loopId) <==> exists n :: n in v.t.nodes && n.parent == loopId && n.id == w.stop;
    if w.stop !in w.trail && w.stop != "" && w.stop in BodyIds(v.t, loopId) {
      assert IsChild(v.t.nodes, loopId, w.stop) && w.stop in ById(v.t.nodes);
      if (w.stop, iter) in v.answers {
        ResolveMeans(ById(v.t.nodes)[w.stop], v.answers[(w.stop, iter)]);
      } else {
        assert Asks(v, loopId, iter, w.stop);
      }
    }
  }

  lemma BodyStop(v: View, loopId: string, iter: nat)
    requires BodyOf(v.t.nodes, loopId) != []
    ensures var w := BodyTrail(v.t, loopId, v.answers, iter);
      w.stop in w.trail || w.stop !in BodyDecisions(v.t, loopId, v.answers, iter)
  {
    hide Follow, BodyOf, BodyDecisions;
    TrailIsChain(BodyDecisions(v.t, loopId, v.answers, iter), BodyOf(v.t.nodes, loopId)[0].id, {});
  }

  // ── Over the template ─────────────────────────────────────────────────────

  /** The iteration a loop stands at: 0 until the session has a cursor for it. */
  predicate AtIter(v: View, loopId: string, iter: nat) {
    if loopId in v.loops then v.loops[loopId].iter == iter else iter == 0
  }

  /** Nothing is left to ask in the loop: it was declared done, or it has no children. */
  ghost predicate Finished(v: View, loop: Node) {
    (loop.id in v.loops && v.loops[loop.id].done) || forall n :: n in v.t.nodes ==> n.parent != loop.id
  }

  ghost predicate Moves(v: View, n: Node, next: string) {
    if !n.nodeType.Loop? then (n.id, 0) in v.answers && Leads(n.rules, v.answers[(n.id, 0)], next)
    else if Finished(v, n) then Leads(n.rules, Text(""), next)
    else (exists iter :: AtIter(v, n.id, iter) && DeadEnds(v, n.id, iter))
         && if Silent(n.rules, Text("")) then next == "" else Leads(n.rules, Text(""), next)
  }

  ghost predicate Shows(v: View, n: Node, c: Cursor) {
    if !n.nodeType.Loop? then
      c == ShowNode(n, None) && ((n.id, 0) in v.answers ==> Silent(n.rules, v.answers[(n.id, 0)]))
    else if Finished(v, n) then c == ShowNode(n, None) && Silent(n.rules, Text(""))
    else
      || (exists iter, id :: AtIter(v, n.id, iter) && Asks(v, n.id, iter, id) && id in ById(v.t.nodes)
            && c == ShowNode(ById(v.t.nodes)[id], Some(LoopContext(n.id, iter))))
      || (exists iter :: AtIter(v, n.id, iter) && RunsOut(v, n.id, iter) && c == ShowLoopStep(n.id, iter))
  }

  lemma NodeMeans(v: View, n: Node)
    requires n.id != ""
    ensures match Decide(v, n)
      case Pass(next) => Moves(v, n, next)
      case Halt(c) => Shows(v, n, c)
  {
    hide ById, BodyOf, BodyOutcome, Asks, RunsOut, DeadEnds, Leads, Silent, ResolveNext;
    if n.nodeType.Loop? {
      ResolveMeans(n, Text(""));
      assert BodyOf(v.t.nodes, n.id) != [] ==> BodyOf(v.t.nodes, n.id)[0] in BodyOf(v.t.nodes, n.id);
      assert Finished(v, n) <==> IsDone(v.loops, n.id) || BodyOf(v.t.nodes, n.id) == [];
      if !Finished(v, n) {
        assert AtIter(v, n.id, IterOf(v.loops, n.id));
        BodyMeans(v, n.id, IterOf(v.loops, n.id));
      }
    } else if (n.id, 0) in v.answers {
      ResolveMeans(n, v.answers[(n.id, 0)]);
    }
  }

  /** From the root, over the nodes in `p`, to `e`. */
  ghost predicate TopRun(v: View, p: seq<string>, e: string) {
    var byId := ById(v.t.nodes);
    && (p + [e])[0] == v.t.root
    && (forall i :: 0 <= i < |p| ==> p[i] != "" && p[i] in byId && Moves(v, byId[p[i]], (p + [e])[i + 1]))
    && NoTwice(p)
  }

  /** The end of the walk is the end of the questionnaire, also where it comes back to a node or
      leads to none; any other node it stands at shows something of its own. */
  ghost predicate Ends(v: View, p: seq<string>, e: string, c: Cursor) {
    var byId := ById(v.t.nodes);
    if e == "" || e in p || e !in byId then c == AtEnd else Shows(v, byId[e], c)
  }

  /** The cursor is what the run from the root comes to. */
  lemma CursorMeans(v: View)
    ensures exists p, e :: TopRun(v, p, e) && Ends(v, p, e, CursorOf(v))
  {
    hide Follow, ById, Decide, Moves, Shows;
    var w := TopWalk(v);
    TrailIsChain(Decisions(v), v.t.root, {});
    forall i | 0 <= i < |w.trail| ensures Moves(v, ById(v.t.nodes)[w.trail[i]], (w.trail + [w.stop])[i + 1]) {
      assert Decisions(v)[w.trail[i]] == After(w, i) == (w.trail + [w.stop])[i + 1];
      NodeMeans(v, ById(v.t.nodes)[w.trail[i]]);
    }
    assert TopRun(v, w.trail, w.stop);
    if w.stop != "" && w.stop in ById(v.t.nodes) && w.stop !in w.trail {
      NodeMeans(v, ById(v.t.nodes)[w.stop]);
    }
  }
}
