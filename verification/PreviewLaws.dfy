/** What the preview walker returns: the chain of steps along first speaking rules. */
module PreviewLaws {
  import opened Wrappers
  import opened Chase
  import opened Engine
  import opened EngineLaws
  import opened Preview

  /** An unanswered node is played with null. */
  predicate Given(answers: map<string, Answer>, id: string, a: Answer) {
    if id in answers then a == answers[id] else a == Null
  }

  /** The node is left along the first of its rules that speaks for its answer. */
  ghost predicate Leaves(t: Template, answers: map<string, Answer>, id: string, next: string) {
    var byId := ById(t.nodes);
    id != "" && id in byId && exists a :: Given(answers, id, a) && Leads(byId[id].rules, a, next)
  }

  /** From the root, over the distinct nodes in `p`, each left along its rules, to `e`. */
  ghost predicate Run(t: Template, answers: map<string, Answer>, p: seq<string>, e: string) {
    && (p + [e])[0] == t.root
    && (forall i :: 0 <= i < |p| ==> Leaves(t, answers, p[i], (p + [e])[i + 1]))
    && (forall i, j :: 0 <= i < j < |p| ==> p[i] != p[j])
  }

  ghost predicate Plays(t: Template, answers: map<string, Answer>, id: string, s: Step) {
    var byId := ById(t.nodes);
    && id in byId && s.node == byId[id] && Given(answers, id, s.answer) && Resolves(byId[id].rules, s.answer, s.next)
  }

  /** The run ends, comes back to a node, leads to a missing one, or stops at a node whose rules are
      silent, which is then the last step. */
  ghost predicate Returns(t: Template, answers: map<string, Answer>, p: seq<string>, e: string, r: Result<seq<Step>, WalkError>) {
    if e in p then r == Err(CycleAt(e))
    else if e != "" && e !in ById(t.nodes) then r == Err(MissingAt(e))
    else
      && r.Ok? && |r.value| == (if e == "" then |p| else |p| + 1)
      && (forall i :: 0 <= i < |r.value| ==> Plays(t, answers, (p + [e])[i], r.value[i]))
      && (e != "" ==> r.value[|p|].next == Invalid)
  }

  lemma StepPlays(t: Template, answers: map<string, Answer>, id: string)
    requires id in ById(t.nodes)
    ensures Plays(t, answers, id, StepAt(t, answers, id))
  {
    hide ById, ResolveNext, Resolves;
    ResolveMeans(ById(t.nodes)[id], AnswerOrNull(answers, id));
  }

  lemma DecisionLeaves(t: Template, answers: map<string, Answer>, id: string)
    requires id in Preview.Decisions(t, answers)
    ensures Leaves(t, answers, id, Preview.Decisions(t, answers)[id])
  {
    hide ById, Leads, ResolveNext;
    ResolveMeans(ById(t.nodes)[id], AnswerOrNull(answers, id));
    assert Given(answers, id, AnswerOrNull(answers, id));
  }

  lemma TrailRuns(t: Template, answers: map<string, Answer>)
    ensures var w := Follow(Preview.Decisions(t, answers), t.root, {});
      Run(t, answers, w.trail, w.stop) && (w.stop in Preview.Decisions(t, answers) ==> w.stop in w.trail)
  {
    hide Follow, ById, Leaves, Preview.Decisions;
    var next := Preview.Decisions(t, answers);
    var w := Follow(next, t.root, {});
    TrailIsChain(next, t.root, {});
    forall i | 0 <= i < |w.trail| ensures Leaves(t, answers, w.trail[i], (w.trail + [w.stop])[i + 1]) {
      assert next[w.trail[i]] == After(w, i) == (w.trail + [w.stop])[i + 1];
      DecisionLeaves(t, answers, w.trail[i]);
    }
  }

  /** The walker returns what the run from the root comes to. */
  lemma WalkMeans(t: Template, answers: map<string, Answer>)
    ensures exists p, e :: Run(t, answers, p, e) && Returns(t, answers, p, e, Outcome(t, answers))
  {
    hide Follow, ById, Run, Plays;
    var w := Follow(Preview.Decisions(t, answers), t.root, {});
    TrailRuns(t, answers);
    VisitedAreNodes(t, answers);
    if Outcome(t, answers).Ok? {
      forall i | 0 <= i < |Visited(t, answers)| ensures Plays(t, answers, (w.trail + [w.stop])[i], Outcome(t, answers).value[i]) {
        StepPlays(t, answers, Visited(t, answers)[i]);
      }
    }
    assert Returns(t, answers, w.trail, w.stop, Outcome(t, answers));
  }
}
