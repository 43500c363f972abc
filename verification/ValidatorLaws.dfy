/** What each validation issue says of the template, in the template's own terms. */
module ValidatorLaws {
  import opened Wrappers
  import opened Engine
  import opened Validator

  /** A binary slug ends in _ids, _ips, _dlp or _iam. */
  predicate Binary(slug: string) {
    |slug| >= 4 && (var tail := slug[|slug| - 4..]; tail == "_ids" || tail == "_ips" || tail == "_dlp" || tail == "_iam")
  }

  /** "yes" is mapped to something that counts as a positive number. */
  predicate YesCounts(b: Binding, number: Answer -> JsNumber) {
    && b.valueMap.Some? && "yes" in b.valueMap.value
    && match number(Text(b.valueMap.value["yes"]))
       case Finite(x) => x > 0.0
       case Infinite(positive) => positive
       case NaN => false
  }

  /** A rule leads from one node to the other, or the one is a loop and the other its child. */
  ghost predicate OneStep(byId: map<string, Node>, from: string, to: string) {
    && from in byId && to != ""
    && (|| (to != "END" && exists i :: 0 <= i < |byId[from].rules| && byId[from].rules[i].goto == to)
        || (byId[from].nodeType == Loop && to in byId && byId[to].parent == from))
  }

  /** From the root, step by step, to the node. */
  ghost predicate LeadsTo(t: Template, p: seq<string>, id: string) {
    && |p| > 0 && t.root != "" && p[0] == t.root && p[|p| - 1] == id
    && forall i :: 0 <= i < |p| - 1 ==> OneStep(ById(t.nodes), p[i], p[i + 1])
  }

  lemma StepIsEdge(byId: map<string, Node>, a: string, b: string)
    ensures Edge(byId, a, b) <==> OneStep(byId, a, b)
  {
    if a in byId {
      assert forall r :: r in byId[a].rules ==> exists i :: 0 <= i < |byId[a].rules| && byId[a].rules[i] == r;
    }
  }

  lemma PathMeans(t: Template, p: seq<string>, id: string)
    requires p != []
    ensures IsPath(ById(t.nodes), t.root, p) && p[|p| - 1] == id <==> LeadsTo(t, p, id)
  {
    hide ById, Edge, OneStep;
    forall a, b ensures Edge(ById(t.nodes), a, b) <==> OneStep(ById(t.nodes), a, b) {
      StepIsEdge(ById(t.nodes), a, b);
    }
  }

  /** An empty template has that one issue.  Any other has a root issue when it names no root, or one
      that is no node. */
  lemma RootIssues(t: Template, number: Answer -> JsNumber, x: Issue)
    ensures t.nodes == [] ==> (Reported(t, number, x) <==> x == Issue(NoNodes, None))
    ensures t.nodes != [] && x.nodeId == None ==> (Reported(t, number, x) <==>
              || (x.code == NoRoot && t.root == "")
              || (x.code == RootNotInNodes && t.root != "" && forall n :: n in t.nodes ==> n.id != t.root))
  {
    hide ById, Collides, LacksYes, Reachable;
  }

  /** The issues of a node: a select without options, no rules, a rule that leads to no node. */
  lemma RuleIssues(t: Template, number: Answer -> JsNumber, id: string)
    requires t.nodes != []
    ensures Reported(t, number, Issue(SelectWithoutOptions, Some(id))) <==>
      exists n :: n in t.nodes && n.id == id && (n.nodeType == SingleSelect || n.nodeType == MultiSelect) && n.optionCount == 0
    ensures Reported(t, number, Issue(EmptyRules, Some(id))) <==> exists n :: n in t.nodes && n.id == id && |n.rules| == 0
    ensures Reported(t, number, Issue(DanglingGoto, Some(id))) <==>
      exists n, r :: n in t.nodes && n.id == id && r in n.rules && r.goto != "END" && forall m :: m in t.nodes ==> m.id != r.goto
  {
    hide ById, Collides, LacksYes, Reachable;
  }

  /** A body node that names its loop's own service line. */
  lemma CollisionIssues(t: Template, number: Answer -> JsNumber, id: string)
    requires t.nodes != []
    ensures Reported(t, number, Issue(LoopBodySlugCollision, Some(id))) <==>
      exists l, n :: l in t.nodes && n in t.nodes && l.nodeType == Loop && l.loopSlug != "" && n.id == id && n.parent == l.id
        && n.binding.Some? && n.binding.value.slug == l.loopSlug
  {
    hide ById, LacksYes, Reachable;
    var x := Issue(LoopBodySlugCollision, Some(id));
    if l, n :| l in t.nodes && n in t.nodes && l.nodeType == Loop && l.loopSlug != "" && n.id == id && n.parent == l.id
               && n.binding.Some? && n.binding.value.slug == l.loopSlug {
      assert CollisionIssue(l, n, x);
    }
  }

  lemma IsBinary(slug: string)
    ensures IsBinarySlug(slug) <==> Binary(slug)
  {
    assert forall i :: 0 <= i < 4 ==> |BINARY_SLUG_SUFFIXES[i]| == 4;
    assert BINARY_SLUG_SUFFIXES[0] == "_ids" && BINARY_SLUG_SUFFIXES[1] == "_ips";
    assert BINARY_SLUG_SUFFIXES[2] == "_dlp" && BINARY_SLUG_SUFFIXES[3] == "_iam";
  }

  /** A node bound to a binary slug whose "yes" does not count. */
  lemma ToggleIssues(t: Template, number: Answer -> JsNumber, id: string)
    requires t.nodes != []
    ensures Reported(t, number, Issue(BinaryToggleMissingValueMap, Some(id))) <==>
      exists n :: n in t.nodes && n.id == id && n.binding.Some? && Binary(n.binding.value.slug) && !YesCounts(n.binding.value, number)
  {
    hide ById, Collides, Reachable, IsBinarySlug, Binary;
    forall slug ensures IsBinarySlug(slug) <==> Binary(slug) {
      IsBinary(slug);
    }
    IsBinary("");
    assert !Binary("") by { EmptyIsNotBinary(); }
  }

  lemma EmptyIsNotBinary()
    ensures !Binary("")
  {
  }

  /** A node that no path leads to, in a template whose root is a node. */
  lemma UnreachableIssues(t: Template, number: Answer -> JsNumber, id: string)
    requires t.nodes != []
    ensures Reported(t, number, Issue(UnreachableNode, Some(id))) <==>
      && t.root != "" && (exists n :: n in t.nodes && n.id == t.root) && (exists n :: n in t.nodes && n.id == id)
      && forall p :: !LeadsTo(t, p, id)
  {
    hide ById, Collides, LacksYes;
    forall p: seq<string> | p != [] ensures IsPath(ById(t.nodes), t.root, p) && p[|p| - 1] == id <==> LeadsTo(t, p, id) {
      PathMeans(t, p, id);
    }
    hide IsPath, LeadsTo, Edge;
    assert Reachable(ById(t.nodes), t.root, id) <==> exists p :: LeadsTo(t, p, id) by {
      if p :| LeadsTo(t, p, id) {
        NotEmpty(t, p, id);
      }
      if p :| IsPath(ById(t.nodes), t.root, p) && p[|p| - 1] == id {
        assert p != [];
      }
    }
  }

  lemma NotEmpty(t: Template, p: seq<string>, id: string)
    requires LeadsTo(t, p, id)
    ensures p != []
  {
  }
}
