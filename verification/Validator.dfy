/** Publish-time validation: which issues a template has. */
module Validator {
  import opened Wrappers
  import opened Engine

  datatype Code = NoRoot | NoNodes | RootNotInNodes | DanglingGoto | EmptyRules | SelectWithoutOptions
                | UnreachableNode | LoopBodySlugCollision | BinaryToggleMissingValueMap

  datatype Issue = Issue(code: Code, nodeId: Option<string>)

  const BINARY_SLUG_SUFFIXES := ["_ids", "_ips", "_dlp", "_iam"]

  predicate EndsWith(s: string, suffix: string) {
    |suffix| <= |s| && s[|s| - |suffix|..] == suffix
  }

  predicate IsBinarySlug(slug: string) {
    exists i :: 0 <= i < |BINARY_SLUG_SUFFIXES| && EndsWith(slug, BINARY_SLUG_SUFFIXES[i])
  }

  predicate IsPositive(n: JsNumber) {
    match n
    case Finite(v) => v > 0.0
    case Infinite(positive) => positive
    case NaN => false
  }

  /** The loop's own slug is repeated by one of its body nodes. */
  predicate Collides(loop: Node, body: Node) {
    && loop.nodeType.Loop? && loop.loopSlug != "" && body.parent == loop.id
    && body.binding.Some? && body.binding.value.slug == loop.loopSlug
  }

  predicate LacksYes(n: Node, number: Answer -> JsNumber) {
    && n.binding.Some? && n.binding.value.slug != "" && IsBinarySlug(n.binding.value.slug)
    && !(var vm := n.binding.value.valueMap;
         vm.Some? && "yes" in vm.value && IsPositive(number(Text(vm.value["yes"]))))
  }

  // ── What each issue means ─────────────────────────────────────────────────

  predicate RootIssue(t: Template, byId: map<string, Node>, x: Issue) {
    || (x == Issue(NoRoot, None) && t.root == "")
    || (x == Issue(RootNotInNodes, None) && t.root != "" && t.root !in byId)
  }

  ghost predicate RuleIssue(n: Node, byId: map<string, Node>, x: Issue) {
    && x.nodeId == Some(n.id)
    && match x.code
       case SelectWithoutOptions => (n.nodeType.SingleSelect? || n.nodeType.MultiSelect?) && n.optionCount == 0
       case EmptyRules => n.rules == []
       case DanglingGoto => exists r :: r in n.rules && r.goto != END_NODE && r.goto !in byId
       case _ => false
  }

  predicate CollisionIssue(loop: Node, body: Node, x: Issue) {
    x == Issue(LoopBodySlugCollision, Some(body.id)) && Collides(loop, body)
  }

  predicate ToggleIssue(n: Node, number: Answer -> JsNumber, x: Issue) {
    x == Issue(BinaryToggleMissingValueMap, Some(n.id)) && LacksYes(n, number)
  }

  /** No path over rules and loop containment leads from the root to the node. */
  ghost predicate UnreachableIssue(t: Template, byId: map<string, Node>, n: Node, x: Issue) {
    && x == Issue(UnreachableNode, Some(n.id))
    && t.root != "" && t.root in byId && !Reachable(byId, t.root, n.id)
  }

  ghost predicate Reported(t: Template, number: Answer -> JsNumber, x: Issue) {
    var byId := ById(t.nodes);
    if t.nodes == [] then x == Issue(NoNodes, None)
    else
      || RootIssue(t, byId, x)
      || (exists n :: n in t.nodes && RuleIssue(n, byId, x))
      || (exists loop, body :: loop in t.nodes && body in t.nodes && CollisionIssue(loop, body, x))
      || (exists n :: n in t.nodes && ToggleIssue(n, number, x))
      || (exists n :: n in t.nodes && UnreachableIssue(t, byId, n, x))
  }

  // ── The checks ────────────────────────────────────────────────────────────

  method CheckRules(n: Node, byId: map<string, Node>) returns (found: seq<Issue>)
    ensures forall x :: x in found <==> RuleIssue(n, byId, x)
  {
    found := [];
    if (n.nodeType.SingleSelect? || n.nodeType.MultiSelect?) && n.optionCount == 0 {
      found := [Issue(SelectWithoutOptions, Some(n.id))];
    }
    if n.rules == [] {
      found := found + [Issue(EmptyRules, Some(n.id))];
      return;
    }
    ghost var base := found;
    var dangling := Issue(DanglingGoto, Some(n.id));
    for i := 0 to |n.rules|
      invariant forall x :: x in base ==> x in found
      invariant forall x :: x in found ==> x in base || x == dangling
      invariant dangling in found <==> exists j :: 0 <= j < i && n.rules[j].goto != END_NODE && n.rules[j].goto !in byId
    {
      if n.rules[i].goto != END_NODE && n.rules[i].goto !in byId {
        found := found + [dangling];
      }
    }
    assert forall r :: r in n.rules <==> exists j :: 0 <= j < |n.rules| && n.rules[j] == r;
  }

  method CheckAllRules(nodes: seq<Node>, byId: map<string, Node>) returns (found: seq<Issue>)
    ensures forall x :: x in found <==> exists n :: n in nodes && RuleIssue(n, byId, x)
  {
    found := [];
    for i := 0 to |nodes|
      invariant forall x :: x in found <==> exists n :: n in nodes[..i] && RuleIssue(n, byId, x)
    {
      var more := CheckRules(nodes[i], byId);
      found := found + more;
      assert nodes[..i + 1] == nodes[..i] + [nodes[i]];
    }
    assert nodes[..|nodes|] == nodes;
  }

  method CheckCollisions(nodes: seq<Node>) returns (found: seq<Issue>)
    ensures forall x :: x in found <==> exists loop, body :: loop in nodes && body in nodes && CollisionIssue(loop, body, x)
  {
    found := [];
    for i := 0 to |nodes|
      invariant forall x :: x in found <==> exists loop, body :: loop in nodes[..i] && body in nodes && CollisionIssue(loop, body, x)
    {
      ghost var base := found;
      var loop := nodes[i];
      assert nodes[..i + 1] == nodes[..i] + [loop];
      if loop.nodeType.Loop? && loop.loopSlug != "" {
        for j := 0 to |nodes|
          invariant forall x :: x in found <==> x in base || exists body :: body in nodes[..j] && CollisionIssue(loop, body, x)
        {
          var body := nodes[j];
          assert nodes[..j + 1] == nodes[..j] + [body];
          if body.parent == loop.id && body.binding.Some?
             && body.binding.value.slug != "" && body.binding.value.slug == loop.loopSlug {
            found := found + [Issue(LoopBodySlugCollision, Some(body.id))];
          }
          assert body in nodes[..j + 1];
          assert forall x :: CollisionIssue(loop, body, x) ==> x in found;
        }
        assert nodes[..|nodes|] == nodes;
      }
    }
    assert nodes[..|nodes|] == nodes;
  }

  method CheckToggles(nodes: seq<Node>, number: Answer -> JsNumber) returns (found: seq<Issue>)
    ensures forall x :: x in found <==> exists n :: n in nodes && ToggleIssue(n, number, x)
  {
    found := [];
    for i := 0 to |nodes|
      invariant forall x :: x in found <==> exists n :: n in nodes[..i] && ToggleIssue(n, number, x)
    {
      assert nodes[..i + 1] == nodes[..i] + [nodes[i]];
      if LacksYes(nodes[i], number) {
        found := found + [Issue(BinaryToggleMissingValueMap, Some(nodes[i].id))];
      }
      assert nodes[i] in nodes[..i + 1];
      assert forall x :: ToggleIssue(nodes[i], number, x) ==> x in found;
    }
    assert nodes[..|nodes|] == nodes;
  }

  method CheckReachable(t: Template, byId: map<string, Node>) returns (found: seq<Issue>)
    requires forall id :: id in byId ==> byId[id].id == id
    ensures forall x :: x in found <==> exists n :: n in t.nodes && UnreachableIssue(t, byId, n, x)
  {
    found := [];
    if t.root == "" || t.root !in byId {
      return;
    }
    var reachable := ReachableFrom(t.root, byId);
    for i := 0 to |t.nodes|
      invariant forall x :: x in found <==> exists n :: n in t.nodes[..i] && UnreachableIssue(t, byId, n, x)
    {
      assert t.nodes[..i + 1] == t.nodes[..i] + [t.nodes[i]];
      if t.nodes[i].id !in reachable {
        found := found + [Issue(UnreachableNode, Some(t.nodes[i].id))];
      }
      assert t.nodes[i] in t.nodes[..i + 1];
      assert forall x :: UnreachableIssue(t, byId, t.nodes[i], x) ==> x in found;
    }
    assert t.nodes[..|t.nodes|] == t.nodes;
  }

  /** The validator reports exactly the issues the template has. */
  method ValidateTemplate(t: Template, number: Answer -> JsNumber) returns (issues: seq<Issue>)
    ensures forall x :: x in issues <==> Reported(t, number, x)
  {
    if t.nodes == [] {
      return [Issue(NoNodes, None)];
    }
    issues := [];
    if t.root == "" {
      issues := issues + [Issue(NoRoot, None)];
    }
    var byId := ById(t.nodes);
    if t.root != "" && t.root !in byId {
      issues := issues + [Issue(RootNotInNodes, None)];
    }
    assert forall x :: x in issues <==> RootIssue(t, byId, x);
    var rules := CheckAllRules(t.nodes, byId);
    var collisions := CheckCollisions(t.nodes);
    var toggles := CheckToggles(t.nodes, number);
    var unreachable := CheckReachable(t, byId);
    issues := issues + rules + collisions + toggles + unreachable;
  }

  /** The template has no issue with one of these codes. */
  ghost predicate Free(t: Template, number: Answer -> JsNumber, codes: set<Code>) {
    forall x: Issue :: x.code in codes ==> !Reported(t, number, x)
  }

  /** No dangling and no root issue: the root and every rule of every node lead to a node or the end. */
  ghost predicate Closed(t: Template) {
    var byId := ById(t.nodes);
    && t.root in byId
    && forall n, r :: n in t.nodes && r in n.rules ==> r.goto == END_NODE || r.goto in byId
  }

  lemma CleanIsClosed(t: Template, number: Answer -> JsNumber)
    requires Free(t, number, {NoNodes, NoRoot, RootNotInNodes, DanglingGoto})
    ensures Closed(t)
  {
    var byId := ById(t.nodes);
    assert !Reported(t, number, Issue(NoNodes, None));
    assert !Reported(t, number, Issue(NoRoot, None));
    assert !Reported(t, number, Issue(RootNotInNodes, None));
    forall n, r | n in t.nodes && r in n.rules ensures r.goto == END_NODE || r.goto in byId {
      var x := Issue(DanglingGoto, Some(n.id));
      assert !Reported(t, number, x);
      assert !RuleIssue(n, byId, x);
    }
  }

  /** Without an unreachable-node issue (and with a known root), every node is on a path from the root. */
  lemma CleanIsConnected(t: Template, number: Answer -> JsNumber, n: Node)
    requires Free(t, number, {NoNodes, NoRoot, RootNotInNodes, UnreachableNode})
    requires n in t.nodes
    ensures Reachable(ById(t.nodes), t.root, n.id)
  {
    assert !Reported(t, number, Issue(NoRoot, None));
    assert !Reported(t, number, Issue(RootNotInNodes, None));
    var x := Issue(UnreachableNode, Some(n.id));
    assert !Reported(t, number, x);
    assert !UnreachableIssue(t, ById(t.nodes), n, x);
  }
}
