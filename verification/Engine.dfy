/**
 The decision-tree engine: templates, rule resolution, the publish-time validator and the
 preview walker.

 An absent id (null, undefined or the empty string in the program, which only ever tests
 for truthiness) is the empty string here: `root`, `parent`, `loopSlug` and `Binding.slug`.
 */
module Engine {
  import opened Wrappers
  import opened Chase

  // ── Data model ────────────────────────────────────────────────────────────

  const END_NODE := "END"

  datatype Answer = Text(text: string) | Choices(choices: seq<string>) | Number(number: real) | Null

  /** The right-hand side of a rule: any JSON value.  Values that no answer can ever be
      strictly equal to (booleans, objects, absent values) are `Other`. */
  datatype Operand = TextOperand(text: string) | NumberOperand(number: real) | NullOperand
                   | ListOperand(items: seq<Operand>) | Other

  datatype Op = Always | Eq | Neq | In | Includes | Gt | Lt

  datatype Rule = Rule(op: Op, operand: Operand, goto: string)

  datatype NodeType = SingleSelect | MultiSelect | ShortText | LongText | NumberInput | FileUpload | Section | Loop

  datatype Field = ScopeValue | Methodology | CustomerType | Unset

  datatype Binding = Binding(field: Field, slug: string, valueMap: Option<map<string, string>>)

  datatype Node = Node(id: string, nodeType: NodeType, required: bool, optionCount: nat, rules: seq<Rule>,
                       position: int, parent: string, loopSlug: string, binding: Option<Binding>)

  datatype Template = Template(root: string, nodes: seq<Node>)

  /** What JavaScript's `Number(x)` can yield.  The conversion itself is a parameter of
      whatever needs it. */
  datatype JsNumber = Finite(value: real) | Infinite(positive: bool) | NaN

  /** `new Map(nodes.map(n => [n.id, n]))`: the last node with an id wins. */
  function ById(nodes: seq<Node>): (m: map<string, Node>)
    ensures forall id :: id in m ==> m[id].id == id && m[id] in nodes
    ensures forall n :: n in nodes ==> n.id in m
  {
    if nodes == [] then map[]
    else ById(nodes[..|nodes| - 1])[nodes[|nodes| - 1].id := nodes[|nodes| - 1]]
  }

  ghost predicate LastAt(nodes: seq<Node>, id: string, i: int) {
    && 0 <= i < |nodes| && nodes[i].id == id
    && forall j :: i < j < |nodes| ==> nodes[j].id != id
  }

  /** What is found under an id is the last node that carries it. */
  lemma {:induction false} LastWins(nodes: seq<Node>, i: int, id: string)
    requires LastAt(nodes, id, i)
    ensures id in ById(nodes) && ById(nodes)[id] == nodes[i]
  {
    assert nodes[i] in nodes;
    var front, last := nodes[..|nodes| - 1], nodes[|nodes| - 1];
    if i == |front| {
    } else {
      assert last.id != id;
      assert LastAt(front, id, i);
      LastWins(front, i, id);
    }
  }

  /** Node ids are primary keys of the database: present and distinct. */
  ghost predicate UniqueIds(t: Template) {
    && (forall n :: n in t.nodes ==> n.id != "")
    && (forall i, j :: 0 <= i < j < |t.nodes| ==> t.nodes[i].id != t.nodes[j].id)
  }

  lemma {:induction false} UniqueLookup(nodes: seq<Node>, n: Node)
    requires n in nodes
    requires forall i, j :: 0 <= i < j < |nodes| ==> nodes[i].id != nodes[j].id
    ensures ById(nodes)[n.id] == n
  {
    var front := nodes[..|nodes| - 1];
    assert nodes == front + [nodes[|nodes| - 1]];
    if n != nodes[|nodes| - 1] {
      assert n in front;
      UniqueLookup(front, n);
      var i :| 0 <= i < |front| && front[i] == n;
      assert nodes[i].id != nodes[|nodes| - 1].id;
    }
  }

  // ── Rule resolution ───────────────────────────────────────────────────────

  /** `answer === value`.  Two lists are never the same reference. */
  predicate StrictEquals(answer: Answer, value: Operand) {
    match answer
    case Text(s) => value == TextOperand(s)
    case Number(n) => value == NumberOperand(n)
    case Null => value == NullOperand
    case Choices(_) => false
  }

  predicate Holds(op: Op, answer: Answer, value: Operand) {
    match op
    case Always => true
    case Eq => StrictEquals(answer, value)
    case Neq => !StrictEquals(answer, value)
    case In => value.ListOperand? && exists i :: 0 <= i < |value.items| && StrictEquals(answer, value.items[i])
    case Includes => answer.Choices? && value.TextOperand? && value.text in answer.choices
    case Gt => answer.Number? && value.NumberOperand? && answer.number > value.number
    case Lt => answer.Number? && value.NumberOperand? && answer.number < value.number
  }

  datatype Next = Goto(nodeId: string) | End | Invalid

  function FirstMatch(rules: seq<Rule>, answer: Answer): Next {
    if rules == [] then Invalid
    else if Holds(rules[0].op, answer, rules[0].operand) then
      if rules[0].goto == END_NODE then End else Goto(rules[0].goto)
    else FirstMatch(rules[1..], answer)
  }

  /** First matching rule wins; no match is an error, never a silent fall-through. */
  function ResolveNext(node: Node, answer: Answer): Next {
    FirstMatch(node.rules, answer)
  }

  /** A resolution is the goto of the first rule that holds, and Invalid means none does. */
  lemma {:induction false} ResolvesToFirstMatch(rules: seq<Rule>, answer: Answer)
    ensures var r := FirstMatch(rules, answer);
      if r.Invalid? then forall i :: 0 <= i < |rules| ==> !Holds(rules[i].op, answer, rules[i].operand)
      else exists i :: 0 <= i < |rules|
             && Holds(rules[i].op, answer, rules[i].operand)
             && (forall j :: 0 <= j < i ==> !Holds(rules[j].op, answer, rules[j].operand))
             && rules[i].goto == (if r.End? then END_NODE else r.nodeId)
             && (r.Goto? ==> r.nodeId != END_NODE)
  {
    if rules == [] || Holds(rules[0].op, answer, rules[0].operand) {
    } else {
      ResolvesToFirstMatch(rules[1..], answer);
      var r := FirstMatch(rules, answer);
      if !r.Invalid? {
        var i :| 0 <= i < |rules[1..]|
             && Holds(rules[1..][i].op, answer, rules[1..][i].operand)
             && (forall j :: 0 <= j < i ==> !Holds(rules[1..][j].op, answer, rules[1..][j].operand))
             && rules[1..][i].goto == (if r.End? then END_NODE else r.nodeId);
        assert rules[i + 1] == rules[1..][i];
        forall j | 0 <= j < i + 1 ensures !Holds(rules[j].op, answer, rules[j].operand) {
          if j > 0 { assert rules[j] == rules[1..][j - 1]; }
        }
      } else {
        forall i | 0 <= i < |rules| ensures !Holds(rules[i].op, answer, rules[i].operand) {
          if i > 0 { assert rules[i] == rules[1..][i - 1]; }
        }
      }
    }
  }

  /** The rules of a node, with the target the walkers move to: the end of the walk is "". */
  function Target(r: Next): string
    requires !r.Invalid?
  {
    if r.End? then "" else r.nodeId
  }

  predicate ShapeOk(nodeType: NodeType, answer: Answer) {
    match nodeType
    case SingleSelect => answer.Text?
    case ShortText => answer.Text?
    case LongText => answer.Text?
    case MultiSelect => answer.Choices?
    case NumberInput => answer.Number?
    case FileUpload => answer == Null || answer == Text("")
    case Section => answer == Null || answer == Text("")
    case Loop => answer == Null || answer == Text("")
  }

  // ── Reachability ──────────────────────────────────────────────────────────

  /** One step of reachability: a rule of a known node, or containment in a loop. */
  ghost predicate Edge(byId: map<string, Node>, a: string, b: string) {
    && a in byId && b != ""
    && ((b != END_NODE && exists r :: r in byId[a].rules && r.goto == b)
        || (byId[a].nodeType.Loop? && b in byId && byId[b].parent == a))
  }

  ghost predicate IsPath(byId: map<string, Node>, root: string, p: seq<string>) {
    && p != [] && p[0] == root && root != ""
    && forall i :: 0 <= i < |p| - 1 ==> Edge(byId, p[i], p[i + 1])
  }

  ghost predicate Reachable(byId: map<string, Node>, root: string, id: string) {
    exists p :: IsPath(byId, root, p) && p[|p| - 1] == id
  }

  lemma ReachableRoot(byId: map<string, Node>, root: string)
    requires root != ""
    ensures Reachable(byId, root, root)
  {
    assert IsPath(byId, root, [root]);
  }

  lemma ReachableStep(byId: map<string, Node>, root: string, a: string, b: string)
    requires Reachable(byId, root, a) && Edge(byId, a, b)
    ensures Reachable(byId, root, b)
  {
    var p :| IsPath(byId, root, p) && p[|p| - 1] == a;
    var q := p + [b];
    assert forall i :: 0 <= i < |q| - 1 ==> Edge(byId, q[i], q[i + 1]);
    assert IsPath(byId, root, q);
  }

  /** A closed set that holds the root holds everything on every path. */
  lemma {:induction false} ClosedHoldsPath(byId: map<string, Node>, root: string, closed: set<string>, p: seq<string>)
    requires root in closed
    requires forall a, b :: a in closed && Edge(byId, a, b) ==> b in closed
    requires IsPath(byId, root, p)
    ensures p[|p| - 1] in closed
  {
    if |p| == 1 {
    } else {
      var q := p[..|p| - 1];
      assert forall i :: 0 <= i < |q| - 1 ==> Edge(byId, q[i], q[i + 1]);
      ClosedHoldsPath(byId, root, closed, q);
      assert Edge(byId, p[|p| - 2], p[|p| - 1]);
    }
  }

  function Gotos(rules: seq<Rule>): set<string> {
    set r | r in rules :: r.goto
  }

  /** `childrenByParent`: the nodes of the map under each parent, in any order. */
  method GroupChildren(byId: map<string, Node>) returns (children: map<string, seq<Node>>)
    ensures forall n, p :: p in children && n in children[p] <==> p != "" && p in children && n.id in byId && byId[n.id] == n && n.parent == p
    ensures forall id :: id in byId && byId[id].id == id && byId[id].parent != "" ==> byId[id].parent in children
  {
    children := map[];
    var rest := byId.Keys;
    while rest != {}
      invariant rest <= byId.Keys
      invariant forall n, p :: p in children && n in children[p] <==>
                  p != "" && p in children && n.id in byId && n.id !in rest && byId[n.id] == n && n.parent == p
      invariant forall id :: id in byId && id !in rest && byId[id].id == id && byId[id].parent != "" ==> byId[id].parent in children
    {
      var id :| id in rest;
      rest := rest - {id};
      var n := byId[id];
      if n.id == id && n.parent != "" {
        var list := if n.parent in children then children[n.parent] else [];
        children := children[n.parent := list + [n]];
      }
    }
  }

  method PushGotos(stack: seq<string>, rules: seq<Rule>, seen: set<string>) returns (pushed: seq<string>)
    ensures forall x :: x in pushed <==> x in stack || (x in Gotos(rules) && x != END_NODE && x !in seen)
  {
    pushed := stack;
    for i := 0 to |rules|
      invariant forall x :: x in pushed <==> x in stack || (x in Gotos(rules[..i]) && x != END_NODE && x !in seen)
    {
      assert rules[..i + 1] == rules[..i] + [rules[i]];
      if rules[i].goto != END_NODE && rules[i].goto !in seen {
        pushed := pushed + [rules[i].goto];
      }
    }
    assert rules[..|rules|] == rules;
  }

  method PushChildren(stack: seq<string>, list: seq<Node>, seen: set<string>) returns (pushed: seq<string>)
    ensures forall x :: x in pushed <==> x in stack || (x !in seen && exists n :: n in list && n.id == x)
  {
    pushed := stack;
    for i := 0 to |list|
      invariant forall x :: x in pushed <==> x in stack || (x !in seen && exists n :: n in list[..i] && n.id == x)
    {
      assert list[..i + 1] == list[..i] + [list[i]];
      if list[i].id !in seen {
        pushed := pushed + [list[i].id];
      }
    }
    assert list[..|list|] == list;
  }

  /** The state of the worklist: all of it reachable, and nothing one edge away is forgotten. */
  ghost predicate Frontier(byId: map<string, Node>, root: string, seen: set<string>, stack: seq<string>) {
    && (root in seen || root in stack)
    && (forall x :: x in seen ==> Reachable(byId, root, x))
    && (forall x :: x in stack && x != "" ==> Reachable(byId, root, x))
    && (forall a, b :: a in seen && Edge(byId, a, b) ==> b in seen || b in stack)
  }

  lemma FrontierStart(byId: map<string, Node>, root: string)
    requires root != ""
    ensures Frontier(byId, root, {}, [root])
  {
    ReachableRoot(byId, root);
  }

  lemma FrontierSkip(byId: map<string, Node>, root: string, seen: set<string>, id: string, stack: seq<string>)
    requires Frontier(byId, root, seen, stack + [id]) && root != ""
    requires id == "" || id in seen
    ensures Frontier(byId, root, seen, stack)
  {
    assert forall x :: x in stack ==> x in stack + [id];
  }

  lemma FrontierDone(byId: map<string, Node>, root: string, seen: set<string>)
    requires Frontier(byId, root, seen, [])
    ensures forall id :: id in seen <==> Reachable(byId, root, id)
  {
    forall id | Reachable(byId, root, id) ensures id in seen {
      var p :| IsPath(byId, root, p) && p[|p| - 1] == id;
      ClosedHoldsPath(byId, root, seen, p);
    }
  }

  /** Taking `id` off the stack and pushing its unseen successors keeps the frontier. */
  lemma FrontierStep(byId: map<string, Node>, root: string, seen: set<string>, id: string, stack: seq<string>, pushed: seq<string>)
    requires id != ""
    requires Frontier(byId, root, seen, stack + [id])
    requires forall x :: x in stack ==> x in pushed
    requires forall x :: x in pushed ==> x in stack || x == "" || Edge(byId, id, x)
    requires forall x :: Edge(byId, id, x) ==> x in pushed || x in seen + {id}
    ensures Frontier(byId, root, seen + {id}, pushed)
  {
    assert id in stack + [id];
    forall x | x in pushed && x != "" ensures Reachable(byId, root, x) {
      if x in stack {
        assert x in stack + [id];
      } else {
        ReachableStep(byId, root, id, x);
      }
    }
  }

  /** The validator's worklist finds exactly the ids that a path from the root leads to. */
  method ReachableFrom(root: string, byId: map<string, Node>) returns (seen: set<string>)
    requires root != ""
    requires forall id :: id in byId ==> byId[id].id == id
    ensures forall id :: id in seen <==> Reachable(byId, root, id)
  {
    hide Reachable, Frontier;
    var children := GroupChildren(byId);
    ghost var universe := {root} + byId.Keys + (set id, r | id in byId && r in byId[id].rules :: r.goto);
    seen := {};
    var stack := [root];
    FrontierStart(byId, root);
    while stack != []
      invariant seen <= universe && forall x :: x in stack ==> x in universe
      invariant Frontier(byId, root, seen, stack)
      decreases universe - seen, |stack|
    {
      var id := stack[|stack| - 1];
      assert stack == stack[..|stack| - 1] + [id];
      stack := stack[..|stack| - 1];
      if id == "" || id in seen {
        FrontierSkip(byId, root, seen, id, stack);
        continue;
      }
      ghost var rest := stack;
      if id in byId {
        var node := byId[id];
        stack := PushGotos(stack, node.rules, seen + {id});
        if node.nodeType.Loop? {
          stack := PushChildren(stack, if id in children then children[id] else [], seen + {id});
        }
      }
      FrontierStep(byId, root, seen, id, rest, stack);
      seen := seen + {id};
    }
    FrontierDone(byId, root, seen);
  }
}
