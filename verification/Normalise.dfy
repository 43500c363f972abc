/** Stage 1 of the pricing engine: gathered answers become a flat list of priceable entities. */
module Normalise {
  import opened Wrappers
  import opened Engine
  import opened Bodies
  import opened Pricing

  type Answers = map<(string, nat), Answer>

  /** JavaScript's conversions, which the normaliser applies to whatever is not already a number
      or a text; they may be any functions. */
  datatype Js = Js(number: Answer -> JsNumber, text: Answer -> string)

  /** The methodology and customer type that entities inherit. */
  datatype Defaults = Defaults(methodology: Method, customer: Customer)

  // ── Reading one answer ────────────────────────────────────────────────────

  /** An answer that is present, not null and not the empty text. */
  function Filled(answers: Answers, id: string, iter: nat): Option<Answer> {
    if (id, iter) !in answers || answers[(id, iter)] == Null || answers[(id, iter)] == Text("") then None
    else Some(answers[(id, iter)])
  }

  function MapBound(answer: Answer, binding: Binding): Answer {
    if binding.valueMap.Some? && answer.Text? && answer.text in binding.valueMap.value
    then Text(binding.valueMap.value[answer.text]) else answer
  }

  function NumberOf(js: Js, value: Answer): JsNumber {
    if value.Number? then Finite(value.number) else js.number(value)
  }

  function TextOf(js: Js, value: Answer): string {
    if value.Text? then value.text else js.text(value)
  }

  /** The positive count a node bound to `scope_value` contributes at one iteration. */
  function ScopeAt(js: Js, answers: Answers, n: Node, iter: nat): (scope: Option<real>)
    ensures scope.Some? ==> scope.value > 0.0
  {
    if n.binding.None? || !n.binding.value.field.ScopeValue? || Filled(answers, n.id, iter).None? then None
    else
      var x := NumberOf(js, MapBound(Filled(answers, n.id, iter).value, n.binding.value));
      if x.Finite? && x.value > 0.0 then Some(x.value) else None
  }

  /** What one node does to the inherited values. */
  function Override(js: Js, answers: Answers, n: Node, iter: nat, d: Defaults): Defaults {
    if n.binding.None? || Filled(answers, n.id, iter).None? then d
    else
      var mapped := MapBound(Filled(answers, n.id, iter).value, n.binding.value);
      match n.binding.value.field
      case Methodology => d.(methodology := Some(TextOf(js, mapped)))
      case CustomerType => if mapped == Text("internal") then d.(customer := Internal)
                           else if mapped == Text("external") then d.(customer := External) else d
      case _ => d
  }

  function Overrides(js: Js, answers: Answers, nodes: seq<Node>, iter: nat, d: Defaults): Defaults {
    if nodes == [] then d
    else Override(js, answers, nodes[|nodes| - 1], iter, Overrides(js, answers, nodes[..|nodes| - 1], iter, d))
  }

  predicate IsTopLevel(n: Node) {
    n.parent == "" && !n.nodeType.Loop? && !n.nodeType.Section?
  }

  function TopNodes(nodes: seq<Node>): (tops: seq<Node>)
    ensures forall n :: n in tops <==> n in nodes && IsTopLevel(n)
  {
    if nodes == [] then []
    else
      var last := nodes[|nodes| - 1];
      assert nodes == nodes[..|nodes| - 1] + [last];
      TopNodes(nodes[..|nodes| - 1]) + (if IsTopLevel(last) then [last] else [])
  }

  // ── Entities ──────────────────────────────────────────────────────────────

  /** An entity for a node that names its own service line, if the rate card knows it. */
  function BoundEntity(js: Js, card: RateCard, answers: Answers, n: Node, iter: nat, id: EntityId, d: Defaults): seq<Entity> {
    var lines := BySlug(card.lines);
    var scope := ScopeAt(js, answers, n, iter);
    if scope.None? || n.binding.value.slug == "" || n.binding.value.slug !in lines then []
    else [Entity(id, n.binding.value.slug, map[lines[n.binding.value.slug].unit := Finite(scope.value)], d.methodology, d.customer, None)]
  }

  function Tops(js: Js, card: RateCard, answers: Answers, nodes: seq<Node>, d: Defaults): seq<Entity> {
    if nodes == [] then []
    else
      var n := nodes[|nodes| - 1];
      Tops(js, card, answers, nodes[..|nodes| - 1], d) + BoundEntity(js, card, answers, n, 0, TopEntity(n.id), d)
  }

  /** The loop's own scope: its first child that counts and names no service line of its own. */
  function MainScope(js: Js, answers: Answers, body: seq<Node>, iter: nat): (scope: Option<real>)
    ensures scope.Some? ==> scope.value > 0.0
  {
    if body == [] then None
    else if ScopeAt(js, answers, body[0], iter).Some? && body[0].binding.value.slug == "" then ScopeAt(js, answers, body[0], iter)
    else MainScope(js, answers, body[1..], iter)
  }

  function MainEntity(card: RateCard, loop: Node, iter: nat, scope: Option<real>, d: Defaults): seq<Entity> {
    var lines := BySlug(card.lines);
    if loop.loopSlug == "" || scope.None? || loop.loopSlug !in lines then []
    else [Entity(LoopEntity(loop.id, iter), loop.loopSlug, map[lines[loop.loopSlug].unit := Finite(scope.value)], d.methodology, d.customer, None)]
  }

  function Drivers(js: Js, card: RateCard, answers: Answers, loop: Node, body: seq<Node>, iter: nat, d: Defaults): seq<Entity> {
    if body == [] then []
    else
      var n := body[|body| - 1];
      Drivers(js, card, answers, loop, body[..|body| - 1], iter, d)
      + BoundEntity(js, card, answers, n, iter, DriverEntity(loop.id, iter, n.id), d)
  }

  /** What one iteration emits: the loop's main entity, then one per driver child. */
  function IterationEntities(js: Js, card: RateCard, answers: Answers, loop: Node, body: seq<Node>, iter: nat, d: Defaults): seq<Entity> {
    var own := Overrides(js, answers, body, iter, d);
    MainEntity(card, loop, iter, MainScope(js, answers, body, iter), own) + Drivers(js, card, answers, loop, body, iter, own)
  }

  function ItersFilled(answers: Answers, body: seq<Node>): set<nat> {
    set key, n | key in answers && n in body && key.0 == n.id :: key.1
  }

  function Least(s: set<nat>): (m: nat)
    requires s != {}
    ensures m in s && forall x :: x in s ==> m <= x
  {
    LeastExists(s);
    var m :| m in s && forall x :: x in s ==> m <= x;
    m
  }

  lemma LeastExists(s: set<nat>)
    requires s != {}
    ensures exists m :: m in s && forall x :: x in s ==> m <= x
  {
    hide Below;
    var x :| x in s;
    var below := Below(s, x);
    if below == {} {
      forall y | y in s ensures x <= y {
        assert y !in below;
      }
    } else {
      assert x !in below;
      LeastExists(below);
      var m :| m in below && forall y :: y in below ==> m <= y;
      forall y | y in s ensures m <= y {
        if y !in below {
          assert x <= y;
        }
      }
    }
  }

  function Below(s: set<nat>, x: nat): (r: set<nat>)
    ensures r <= s && forall y :: y in r <==> y in s && y < x
  {
    set y | y in s && y < x
  }

  /** `[...set].sort((a, b) => a - b)` */
  function Sorted(s: set<nat>): (r: seq<nat>)
    ensures forall x :: x in r <==> x in s
    ensures forall i, j :: 0 <= i < j < |r| ==> r[i] < r[j]
  {
    if s == {} then [] else [Least(s)] + Sorted(s - {Least(s)})
  }

  function Iterations(js: Js, card: RateCard, answers: Answers, loop: Node, body: seq<Node>, iters: seq<nat>, d: Defaults): seq<Entity> {
    if iters == [] then []
    else
      Iterations(js, card, answers, loop, body, iters[..|iters| - 1], d)
      + IterationEntities(js, card, answers, loop, body, iters[|iters| - 1], d)
  }

  /** The children of a loop; the absent id is nobody's parent. */
  function LoopBody(t: Template, loop: Node): seq<Node> {
    if loop.id == "" then [] else BodyOf(t.nodes, loop.id)
  }

  function LoopEntities(js: Js, card: RateCard, answers: Answers, t: Template, loop: Node, d: Defaults): seq<Entity> {
    var body := LoopBody(t, loop);
    Iterations(js, card, answers, loop, body, Sorted(ItersFilled(answers, body)), d)
  }

  function Loops(js: Js, card: RateCard, answers: Answers, t: Template, nodes: seq<Node>, d: Defaults): seq<Entity> {
    if nodes == [] then []
    else
      var n := nodes[|nodes| - 1];
      Loops(js, card, answers, t, nodes[..|nodes| - 1], d) + (if n.nodeType.Loop? then LoopEntities(js, card, answers, t, n, d) else [])
  }

  function TemplateDefaults(js: Js, answers: Answers, t: Template, d: Defaults): Defaults {
    Overrides(js, answers, TopNodes(t.nodes), 0, d)
  }

  /** The scope vector: single occurrences first, then loop by loop, iteration by iteration. */
  function ScopeOf(js: Js, card: RateCard, answers: Answers, t: Template, d: Defaults): seq<Entity> {
    var own := TemplateDefaults(js, answers, t, d);
    Tops(js, card, answers, TopNodes(t.nodes), own) + Loops(js, card, answers, t, t.nodes, own)
  }

  // ── The program's passes ──────────────────────────────────────────────────

  /** One turn of the defaults loops. */
  method ApplyOverride(js: Js, answers: Answers, n: Node, iter: nat, d: Defaults) returns (r: Defaults)
    ensures r == Override(js, answers, n, iter, d)
  {
    hide MapBound, Filled, TextOf;
    if n.binding.None? || n.binding.value.field.Unset? {
      return d;
    }
    var answer := Filled(answers, n.id, iter);
    if answer.None? {
      return d;
    }
    var mapped := MapBound(answer.value, n.binding.value);
    if n.binding.value.field.Methodology? {
      return d.(methodology := Some(TextOf(js, mapped)));
    }
    if n.binding.value.field.CustomerType? {
      if mapped == Text("internal") {
        return d.(customer := Internal);
      }
      if mapped == Text("external") {
        return d.(customer := External);
      }
    }
    return d;
  }

  method PassTemplateDefaults(js: Js, answers: Answers, nodes: seq<Node>, d: Defaults) returns (r: Defaults)
    ensures r == Overrides(js, answers, TopNodes(nodes), 0, d)
  {
    hide Override;
    r := d;
    for i := 0 to |nodes|
      invariant r == Overrides(js, answers, TopNodes(nodes[..i]), 0, d)
    {
      TopNodesNext(nodes, i);
      if IsTopLevel(nodes[i]) {
        r := ApplyOverride(js, answers, nodes[i], 0, r);
      }
    }
    assert nodes[..|nodes|] == nodes;
  }

  method PassIterationDefaults(js: Js, answers: Answers, body: seq<Node>, iter: nat, d: Defaults) returns (r: Defaults)
    ensures r == Overrides(js, answers, body, iter, d)
  {
    hide Override;
    r := d;
    for i := 0 to |body|
      invariant r == Overrides(js, answers, body[..i], iter, d)
    {
      assert body[..i + 1][..i] == body[..i];
      r := ApplyOverride(js, answers, body[i], iter, r);
    }
    assert body[..|body|] == body;
  }

  lemma TopNodesNext(nodes: seq<Node>, i: nat)
    requires i < |nodes|
    ensures var tops := TopNodes(nodes[..i + 1]); var before := TopNodes(nodes[..i]);
      if IsTopLevel(nodes[i]) then tops != [] && tops[..|tops| - 1] == before && tops[|tops| - 1] == nodes[i] else tops == before
  {
    assert nodes[..i + 1][..i] == nodes[..i];
    assert (TopNodes(nodes[..i]) + [nodes[i]])[..|TopNodes(nodes[..i])|] == TopNodes(nodes[..i]);
  }

  method PassTops(js: Js, card: RateCard, answers: Answers, nodes: seq<Node>, d: Defaults) returns (out: seq<Entity>)
    ensures out == Tops(js, card, answers, TopNodes(nodes), d)
  {
    hide BoundEntity, TopNodes;
    out := [];
    NoTops();
    for i := 0 to |nodes|
      invariant out == Tops(js, card, answers, TopNodes(nodes[..i]), d)
    {
      TopNodesNext(nodes, i);
      if IsTopLevel(nodes[i]) {
        out := out + BoundEntity(js, card, answers, nodes[i], 0, TopEntity(nodes[i].id), d);
      }
    }
    assert nodes[..|nodes|] == nodes;
  }

  lemma NoTops()
    ensures TopNodes([]) == []
  {
  }

  method FindMainScope(js: Js, answers: Answers, body: seq<Node>, iter: nat) returns (scope: Option<real>)
    ensures scope == MainScope(js, answers, body, iter)
  {
    hide Filled, NumberOf, MapBound;
    for i := 0 to |body|
      invariant MainScope(js, answers, body, iter) == MainScope(js, answers, body[i..], iter)
    {
      var n := body[i];
      assert body[i..][1..] == body[i + 1..];
      var answer := Filled(answers, n.id, iter);
      if answer.None? || n.binding.None? || !n.binding.value.field.ScopeValue? || n.binding.value.slug != "" {
        continue;
      }
      var x := NumberOf(js, MapBound(answer.value, n.binding.value));
      if x.Finite? && x.value > 0.0 {
        return Some(x.value);
      }
    }
    return None;
  }

  method PassDrivers(js: Js, card: RateCard, answers: Answers, loop: Node, body: seq<Node>, iter: nat, d: Defaults) returns (out: seq<Entity>)
    ensures out == Drivers(js, card, answers, loop, body, iter, d)
  {
    hide BoundEntity;
    out := [];
    for i := 0 to |body|
      invariant out == Drivers(js, card, answers, loop, body[..i], iter, d)
    {
      assert body[..i + 1][..i] == body[..i];
      out := out + BoundEntity(js, card, answers, body[i], iter, DriverEntity(loop.id, iter, body[i].id), d);
    }
    assert body[..|body|] == body;
  }

  method CollectIters(answers: Answers, body: seq<Node>) returns (filled: set<nat>)
    ensures filled == ItersFilled(answers, body)
  {
    filled := {};
    for i := 0 to |body|
      invariant filled == ItersFilled(answers, body[..i])
    {
      filled := filled + set key | key in answers && key.0 == body[i].id :: key.1;
      assert body[..i + 1] == body[..i] + [body[i]];
    }
    assert body[..|body|] == body;
  }

  method NormaliseScope(js: Js, t: Template, card: RateCard, answers: Answers, d: Defaults) returns (out: seq<Entity>)
    ensures out == ScopeOf(js, card, answers, t, d)
  {
    hide BodyOf, Tops, TopNodes, Overrides, Iterations, ItersFilled, Sorted;
    var bodyByLoop := GroupBodiesByLoop(t.nodes);
    var own := PassTemplateDefaults(js, answers, t.nodes, d);
    out := PassTops(js, card, answers, t.nodes, own);
    ghost var tops := out;
    for i := 0 to |t.nodes|
      invariant out == tops + Loops(js, card, answers, t, t.nodes[..i], own)
    {
      var n := t.nodes[i];
      assert t.nodes[..i + 1][..i] == t.nodes[..i];
      if n.nodeType.Loop? {
        var body := if n.id in bodyByLoop then bodyByLoop[n.id] else [];
        var more := PassLoop(js, card, answers, n, body, own);
        out := out + more;
      }
    }
    assert t.nodes[..|t.nodes|] == t.nodes;
  }

  method PassLoop(js: Js, card: RateCard, answers: Answers, loop: Node, body: seq<Node>, d: Defaults) returns (out: seq<Entity>)
    ensures out == Iterations(js, card, answers, loop, body, Sorted(ItersFilled(answers, body)), d)
  {
    hide Overrides, Drivers, MainEntity, MainScope, ItersFilled, Sorted;
    out := [];
    var filled := CollectIters(answers, body);
    var iters := Sorted(filled);
    for i := 0 to |iters|
      invariant out == Iterations(js, card, answers, loop, body, iters[..i], d)
    {
      assert iters[..i + 1][..i] == iters[..i];
      var own := PassIterationDefaults(js, answers, body, iters[i], d);
      var scope := FindMainScope(js, answers, body, iters[i]);
      var drivers := PassDrivers(js, card, answers, loop, body, iters[i], own);
      out := out + (MainEntity(card, loop, iters[i], scope, own) + drivers);
    }
    assert iters[..|iters|] == iters;
  }
}
