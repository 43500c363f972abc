/** Which entities the scope vector holds, in terms of the template, the card and the answers alone. */
module NormaliseMeaning {
  import opened Wrappers
  import opened Engine
  import opened Bodies
  import opened Pricing
  import opened Normalise
  import opened NormaliseLaws

  // ── One answer ────────────────────────────────────────────────────────────

  /** The node has an answer at this iteration, neither null nor the empty text. */
  predicate Answered(answers: Answers, n: Node, iter: nat, a: Answer) {
    (n.id, iter) in answers && answers[(n.id, iter)] == a && a != Null && a != Text("")
  }

  /** What the binding makes of an answer: a text that the value map knows is replaced. */
  predicate Mapped(b: Binding, a: Answer, m: Answer) {
    if a.Text? && b.valueMap.Some? && a.text in b.valueMap.value then m == Text(b.valueMap.value[a.text]) else m == a
  }

  /** A node bound to `scope_value` counts x: a positive number that is the answer itself, or what
      `Number` makes of an answer of another kind, once mapped. */
  ghost predicate Counts(js: Js, answers: Answers, n: Node, iter: nat, x: real) {
    && n.binding.Some? && n.binding.value.field == ScopeValue && x > 0.0
    && exists a, m :: Answered(answers, n, iter, a) && Mapped(n.binding.value, a, m)
                      && if m.Number? then m.number == x else js.number(m) == Finite(x)
  }

  lemma ScopeMeans(js: Js, answers: Answers, n: Node, iter: nat, x: real)
    ensures ScopeAt(js, answers, n, iter) == Some(x) <==> Counts(js, answers, n, iter, x)
  {
    if n.binding.Some? && Filled(answers, n.id, iter).Some? {
      var a := answers[(n.id, iter)];
      assert Answered(answers, n, iter, a) && Mapped(n.binding.value, a, MapBound(a, n.binding.value));
    }
  }

  lemma CountsSomething(js: Js, answers: Answers, n: Node, iter: nat)
    ensures ScopeAt(js, answers, n, iter).Some? <==> exists x :: Counts(js, answers, n, iter, x)
  {
    hide ScopeAt, Counts;
    forall x ensures ScopeAt(js, answers, n, iter) == Some(x) <==> Counts(js, answers, n, iter, x) {
      ScopeMeans(js, answers, n, iter, x);
    }
    if ScopeAt(js, answers, n, iter).Some? {
      assert Counts(js, answers, n, iter, ScopeAt(js, answers, n, iter).value);
    }
  }

  // ── Inherited values ──────────────────────────────────────────────────────

  /** A node bound to `methodology` sets the text of its answer, once mapped. */
  ghost predicate SetsMethodology(js: Js, answers: Answers, n: Node, iter: nat, code: string) {
    && n.binding.Some? && n.binding.value.field == Field.Methodology
    && exists a, m :: Answered(answers, n, iter, a) && Mapped(n.binding.value, a, m) && code == if m.Text? then m.text else js.text(m)
  }

  /** A node bound to `customer_type` sets it when its answer, once mapped, is one of the two words. */
  ghost predicate SetsCustomer(answers: Answers, n: Node, iter: nat, c: Customer) {
    && n.binding.Some? && n.binding.value.field == CustomerType
    && exists a :: Answered(answers, n, iter, a) && Mapped(n.binding.value, a, Text(if c == Internal then "internal" else "external"))
  }

  /** The last node that sets a value sets it; where none does the value is inherited. */
  ghost predicate Inherits(js: Js, answers: Answers, nodes: seq<Node>, iter: nat, d: Defaults, r: Defaults) {
    && (|| (r.methodology == d.methodology && forall i, c :: 0 <= i < |nodes| ==> !SetsMethodology(js, answers, nodes[i], iter, c))
        || (exists i, code :: 0 <= i < |nodes| && SetsMethodology(js, answers, nodes[i], iter, code) && r.methodology == Some(code)
                              && forall j, c :: i < j < |nodes| ==> !SetsMethodology(js, answers, nodes[j], iter, c)))
    && (|| (r.customer == d.customer && forall i, c :: 0 <= i < |nodes| ==> !SetsCustomer(answers, nodes[i], iter, c))
        || (exists i :: 0 <= i < |nodes| && SetsCustomer(answers, nodes[i], iter, r.customer)
                        && forall j, c :: i < j < |nodes| ==> !SetsCustomer(answers, nodes[j], iter, c)))
  }

  lemma MethodologyMeans(js: Js, answers: Answers, n: Node, iter: nat, code: string)
    ensures MethodologySet(js, answers, n, iter) == Some(code) <==> SetsMethodology(js, answers, n, iter, code)
  {
    if n.binding.Some? && Filled(answers, n.id, iter).Some? {
      var a := answers[(n.id, iter)];
      assert Answered(answers, n, iter, a) && Mapped(n.binding.value, a, MapBound(a, n.binding.value));
    }
  }

  lemma CustomerMeans(answers: Answers, n: Node, iter: nat, c: Customer)
    ensures CustomerSet(answers, n, iter) == Some(c) <==> SetsCustomer(answers, n, iter, c)
  {
    if n.binding.Some? && Filled(answers, n.id, iter).Some? {
      var a := answers[(n.id, iter)];
      assert Answered(answers, n, iter, a) && Mapped(n.binding.value, a, MapBound(a, n.binding.value));
    }
  }

  ghost predicate IsLast<T>(nodes: seq<Node>, sets: Node -> Option<T>, i: int) {
    && 0 <= i < |nodes| && sets(nodes[i]).Some?
    && forall j :: i < j < |nodes| ==> sets(nodes[j]).None?
  }

  lemma {:induction false} LastSetter<T>(nodes: seq<Node>, sets: Node -> Option<T>)
    ensures (forall i :: 0 <= i < |nodes| ==> sets(nodes[i]).None?) || exists i :: IsLast(nodes, sets, i)
  {
    if nodes == [] {
    } else if sets(nodes[|nodes| - 1]).Some? {
      assert IsLast(nodes, sets, |nodes| - 1);
    } else {
      var front := nodes[..|nodes| - 1];
      LastSetter(front, sets);
      if i :| IsLast(front, sets, i) {
        assert IsLast(nodes, sets, i);
      } else {
        assert forall i :: 0 <= i < |front| ==> nodes[i] == front[i];
      }
    }
  }

  lemma OverridesMean(js: Js, answers: Answers, nodes: seq<Node>, iter: nat, d: Defaults)
    ensures Inherits(js, answers, nodes, iter, d, Overrides(js, answers, nodes, iter, d))
  {
    hide Overrides, MethodologySet, CustomerSet, SetsMethodology, SetsCustomer;
    LastOverrideWins(js, answers, nodes, iter, d);
    forall n, c ensures MethodologySet(js, answers, n, iter) == Some(c) <==> SetsMethodology(js, answers, n, iter, c) {
      MethodologyMeans(js, answers, n, iter, c);
    }
    forall n, c ensures CustomerSet(answers, n, iter) == Some(c) <==> SetsCustomer(answers, n, iter, c) {
      CustomerMeans(answers, n, iter, c);
    }
    var methodology: Node -> Option<string> := n => MethodologySet(js, answers, n, iter);
    var customer: Node -> Option<Customer> := n => CustomerSet(answers, n, iter);
    LastSetter(nodes, methodology);
    LastSetter(nodes, customer);
    if i :| IsLast(nodes, methodology, i) {
      assert LastMethodology(js, answers, nodes, iter, i);
      assert SetsMethodology(js, answers, nodes[i], iter, MethodologySet(js, answers, nodes[i], iter).value);
    }
    if i :| IsLast(nodes, customer, i) {
      assert LastCustomer(answers, nodes, iter, i);
      assert SetsCustomer(answers, nodes[i], iter, CustomerSet(answers, nodes[i], iter).value);
    }
  }

  /** The template-wide defaults come from the nodes outside loops that are neither loops nor sections,
      in template order. */
  lemma TopsInOrder(nodes: seq<Node>, n: Node)
    ensures TopNodes([]) == []
    ensures TopNodes(nodes + [n]) == TopNodes(nodes) + if n.parent == "" && n.nodeType != Loop && n.nodeType != Section then [n] else []
  {
    assert (nodes + [n])[..|nodes|] == nodes;
  }

  // ── Entities ──────────────────────────────────────────────────────────────

  /** An entity of a service line on the card: x of the line's own unit and nothing else. */
  predicate Emitted(card: RateCard, id: EntityId, slug: string, x: real, d: Defaults, e: Entity) {
    && slug != "" && slug in BySlug(card.lines)
    && e == Entity(id, slug, map[BySlug(card.lines)[slug].unit := Finite(x)], d.methodology, d.customer, None)
  }

  /** A node outside loops that counts, for the service line it names. */
  ghost predicate FromTop(js: Js, card: RateCard, answers: Answers, n: Node, d: Defaults, e: Entity) {
    && n.parent == "" && n.nodeType != Loop && n.nodeType != Section
    && exists x :: Counts(js, answers, n, 0, x) && Emitted(card, TopEntity(n.id), n.binding.value.slug, x, d, e)
  }

  /** The i-th child is the first that counts and names no service line of its own. */
  ghost predicate MainCount(js: Js, answers: Answers, body: seq<Node>, iter: nat, i: int, x: real) {
    && 0 <= i < |body| && Counts(js, answers, body[i], iter, x) && body[i].binding.value.slug == ""
    && forall j, y :: 0 <= j < i && Counts(js, answers, body[j], iter, y) ==> body[j].binding.value.slug != ""
  }

  /** A loop's own entity at one iteration. */
  ghost predicate FromMain(js: Js, card: RateCard, answers: Answers, t: Template, loop: Node, iter: nat, d: Defaults, e: Entity) {
    var body := BodyOf(t.nodes, loop.id);
    && loop.nodeType == Loop && loop.id != ""
    && exists i, x :: MainCount(js, answers, body, iter, i, x)
                      && Emitted(card, LoopEntity(loop.id, iter), loop.loopSlug, x, Overrides(js, answers, body, iter, d), e)
  }

  /** A child that counts at one iteration, for the service line it names. */
  ghost predicate FromChild(js: Js, card: RateCard, answers: Answers, t: Template, loop: Node, n: Node, iter: nat, d: Defaults, e: Entity) {
    && loop.nodeType == Loop && loop.id != "" && n.parent == loop.id
    && exists x :: Counts(js, answers, n, iter, x)
                   && Emitted(card, DriverEntity(loop.id, iter, n.id), n.binding.value.slug, x,
                              Overrides(js, answers, BodyOf(t.nodes, loop.id), iter, d), e)
  }

  lemma BoundMeans(js: Js, card: RateCard, answers: Answers, n: Node, iter: nat, id: EntityId, d: Defaults, e: Entity)
    ensures e in BoundEntity(js, card, answers, n, iter, id, d)
            <==> exists x :: Counts(js, answers, n, iter, x) && Emitted(card, id, n.binding.value.slug, x, d, e)
  {
    hide BySlug, ScopeAt, Counts;
    forall x ensures ScopeAt(js, answers, n, iter) == Some(x) <==> Counts(js, answers, n, iter, x) {
      ScopeMeans(js, answers, n, iter, x);
    }
    var scope := ScopeAt(js, answers, n, iter);
    if scope.Some? {
      CountsBound(js, answers, n, iter, scope.value);
    }
  }

  lemma CountsBound(js: Js, answers: Answers, n: Node, iter: nat, x: real)
    requires Counts(js, answers, n, iter, x)
    ensures n.binding.Some?
  {
  }

  lemma FromTopIs(js: Js, card: RateCard, answers: Answers, n: Node, d: Defaults, e: Entity)
    ensures FromTop(js, card, answers, n, d, e) <==> IsTopLevel(n) && e in BoundEntity(js, card, answers, n, 0, TopEntity(n.id), d)
  {
    hide BoundEntity, Counts, Emitted;
    BoundMeans(js, card, answers, n, 0, TopEntity(n.id), d, e);
  }

  lemma {:induction false} TopsHold(js: Js, card: RateCard, answers: Answers, tops: seq<Node>, d: Defaults, e: Entity)
    ensures e in Tops(js, card, answers, tops, d) <==> exists n :: n in tops && e in BoundEntity(js, card, answers, n, 0, TopEntity(n.id), d)
  {
    hide BoundEntity;
    if tops == [] {
    } else {
      assert tops == tops[..|tops| - 1] + [tops[|tops| - 1]];
      TopsHold(js, card, answers, tops[..|tops| - 1], d, e);
    }
  }

  lemma TopsMean(js: Js, card: RateCard, answers: Answers, nodes: seq<Node>, d: Defaults, e: Entity)
    ensures e in Tops(js, card, answers, TopNodes(nodes), d) <==> exists n :: n in nodes && FromTop(js, card, answers, n, d, e)
  {
    hide BoundEntity, FromTop, Tops, IsTopLevel;
    TopsHold(js, card, answers, TopNodes(nodes), d, e);
    forall n ensures FromTop(js, card, answers, n, d, e) <==> IsTopLevel(n) && e in BoundEntity(js, card, answers, n, 0, TopEntity(n.id), d) {
      FromTopIs(js, card, answers, n, d, e);
    }
  }

  lemma {:induction false} MainScopeMeans(js: Js, answers: Answers, body: seq<Node>, iter: nat)
    ensures var scope := MainScope(js, answers, body, iter);
      if scope.Some? then exists i :: MainCount(js, answers, body, iter, i, scope.value)
      else forall j, y :: 0 <= j < |body| && Counts(js, answers, body[j], iter, y) ==> body[j].binding.value.slug != ""
  {
    hide ScopeAt, Counts;
    if body == [] {
    } else {
      forall n, x ensures ScopeAt(js, answers, n, iter) == Some(x) <==> Counts(js, answers, n, iter, x) {
        ScopeMeans(js, answers, n, iter, x);
      }
      forall n, x ensures Counts(js, answers, n, iter, x) ==> n.binding.Some? {
        if Counts(js, answers, n, iter, x) { CountsBound(js, answers, n, iter, x); }
      }
      var rest := body[1..];
      MainScopeMeans(js, answers, rest, iter);
      assert forall j :: 0 < j < |body| ==> body[j] == rest[j - 1];
      var scope := ScopeAt(js, answers, body[0], iter);
      if scope.Some? && body[0].binding.value.slug == "" {
        assert MainCount(js, answers, body, iter, 0, scope.value);
        assert MainScope(js, answers, body, iter) == scope;
      } else if MainScope(js, answers, rest, iter).Some? {
        var x := MainScope(js, answers, rest, iter).value;
        var i :| MainCount(js, answers, rest, iter, i, x);
        assert MainCount(js, answers, body, iter, i + 1, x);
        assert MainScope(js, answers, body, iter) == Some(x);
      }
    }
  }

  lemma MainCountOnce(js: Js, answers: Answers, body: seq<Node>, iter: nat, i: int, x: real, j: int, y: real)
    requires MainCount(js, answers, body, iter, i, x) && MainCount(js, answers, body, iter, j, y)
    ensures x == y
  {
    hide ScopeAt, Counts;
    ScopeMeans(js, answers, body[i], iter, x);
    ScopeMeans(js, answers, body[j], iter, y);
  }

  lemma MainMeans(js: Js, card: RateCard, answers: Answers, loop: Node, body: seq<Node>, iter: nat, d: Defaults, e: Entity)
    ensures e in MainEntity(card, loop, iter, MainScope(js, answers, body, iter), d)
            <==> exists i, x :: MainCount(js, answers, body, iter, i, x) && Emitted(card, LoopEntity(loop.id, iter), loop.loopSlug, x, d, e)
  {
    hide BySlug, MainScope, MainCount;
    MainScopeMeans(js, answers, body, iter);
    var scope := MainScope(js, answers, body, iter);
    if i, x :| MainCount(js, answers, body, iter, i, x) {
      if scope.Some? {
        var j :| MainCount(js, answers, body, iter, j, scope.value);
        forall k, y | MainCount(js, answers, body, iter, k, y) ensures y == scope.value {
          MainCountOnce(js, answers, body, iter, k, y, j, scope.value);
        }
      } else {
        CountAnyway(js, answers, body, iter, i, x);
      }
    }
  }

  lemma CountAnyway(js: Js, answers: Answers, body: seq<Node>, iter: nat, i: int, x: real)
    requires MainCount(js, answers, body, iter, i, x)
    ensures exists j, y :: 0 <= j < |body| && Counts(js, answers, body[j], iter, y) && body[j].binding.value.slug == ""
  {
    hide Counts;
  }

  lemma {:induction false} DriversHold(js: Js, card: RateCard, answers: Answers, loop: Node, body: seq<Node>, iter: nat, d: Defaults, e: Entity)
    ensures e in Drivers(js, card, answers, loop, body, iter, d)
            <==> exists n :: n in body && e in BoundEntity(js, card, answers, n, iter, DriverEntity(loop.id, iter, n.id), d)
  {
    hide BoundEntity;
    if body == [] {
    } else {
      assert body == body[..|body| - 1] + [body[|body| - 1]];
      DriversHold(js, card, answers, loop, body[..|body| - 1], iter, d, e);
    }
  }

  lemma {:induction false} IterationsHold(js: Js, card: RateCard, answers: Answers, loop: Node, body: seq<Node>, iters: seq<nat>,
                                          d: Defaults, e: Entity)
    ensures e in Iterations(js, card, answers, loop, body, iters, d)
            <==> exists iter :: iter in iters && e in IterationEntities(js, card, answers, loop, body, iter, d)
  {
    hide IterationEntities;
    if iters == [] {
    } else {
      assert iters == iters[..|iters| - 1] + [iters[|iters| - 1]];
      IterationsHold(js, card, answers, loop, body, iters[..|iters| - 1], d, e);
    }
  }

  lemma {:induction false} LoopsHold(js: Js, card: RateCard, answers: Answers, t: Template, nodes: seq<Node>, d: Defaults, e: Entity)
    ensures e in Loops(js, card, answers, t, nodes, d)
            <==> exists l :: l in nodes && l.nodeType == Loop && e in LoopEntities(js, card, answers, t, l, d)
  {
    hide LoopEntities;
    if nodes == [] {
    } else {
      assert nodes == nodes[..|nodes| - 1] + [nodes[|nodes| - 1]];
      LoopsHold(js, card, answers, t, nodes[..|nodes| - 1], d, e);
    }
  }

  /** What one iteration of a loop with an id emits. */
  lemma IterationMeans(js: Js, card: RateCard, answers: Answers, t: Template, loop: Node, iter: nat, d: Defaults, e: Entity)
    requires loop.nodeType == Loop && loop.id != ""
    ensures e in IterationEntities(js, card, answers, loop, BodyOf(t.nodes, loop.id), iter, d)
            <==> FromMain(js, card, answers, t, loop, iter, d, e) || exists n :: n in t.nodes && FromChild(js, card, answers, t, loop, n, iter, d, e)
  {
    hide BySlug, MainScope, MainCount, MainEntity, Drivers, BoundEntity, BodyOf, Overrides, Counts, Emitted;
    var body := BodyOf(t.nodes, loop.id);
    var own := Overrides(js, answers, body, iter, d);
    MainMeans(js, card, answers, loop, body, iter, own, e);
    DriversHold(js, card, answers, loop, body, iter, own, e);
    forall n: Node ensures e in BoundEntity(js, card, answers, n, iter, DriverEntity(loop.id, iter, n.id), own) && n in body
                     <==> n in t.nodes && FromChild(js, card, answers, t, loop, n, iter, d, e) {
      BoundMeans(js, card, answers, n, iter, DriverEntity(loop.id, iter, n.id), own, e);
    }
  }

  lemma CountsHasRow(js: Js, answers: Answers, body: seq<Node>, n: Node, iter: nat, x: real)
    requires Counts(js, answers, n, iter, x) && n in body
    ensures iter in ItersFilled(answers, body)
  {
  }

  /** What a loop emits, over all its iterations. */
  lemma LoopMeans(js: Js, card: RateCard, answers: Answers, t: Template, loop: Node, d: Defaults, e: Entity)
    requires loop.nodeType == Loop
    ensures e in LoopEntities(js, card, answers, t, loop, d)
            <==> || (exists iter: nat :: FromMain(js, card, answers, t, loop, iter, d, e))
                 || (exists n, iter: nat :: n in t.nodes && FromChild(js, card, answers, t, loop, n, iter, d, e))
  {
    hide Iterations, IterationEntities, Sorted, ItersFilled, BodyOf, FromMain, FromChild;
    var body := LoopBody(t, loop);
    var iters := Sorted(ItersFilled(answers, body));
    IterationsHold(js, card, answers, loop, body, iters, d, e);
    if loop.id == "" {
      NoIters(js, card, answers, t, loop, d, e);
    } else {
      forall iter: nat ensures e in IterationEntities(js, card, answers, loop, body, iter, d)
            <==> FromMain(js, card, answers, t, loop, iter, d, e) || exists n :: n in t.nodes && FromChild(js, card, answers, t, loop, n, iter, d, e) {
        IterationMeans(js, card, answers, t, loop, iter, d, e);
      }
      forall iter: nat | FromMain(js, card, answers, t, loop, iter, d, e) ensures iter in iters {
        MainHasRow(js, card, answers, t, loop, iter, d, e);
      }
      forall n, iter: nat | n in t.nodes && FromChild(js, card, answers, t, loop, n, iter, d, e) ensures iter in iters {
        ChildHasRow(js, card, answers, t, loop, n, iter, d, e);
      }
    }
  }

  lemma NoIters(js: Js, card: RateCard, answers: Answers, t: Template, loop: Node, d: Defaults, e: Entity)
    requires loop.id == ""
    ensures ItersFilled(answers, LoopBody(t, loop)) == {} && Sorted({}) == []
    ensures forall iter: nat :: !FromMain(js, card, answers, t, loop, iter, d, e)
    ensures forall n, iter: nat :: !FromChild(js, card, answers, t, loop, n, iter, d, e)
  {
  }

  lemma MainHasRow(js: Js, card: RateCard, answers: Answers, t: Template, loop: Node, iter: nat, d: Defaults, e: Entity)
    requires FromMain(js, card, answers, t, loop, iter, d, e)
    ensures iter in ItersFilled(answers, BodyOf(t.nodes, loop.id))
  {
    hide BodyOf, ItersFilled, Emitted, Counts, Overrides;
    var body := BodyOf(t.nodes, loop.id);
    var i, x :| MainCount(js, answers, body, iter, i, x);
    CountsHasRow(js, answers, body, body[i], iter, x);
  }

  lemma ChildHasRow(js: Js, card: RateCard, answers: Answers, t: Template, loop: Node, n: Node, iter: nat, d: Defaults, e: Entity)
    requires n in t.nodes && FromChild(js, card, answers, t, loop, n, iter, d, e)
    ensures iter in ItersFilled(answers, BodyOf(t.nodes, loop.id))
  {
    hide BodyOf, ItersFilled, Emitted, Counts, Overrides;
    var x :| Counts(js, answers, n, iter, x);
    CountsHasRow(js, answers, BodyOf(t.nodes, loop.id), n, iter, x);
  }

  /** The scope vector holds exactly: an entity for every counting node outside loops, one for every
      iteration of a loop whose own scope is counted, and one for every counting child at every iteration,
      each for a service line on the card. */
  lemma ScopeHolds(js: Js, card: RateCard, answers: Answers, t: Template, d: Defaults, e: Entity)
    ensures var own := Overrides(js, answers, TopNodes(t.nodes), 0, d);
      e in ScopeOf(js, card, answers, t, d) <==>
        || (exists n :: n in t.nodes && FromTop(js, card, answers, n, own, e))
        || (exists l, iter: nat :: l in t.nodes && FromMain(js, card, answers, t, l, iter, own, e))
        || (exists l, n, iter: nat :: l in t.nodes && n in t.nodes && FromChild(js, card, answers, t, l, n, iter, own, e))
  {
    hide Tops, Loops, TopNodes, Overrides, LoopEntities, FromTop, FromMain, FromChild;
    var own := Overrides(js, answers, TopNodes(t.nodes), 0, d);
    TopsMean(js, card, answers, t.nodes, own, e);
    LoopsHold(js, card, answers, t, t.nodes, own, e);
    forall l: Node | l.nodeType == Loop
      ensures e in LoopEntities(js, card, answers, t, l, own)
              <==> || (exists iter: nat :: FromMain(js, card, answers, t, l, iter, own, e))
                   || (exists n, iter: nat :: n in t.nodes && FromChild(js, card, answers, t, l, n, iter, own, e))
    {
      LoopMeans(js, card, answers, t, l, own, e);
    }
    FromLoops(js, card, answers, t, own, e);
  }

  lemma FromLoops(js: Js, card: RateCard, answers: Answers, t: Template, d: Defaults, e: Entity)
    ensures forall l, iter: nat :: FromMain(js, card, answers, t, l, iter, d, e) ==> l.nodeType == Loop
    ensures forall l, n, iter: nat :: FromChild(js, card, answers, t, l, n, iter, d, e) ==> l.nodeType == Loop
  {
  }

  // ── Order ─────────────────────────────────────────────────────────────────

  ghost predicate Earlier(nodes: seq<Node>, x: string, y: string) {
    exists i, j :: 0 <= i < j < |nodes| && nodes[i].id == x && nodes[j].id == y
  }

  function LoopOf(id: EntityId): string
    requires id.LoopEntity? || id.DriverEntity?
  {
    id.loop
  }

  function IterOf(id: EntityId): nat
    requires id.LoopEntity? || id.DriverEntity?
  {
    id.iter
  }

  /** Single occurrences first, in template order; then loop by loop in template order, iteration by
      iteration, the loop's own entity before those of its children, and these in the order of the body. */
  ghost predicate Precedes(t: Template, x: EntityId, y: EntityId) {
    if x.TopEntity? && y.TopEntity? then Earlier(t.nodes, x.node, y.node)
    else if x.TopEntity? then y.LoopEntity? || y.DriverEntity?
    else
      && (x.LoopEntity? || x.DriverEntity?) && (y.LoopEntity? || y.DriverEntity?)
      && (|| Earlier(t.nodes, LoopOf(x), LoopOf(y))
          || (LoopOf(x) == LoopOf(y) && IterOf(x) < IterOf(y))
          || (LoopOf(x) == LoopOf(y) && IterOf(x) == IterOf(y) && y.DriverEntity?
              && (x.LoopEntity? || Earlier(BodyOf(t.nodes, LoopOf(x)), x.child, y.child))))
  }

  ghost predicate InOrder(t: Template, es: seq<Entity>) {
    forall i, j :: 0 <= i < j < |es| ==> Precedes(t, es[i].id, es[j].id)
  }

  lemma OrderAppend(t: Template, a: seq<Entity>, b: seq<Entity>)
    requires InOrder(t, a) && InOrder(t, b) && forall x, y :: x in a && y in b ==> Precedes(t, x.id, y.id)
    ensures InOrder(t, a + b)
  {
    hide Precedes;
    forall i, j | 0 <= i < j < |a + b| ensures Precedes(t, (a + b)[i].id, (a + b)[j].id) {
      if i < |a| <= j {
        assert a[i] in a && b[j - |a|] in b;
      }
    }
  }

  lemma Single(t: Template, es: seq<Entity>)
    requires |es| <= 1
    ensures InOrder(t, es)
  {
  }

  lemma BoundIs(js: Js, card: RateCard, answers: Answers, n: Node, iter: nat, id: EntityId, d: Defaults)
    ensures |BoundEntity(js, card, answers, n, iter, id, d)| <= 1 && forall e :: e in BoundEntity(js, card, answers, n, iter, id, d) ==> e.id == id
  {
    hide BySlug, ScopeAt;
  }

  lemma {:induction false} TopsInOrderOf(js: Js, card: RateCard, answers: Answers, t: Template, n: nat, d: Defaults)
    requires n <= |t.nodes|
    ensures InOrder(t, Tops(js, card, answers, TopNodes(t.nodes[..n]), d))
    ensures forall e :: e in Tops(js, card, answers, TopNodes(t.nodes[..n]), d) ==> exists i :: 0 <= i < n && e.id == TopEntity(t.nodes[i].id)
  {
    if n == 0 {
    } else {
      hide BoundEntity, InOrder, Tops, Earlier, TopNodes, IsTopLevel;
      TopsInOrderOf(js, card, answers, t, n - 1, d);
      var m := t.nodes[n - 1];
      var before, more := Tops(js, card, answers, TopNodes(t.nodes[..n - 1]), d), BoundEntity(js, card, answers, m, 0, TopEntity(m.id), d);
      BoundIs(js, card, answers, m, 0, TopEntity(m.id), d);
      Single(t, more);
      forall x, y | x in before && y in more ensures Precedes(t, x.id, y.id) {
        var i :| 0 <= i < n - 1 && x.id == TopEntity(t.nodes[i].id);
        EarlierAt(t.nodes, i, n - 1);
      }
      OrderAppend(t, before, more);
      TopsOneMore(js, card, answers, t, n, d);
    }
  }

  lemma TopsOneMore(js: Js, card: RateCard, answers: Answers, t: Template, n: nat, d: Defaults)
    requires 0 < n <= |t.nodes|
    ensures var m := t.nodes[n - 1]; var before := Tops(js, card, answers, TopNodes(t.nodes[..n - 1]), d);
      var all := Tops(js, card, answers, TopNodes(t.nodes[..n]), d);
      all == before || all == before + BoundEntity(js, card, answers, m, 0, TopEntity(m.id), d)
  {
    hide BoundEntity, TopNodes, Tops;
    var m := t.nodes[n - 1];
    assert t.nodes[..n] == t.nodes[..n - 1] + [m];
    TopsInOrder(t.nodes[..n - 1], m);
    TopsNext(js, card, answers, TopNodes(t.nodes[..n - 1]), m, d);
    assert TopNodes(t.nodes[..n - 1]) + [] == TopNodes(t.nodes[..n - 1]);
  }

  lemma TopsNext(js: Js, card: RateCard, answers: Answers, tops: seq<Node>, n: Node, d: Defaults)
    ensures Tops(js, card, answers, tops + [n], d) == Tops(js, card, answers, tops, d) + BoundEntity(js, card, answers, n, 0, TopEntity(n.id), d)
  {
    hide BoundEntity;
    assert (tops + [n])[..|tops|] == tops;
  }

  lemma EarlierAt(nodes: seq<Node>, i: nat, j: nat)
    requires i < j < |nodes|
    ensures Earlier(nodes, nodes[i].id, nodes[j].id)
  {
  }

  lemma DriverPrecedes(t: Template, loop: Node, iter: nat, i: nat, j: nat)
    requires i < j < |BodyOf(t.nodes, loop.id)|
    ensures var body := BodyOf(t.nodes, loop.id); Precedes(t, DriverEntity(loop.id, iter, body[i].id), DriverEntity(loop.id, iter, body[j].id))
  {
    hide BodyOf;
    EarlierAt(BodyOf(t.nodes, loop.id), i, j);
  }

  lemma DriversNext(js: Js, card: RateCard, answers: Answers, loop: Node, body: seq<Node>, iter: nat, n: nat, d: Defaults)
    requires 0 < n <= |body|
    ensures Drivers(js, card, answers, loop, body[..n], iter, d)
         == Drivers(js, card, answers, loop, body[..n - 1], iter, d)
            + BoundEntity(js, card, answers, body[n - 1], iter, DriverEntity(loop.id, iter, body[n - 1].id), d)
  {
    hide BoundEntity;
    assert body[..n][..n - 1] == body[..n - 1];
  }

  lemma {:induction false} DriversInOrder(js: Js, card: RateCard, answers: Answers, t: Template, loop: Node, iter: nat, n: nat, d: Defaults)
    requires n <= |BodyOf(t.nodes, loop.id)|
    ensures InOrder(t, Drivers(js, card, answers, loop, BodyOf(t.nodes, loop.id)[..n], iter, d))
    ensures var body := BodyOf(t.nodes, loop.id);
      forall e :: e in Drivers(js, card, answers, loop, body[..n], iter, d) ==>
        exists i :: 0 <= i < n && e.id == DriverEntity(loop.id, iter, body[i].id)
  {
    hide BodyOf;
    if n == 0 {
    } else {
      hide BoundEntity, InOrder, Precedes, Drivers;
      var body := BodyOf(t.nodes, loop.id);
      DriversInOrder(js, card, answers, t, loop, iter, n - 1, d);
      var m := body[n - 1];
      var id := DriverEntity(loop.id, iter, m.id);
      var before, more := Drivers(js, card, answers, loop, body[..n - 1], iter, d), BoundEntity(js, card, answers, m, iter, id, d);
      BoundIs(js, card, answers, m, iter, id, d);
      Single(t, more);
      forall x, y | x in before && y in more ensures Precedes(t, x.id, y.id) {
        var i :| 0 <= i < n - 1 && x.id == DriverEntity(loop.id, iter, body[i].id);
        DriverPrecedes(t, loop, iter, i, n - 1);
      }
      OrderAppend(t, before, more);
      DriversNext(js, card, answers, loop, body, iter, n, d);
    }
  }

  lemma IterationInOrder(js: Js, card: RateCard, answers: Answers, t: Template, loop: Node, iter: nat, d: Defaults)
    ensures var out := IterationEntities(js, card, answers, loop, BodyOf(t.nodes, loop.id), iter, d);
      InOrder(t, out) && forall e :: e in out ==> (e.id.LoopEntity? || e.id.DriverEntity?) && LoopOf(e.id) == loop.id && IterOf(e.id) == iter
  {
    hide BodyOf, Drivers, InOrder, Earlier, Overrides, MainScope, BySlug;
    var body := BodyOf(t.nodes, loop.id);
    var own := Overrides(js, answers, body, iter, d);
    DriversInOrder(js, card, answers, t, loop, iter, |body|, own);
    assert body[..|body|] == body;
    var main := MainEntity(card, loop, iter, MainScope(js, answers, body, iter), own);
    Single(t, main);
    OrderAppend(t, main, Drivers(js, card, answers, loop, body, iter, own));
  }

  lemma {:induction false} IterationsInOrder(js: Js, card: RateCard, answers: Answers, t: Template, loop: Node, iters: seq<nat>, d: Defaults)
    requires forall i, j :: 0 <= i < j < |iters| ==> iters[i] < iters[j]
    ensures var out := Iterations(js, card, answers, loop, BodyOf(t.nodes, loop.id), iters, d);
      InOrder(t, out) && forall e :: e in out ==> (e.id.LoopEntity? || e.id.DriverEntity?) && LoopOf(e.id) == loop.id && IterOf(e.id) in iters
  {
    hide BodyOf, IterationEntities, Earlier;
    if iters == [] {
    } else {
      hide InOrder;
      var front, last := iters[..|iters| - 1], iters[|iters| - 1];
      assert iters == front + [last];
      IterationsInOrder(js, card, answers, t, loop, front, d);
      IterationInOrder(js, card, answers, t, loop, last, d);
      var body := BodyOf(t.nodes, loop.id);
      var before, more := Iterations(js, card, answers, loop, body, front, d), IterationEntities(js, card, answers, loop, body, last, d);
      forall x, y | x in before && y in more ensures Precedes(t, x.id, y.id) {
        var k :| 0 <= k < |front| && front[k] == IterOf(x.id);
        assert iters[k] < iters[|iters| - 1];
      }
      OrderAppend(t, before, more);
    }
  }

  lemma LoopInOrder(js: Js, card: RateCard, answers: Answers, t: Template, loop: Node, d: Defaults)
    ensures var out := LoopEntities(js, card, answers, t, loop, d);
      InOrder(t, out) && forall e :: e in out ==> Belongs(e, loop)
  {
    hide BodyOf, ItersFilled, Sorted, InOrder;
    if loop.id == "" {
      NoIterations(js, card, answers, t, loop, d);
    } else {
      hide Iterations;
      IterationsInOrder(js, card, answers, t, loop, Sorted(ItersFilled(answers, LoopBody(t, loop))), d);
    }
  }

  lemma NoIterations(js: Js, card: RateCard, answers: Answers, t: Template, loop: Node, d: Defaults)
    requires loop.id == ""
    ensures LoopEntities(js, card, answers, t, loop, d) == [] && InOrder(t, [])
  {
    assert ItersFilled(answers, []) == {} && Sorted({}) == [];
  }

  predicate OfLoops(id: EntityId) {
    id.LoopEntity? || id.DriverEntity?
  }

  /** The entity belongs to one of the first n nodes. */
  ghost predicate Within(t: Template, e: Entity, n: nat)
    requires n <= |t.nodes|
  {
    OfLoops(e.id) && exists i :: 0 <= i < n && LoopOf(e.id) == t.nodes[i].id
  }

  predicate Belongs(e: Entity, loop: Node) {
    OfLoops(e.id) && LoopOf(e.id) == loop.id
  }

  lemma WithinMore(t: Template, e: Entity, n: nat)
    requires 0 < n <= |t.nodes| && (Within(t, e, n - 1) || Belongs(e, t.nodes[n - 1]))
    ensures Within(t, e, n)
  {
  }

  lemma WithinPrecedes(t: Template, x: Entity, y: Entity, n: nat)
    requires 0 < n <= |t.nodes| && Within(t, x, n - 1) && Belongs(y, t.nodes[n - 1])
    ensures Precedes(t, x.id, y.id)
  {
    var i :| 0 <= i < n - 1 && LoopOf(x.id) == t.nodes[i].id;
    EarlierAt(t.nodes, i, n - 1);
  }

  lemma LoopsNext(js: Js, card: RateCard, answers: Answers, t: Template, n: nat, d: Defaults)
    requires 0 < n <= |t.nodes|
    ensures var before := Loops(js, card, answers, t, t.nodes[..n - 1], d); var all := Loops(js, card, answers, t, t.nodes[..n], d);
      all == before || all == before + LoopEntities(js, card, answers, t, t.nodes[n - 1], d)
  {
    hide LoopEntities;
    assert t.nodes[..n][..n - 1] == t.nodes[..n - 1];
  }

  lemma {:induction false} LoopsInOrder(js: Js, card: RateCard, answers: Answers, t: Template, n: nat, d: Defaults)
    requires n <= |t.nodes|
    ensures InOrder(t, Loops(js, card, answers, t, t.nodes[..n], d))
    ensures forall e :: e in Loops(js, card, answers, t, t.nodes[..n], d) ==> Within(t, e, n)
  {
    if n == 0 {
    } else {
      hide LoopEntities, InOrder, Precedes, Loops, Within, Belongs;
      LoopsInOrder(js, card, answers, t, n - 1, d);
      var m := t.nodes[n - 1];
      var before, more := Loops(js, card, answers, t, t.nodes[..n - 1], d), LoopEntities(js, card, answers, t, m, d);
      LoopInOrder(js, card, answers, t, m, d);
      forall x, y | x in before && y in more ensures Precedes(t, x.id, y.id) {
        WithinPrecedes(t, x, y, n);
      }
      OrderAppend(t, before, more);
      forall e | e in before || e in more ensures Within(t, e, n) {
        WithinMore(t, e, n);
      }
      LoopsNext(js, card, answers, t, n, d);
    }
  }

  /** The scope vector is in that order. */
  lemma ScopeInOrder(js: Js, card: RateCard, answers: Answers, t: Template, d: Defaults)
    ensures InOrder(t, ScopeOf(js, card, answers, t, d))
  {
    hide Tops, TopNodes, Loops, InOrder, TemplateDefaults, Earlier;
    var own := TemplateDefaults(js, answers, t, d);
    TopsInOrderOf(js, card, answers, t, |t.nodes|, own);
    LoopsInOrder(js, card, answers, t, |t.nodes|, own);
    assert t.nodes[..|t.nodes|] == t.nodes;
    OrderAppend(t, Tops(js, card, answers, TopNodes(t.nodes), own), Loops(js, card, answers, t, t.nodes, own));
  }
}
