/** What the scope vector promises the pricer, and what the validator promises the scope vector. */
module NormaliseLaws {
  import opened Wrappers
  import opened Engine
  import opened Bodies
  import opened Validator
  import opened Pricing
  import opened PricingLaws
  import opened Normalise

  /** A known service line, and a positive scope in that line's own unit. */
  ghost predicate WellScoped(card: RateCard, e: Entity) {
    var lines := BySlug(card.lines);
    && e.slug in lines
    && exists x: real :: x > 0.0 && e.dims == map[lines[e.slug].unit := Finite(x)]
  }

  /** The node or the loop an emitted entity comes from. */
  ghost predicate Origin(t: Template, e: Entity) {
    match e.id
    case TopEntity(id) => exists n :: n in t.nodes && n.id == id && IsTopLevel(n)
    case LoopEntity(id, _) => exists l :: l in t.nodes && l.id == id && l.nodeType.Loop? && l.loopSlug == e.slug && e.slug != ""
    case DriverEntity(id, _, child) =>
      && (exists l :: l in t.nodes && l.id == id && l.nodeType.Loop?)
      && exists n :: n in t.nodes && n.id == child && n.parent == id && n.binding.Some? && n.binding.value.slug == e.slug
    case OtherEntity(_) => false
  }

  // ── Distinctness ──────────────────────────────────────────────────────────

  ghost predicate DistinctNodes(nodes: seq<Node>) {
    forall i, j :: 0 <= i < j < |nodes| ==> nodes[i].id != nodes[j].id
  }

  ghost predicate Apart(a: seq<Entity>, b: seq<Entity>) {
    forall x, y :: x in a && y in b ==> x.id != y.id
  }

  lemma DistinctAppend(a: seq<Entity>, b: seq<Entity>)
    requires DistinctIds(a) && DistinctIds(b) && Apart(a, b)
    ensures DistinctIds(a + b)
  {
    forall i, j | 0 <= i < j < |a + b| ensures (a + b)[i].id != (a + b)[j].id {
      if i < |a| <= j {
        assert a[i] in a && b[j - |a|] in b;
      }
    }
  }

  lemma {:induction false} TopNodesDistinct(nodes: seq<Node>)
    requires DistinctNodes(nodes)
    ensures DistinctNodes(TopNodes(nodes))
  {
    if nodes == [] {
    } else {
      var front, last := nodes[..|nodes| - 1], nodes[|nodes| - 1];
      TopNodesDistinct(front);
      forall n | n in TopNodes(front) ensures n.id != last.id {
        var i :| 0 <= i < |front| && front[i] == n;
        assert nodes[i].id != nodes[|nodes| - 1].id;
      }
    }
  }

  lemma {:induction false} ChildrenDistinct(nodes: seq<Node>, p: string)
    requires DistinctNodes(nodes)
    ensures DistinctNodes(ChildrenOf(nodes, p))
  {
    if nodes == [] {
    } else {
      var front, last := nodes[..|nodes| - 1], nodes[|nodes| - 1];
      ChildrenDistinct(front, p);
      forall n | n in ChildrenOf(front, p) ensures n.id != last.id {
        var i :| 0 <= i < |front| && front[i] == n;
        assert nodes[i].id != nodes[|nodes| - 1].id;
      }
    }
  }

  lemma {:induction false} InsertDistinct(sorted: seq<Node>, n: Node)
    requires DistinctNodes(sorted) && forall x :: x in sorted ==> x.id != n.id
    ensures DistinctNodes(Insert(sorted, n))
  {
    if sorted == [] || sorted[|sorted| - 1].position <= n.position {
    } else {
      var front, last := sorted[..|sorted| - 1], sorted[|sorted| - 1];
      InsertDistinct(front, n);
      forall x | x in Insert(front, n) ensures x.id != last.id {
        if x in front {
          var i :| 0 <= i < |front| && front[i] == x;
          assert sorted[i].id != sorted[|sorted| - 1].id;
        }
      }
    }
  }

  lemma {:induction false} SortDistinct(nodes: seq<Node>)
    requires DistinctNodes(nodes)
    ensures DistinctNodes(SortByPosition(nodes))
  {
    if nodes == [] {
    } else {
      var front, last := nodes[..|nodes| - 1], nodes[|nodes| - 1];
      SortDistinct(front);
      forall x | x in SortByPosition(front) ensures x.id != last.id {
        var i :| 0 <= i < |front| && front[i] == x;
        assert nodes[i].id != nodes[|nodes| - 1].id;
      }
      InsertDistinct(SortByPosition(front), last);
    }
  }

  lemma BodyDistinct(t: Template, loop: Node)
    requires UniqueIds(t)
    ensures DistinctNodes(LoopBody(t, loop))
  {
    ChildrenDistinct(t.nodes, loop.id);
    SortDistinct(ChildrenOf(t.nodes, loop.id));
  }

  // ── Inherited values ──────────────────────────────────────────────────────

  /** The methodology a node sets at one iteration, if it sets one. */
  function MethodologySet(js: Js, answers: Answers, n: Node, iter: nat): Option<string> {
    if n.binding.Some? && n.binding.value.field.Methodology? && Filled(answers, n.id, iter).Some?
    then Some(TextOf(js, MapBound(Filled(answers, n.id, iter).value, n.binding.value))) else None
  }

  /** The customer type a node sets; any other text sets none. */
  function CustomerSet(answers: Answers, n: Node, iter: nat): Option<Customer> {
    if n.binding.None? || !n.binding.value.field.CustomerType? || Filled(answers, n.id, iter).None? then None
    else
      var mapped := MapBound(Filled(answers, n.id, iter).value, n.binding.value);
      if mapped == Text("internal") then Some(Internal) else if mapped == Text("external") then Some(External) else None
  }

  /** The i-th node sets a methodology, and none after it does. */
  ghost predicate LastMethodology(js: Js, answers: Answers, nodes: seq<Node>, iter: nat, i: int) {
    && 0 <= i < |nodes| && MethodologySet(js, answers, nodes[i], iter).Some?
    && forall j :: i < j < |nodes| ==> MethodologySet(js, answers, nodes[j], iter).None?
  }

  ghost predicate LastCustomer(answers: Answers, nodes: seq<Node>, iter: nat, i: int) {
    && 0 <= i < |nodes| && CustomerSet(answers, nodes[i], iter).Some?
    && forall j :: i < j < |nodes| ==> CustomerSet(answers, nodes[j], iter).None?
  }

  lemma OverrideSets(js: Js, answers: Answers, n: Node, iter: nat, d: Defaults)
    ensures var r := Override(js, answers, n, iter, d); var m, c := MethodologySet(js, answers, n, iter), CustomerSet(answers, n, iter);
      r.methodology == (if m.Some? then m else d.methodology) && r.customer == (if c.Some? then c.value else d.customer)
  {
    hide Filled, MapBound, TextOf;
  }

  lemma {:induction false} LastMethodologyWins(js: Js, answers: Answers, nodes: seq<Node>, iter: nat, d: Defaults, i: int)
    requires LastMethodology(js, answers, nodes, iter, i) || (i == -1 && forall n :: n in nodes ==> MethodologySet(js, answers, n, iter).None?)
    ensures Overrides(js, answers, nodes, iter, d).methodology
         == if i == -1 then d.methodology else MethodologySet(js, answers, nodes[i], iter)
  {
    hide Override, MethodologySet, CustomerSet;
    if nodes == [] {
    } else {
      var front, last := nodes[..|nodes| - 1], nodes[|nodes| - 1];
      assert last in nodes && forall n :: n in front ==> n in nodes;
      OverrideSets(js, answers, last, iter, Overrides(js, answers, front, iter, d));
      if i < |front| {
        LastMethodologyWins(js, answers, front, iter, d, i);
      }
    }
  }

  lemma {:induction false} LastCustomerWins(js: Js, answers: Answers, nodes: seq<Node>, iter: nat, d: Defaults, i: int)
    requires LastCustomer(answers, nodes, iter, i) || (i == -1 && forall n :: n in nodes ==> CustomerSet(answers, n, iter).None?)
    ensures Overrides(js, answers, nodes, iter, d).customer
         == if i == -1 then d.customer else CustomerSet(answers, nodes[i], iter).value
  {
    hide Override, MethodologySet, CustomerSet;
    if nodes == [] {
    } else {
      var front, last := nodes[..|nodes| - 1], nodes[|nodes| - 1];
      assert last in nodes && forall n :: n in front ==> n in nodes;
      OverrideSets(js, answers, last, iter, Overrides(js, answers, front, iter, d));
      if i < |front| {
        LastCustomerWins(js, answers, front, iter, d, i);
      }
    }
  }

  /** Each inherited value is what the last node that sets it sets it to, and is inherited unchanged
      where no node sets it. */
  lemma LastOverrideWins(js: Js, answers: Answers, nodes: seq<Node>, iter: nat, d: Defaults)
    ensures var r := Overrides(js, answers, nodes, iter, d);
      && (forall i :: LastMethodology(js, answers, nodes, iter, i) ==> r.methodology == MethodologySet(js, answers, nodes[i], iter))
      && (forall i :: LastCustomer(answers, nodes, iter, i) ==> r.customer == CustomerSet(answers, nodes[i], iter).value)
      && ((forall n :: n in nodes ==> MethodologySet(js, answers, n, iter).None?) ==> r.methodology == d.methodology)
      && ((forall n :: n in nodes ==> CustomerSet(answers, n, iter).None?) ==> r.customer == d.customer)
  {
    hide Overrides, MethodologySet, CustomerSet;
    forall i | LastMethodology(js, answers, nodes, iter, i) {
      LastMethodologyWins(js, answers, nodes, iter, d, i);
    }
    forall i | LastCustomer(answers, nodes, iter, i) {
      LastCustomerWins(js, answers, nodes, iter, d, i);
    }
    if forall n :: n in nodes ==> MethodologySet(js, answers, n, iter).None? {
      LastMethodologyWins(js, answers, nodes, iter, d, -1);
    }
    if forall n :: n in nodes ==> CustomerSet(answers, n, iter).None? {
      LastCustomerWins(js, answers, nodes, iter, d, -1);
    }
  }

  // ── The passes, one by one ────────────────────────────────────────────────

  lemma BoundIsScoped(js: Js, card: RateCard, answers: Answers, n: Node, iter: nat, id: EntityId, d: Defaults)
    ensures var out := BoundEntity(js, card, answers, n, iter, id, d);
      && |out| <= 1
      && forall e :: e in out ==> e.id == id && WellScoped(card, e) && n.binding.Some? && n.binding.value.slug == e.slug
  {
    hide BySlug, Filled, MapBound, NumberOf;
  }

  lemma MainIsScoped(card: RateCard, loop: Node, iter: nat, scope: Option<real>, d: Defaults)
    requires scope.Some? ==> scope.value > 0.0
    ensures var out := MainEntity(card, loop, iter, scope, d);
      && |out| <= 1
      && forall e :: e in out ==> e.id == LoopEntity(loop.id, iter) && WellScoped(card, e) && e.slug == loop.loopSlug && e.slug != ""
  {
    hide BySlug;
  }

  lemma {:induction false} TopsLaw(js: Js, card: RateCard, answers: Answers, nodes: seq<Node>, d: Defaults)
    requires DistinctNodes(nodes)
    ensures var out := Tops(js, card, answers, nodes, d);
      && DistinctIds(out)
      && forall e :: e in out ==> WellScoped(card, e) && exists n :: n in nodes && e.id == TopEntity(n.id)
  {
    hide BoundEntity, WellScoped;
    if nodes == [] {
    } else {
      var front, last := nodes[..|nodes| - 1], nodes[|nodes| - 1];
      TopsLaw(js, card, answers, front, d);
      BoundIsScoped(js, card, answers, last, 0, TopEntity(last.id), d);
      var a, b := Tops(js, card, answers, front, d), BoundEntity(js, card, answers, last, 0, TopEntity(last.id), d);
      forall x, y | x in a && y in b ensures x.id != y.id {
        var n :| n in front && x.id == TopEntity(n.id);
        var i :| 0 <= i < |front| && front[i] == n;
        assert nodes[i].id != nodes[|nodes| - 1].id;
      }
      DistinctAppend(a, b);
    }
  }

  ghost predicate FromDriver(loop: Node, body: seq<Node>, e: Entity, iter: nat) {
    exists n :: n in body && e.id == DriverEntity(loop.id, iter, n.id) && n.binding.Some? && n.binding.value.slug == e.slug
  }

  lemma {:induction false} DriversLaw(js: Js, card: RateCard, answers: Answers, loop: Node, body: seq<Node>, iter: nat, d: Defaults)
    requires DistinctNodes(body)
    ensures var out := Drivers(js, card, answers, loop, body, iter, d);
      && DistinctIds(out)
      && forall e :: e in out ==> WellScoped(card, e) && FromDriver(loop, body, e, iter)
  {
    hide BoundEntity, WellScoped;
    if body == [] {
    } else {
      var front, last := body[..|body| - 1], body[|body| - 1];
      var id := DriverEntity(loop.id, iter, last.id);
      DriversLaw(js, card, answers, loop, front, iter, d);
      BoundIsScoped(js, card, answers, last, iter, id, d);
      var a, b := Drivers(js, card, answers, loop, front, iter, d), BoundEntity(js, card, answers, last, iter, id, d);
      forall x, y | x in a && y in b ensures x.id != y.id {
        var n :| n in front && x.id == DriverEntity(loop.id, iter, n.id);
        var i :| 0 <= i < |front| && front[i] == n;
        assert body[i].id != body[|body| - 1].id;
      }
      DistinctAppend(a, b);
    }
  }

  /** Everything a loop emits carries the loop's id. */
  predicate OfLoop(id: EntityId, loopId: string) {
    || (id.LoopEntity? && id.loop == loopId)
    || (id.DriverEntity? && id.loop == loopId)
  }

  ghost predicate FromIteration(card: RateCard, loop: Node, body: seq<Node>, e: Entity, iter: nat) {
    && WellScoped(card, e)
    && if e.id == LoopEntity(loop.id, iter) then e.slug == loop.loopSlug && e.slug != ""
       else FromDriver(loop, body, e, iter)
  }

  lemma IterationLaw(js: Js, card: RateCard, answers: Answers, loop: Node, body: seq<Node>, iter: nat, d: Defaults)
    requires DistinctNodes(body)
    ensures var out := IterationEntities(js, card, answers, loop, body, iter, d);
      DistinctIds(out) && forall e :: e in out ==> FromIteration(card, loop, body, e, iter)
  {
    hide MainEntity, Drivers, WellScoped, MainScope, Overrides;
    var own := Overrides(js, answers, body, iter, d);
    var scope := MainScope(js, answers, body, iter);
    MainIsScoped(card, loop, iter, scope, own);
    DriversLaw(js, card, answers, loop, body, iter, own);
    DistinctAppend(MainEntity(card, loop, iter, scope, own), Drivers(js, card, answers, loop, body, iter, own));
  }

  ghost predicate FromLoop(card: RateCard, loop: Node, body: seq<Node>, e: Entity, iters: seq<nat>) {
    exists iter :: iter in iters && FromIteration(card, loop, body, e, iter)
  }

  lemma {:induction false} IterationsLaw(js: Js, card: RateCard, answers: Answers, loop: Node, body: seq<Node>, iters: seq<nat>, d: Defaults)
    requires DistinctNodes(body)
    requires forall i, j :: 0 <= i < j < |iters| ==> iters[i] < iters[j]
    ensures var out := Iterations(js, card, answers, loop, body, iters, d);
      DistinctIds(out) && forall e :: e in out ==> FromLoop(card, loop, body, e, iters)
  {
    hide IterationEntities, WellScoped;
    if iters == [] {
    } else {
      var front, last := iters[..|iters| - 1], iters[|iters| - 1];
      IterationsLaw(js, card, answers, loop, body, front, d);
      IterationLaw(js, card, answers, loop, body, last, d);
      var a, b := Iterations(js, card, answers, loop, body, front, d), IterationEntities(js, card, answers, loop, body, last, d);
      forall x | x in a ensures FromLoop(card, loop, body, x, iters) {
        var iter :| iter in front && FromIteration(card, loop, body, x, iter);
      }
      forall x, y | x in a && y in b ensures x.id != y.id {
        var iter :| iter in front && FromIteration(card, loop, body, x, iter);
        var i :| 0 <= i < |front| && front[i] == iter;
        assert iters[i] < iters[|iters| - 1];
      }
      DistinctAppend(a, b);
    }
  }

  ghost predicate FromSomeLoop(card: RateCard, t: Template, nodes: seq<Node>, e: Entity) {
    && WellScoped(card, e) && Origin(t, e)
    && exists l :: l in nodes && OfLoop(e.id, l.id)
  }

  lemma LoopLaw(js: Js, card: RateCard, answers: Answers, t: Template, loop: Node, d: Defaults)
    requires UniqueIds(t) && loop in t.nodes && loop.nodeType.Loop?
    ensures var out := LoopEntities(js, card, answers, t, loop, d);
      DistinctIds(out) && forall e :: e in out ==> FromSomeLoop(card, t, [loop], e)
  {
    hide Iterations, WellScoped, Sorted, ItersFilled, BodyOf;
    var body := LoopBody(t, loop);
    var iters := Sorted(ItersFilled(answers, body));
    BodyDistinct(t, loop);
    IterationsLaw(js, card, answers, loop, body, iters, d);
    forall e | e in LoopEntities(js, card, answers, t, loop, d) ensures FromSomeLoop(card, t, [loop], e) {
      var iter :| iter in iters && FromIteration(card, loop, body, e, iter);
      assert loop in [loop];
    }
  }

  lemma LoopsDiffer(x: EntityId, l: string, y: EntityId, m: string)
    requires OfLoop(x, l) && OfLoop(y, m) && l != m
    ensures x != y
  {
  }

  lemma {:induction false} LoopsLaw(js: Js, card: RateCard, answers: Answers, t: Template, nodes: seq<Node>, d: Defaults)
    requires UniqueIds(t) && DistinctNodes(nodes) && forall n :: n in nodes ==> n in t.nodes
    ensures var out := Loops(js, card, answers, t, nodes, d);
      DistinctIds(out) && forall e :: e in out ==> FromSomeLoop(card, t, nodes, e)
  {
    hide LoopEntities, WellScoped, Origin, OfLoop;
    if nodes == [] {
    } else {
      var front, last := nodes[..|nodes| - 1], nodes[|nodes| - 1];
      LoopsLaw(js, card, answers, t, front, d);
      var a := Loops(js, card, answers, t, front, d);
      forall x | x in a ensures FromSomeLoop(card, t, nodes, x) {
        var l :| l in front && OfLoop(x.id, l.id);
        assert l in nodes;
      }
      if last.nodeType.Loop? {
        LoopLaw(js, card, answers, t, last, d);
        var b := LoopEntities(js, card, answers, t, last, d);
        forall x, y | x in a && y in b ensures x.id != y.id {
          var l :| l in front && OfLoop(x.id, l.id);
          var i :| 0 <= i < |front| && front[i] == l;
          assert nodes[i].id != nodes[|nodes| - 1].id;
          LoopsDiffer(x.id, l.id, y.id, last.id);
        }
        forall y | y in b ensures FromSomeLoop(card, t, nodes, y) {
          assert last in nodes;
        }
        DistinctAppend(a, b);
      }
    }
  }

  // ── The scope vector ──────────────────────────────────────────────────────

  /** Entity ids are pairwise distinct, every slug is on the card, and every scope is positive and
      in its line's own unit. */
  lemma ScopeIsWellFormed(js: Js, card: RateCard, answers: Answers, t: Template, d: Defaults)
    requires UniqueIds(t)
    ensures var out := ScopeOf(js, card, answers, t, d);
      DistinctIds(out) && forall e :: e in out ==> WellScoped(card, e) && Origin(t, e)
  {
    hide Tops, Loops, WellScoped, TopNodes, TemplateDefaults;
    var own := TemplateDefaults(js, answers, t, d);
    TopNodesDistinct(t.nodes);
    TopsLaw(js, card, answers, TopNodes(t.nodes), own);
    LoopsLaw(js, card, answers, t, t.nodes, own);
    DistinctAppend(Tops(js, card, answers, TopNodes(t.nodes), own), Loops(js, card, answers, t, t.nodes, own));
  }

  /** Composition: pricing the scope vector never meets an unknown service line or an empty scope,
      and every line finds the pool of its own group. */
  lemma ScopePricesCleanly(js: Js, card: RateCard, answers: Answers, t: Template, d: Defaults)
    requires UniqueIds(t)
    ensures var entities := ScopeOf(js, card, answers, t, d);
      forall l :: l in QuoteOf(card, entities).lines ==>
        !l.outcome.UnknownServiceLine? && (!l.outcome.ManualQuote? ==> l.scope > 0.0)
        && exists e :: e in entities && e.id == l.entityId && l == LineOf(card, e, OwnPool(card, entities, e))
  {
    hide ScopeOf, WellScoped, LineOf, OwnPool, Pools, Total, PoolFor, Origin;
    var entities := ScopeOf(js, card, answers, t, d);
    ScopeIsWellFormed(js, card, answers, t, d);
    var lines := LinesOf(card, Pools(card, entities), entities);
    forall l | l in lines
      ensures !l.outcome.UnknownServiceLine? && (!l.outcome.ManualQuote? ==> l.scope > 0.0)
      ensures exists e :: e in entities && e.id == l.entityId && l == LineOf(card, e, OwnPool(card, entities, e))
    {
      var i :| 0 <= i < |lines| && lines[i] == l;
      assert entities[i] in entities;
      PoolIsOwn(card, entities, entities[i]);
      WellScopedLine(card, entities[i], OwnPool(card, entities, entities[i]));
    }
  }

  lemma WellScopedLine(card: RateCard, e: Entity, pool: Option<Pool>)
    requires WellScoped(card, e)
    ensures var l := LineOf(card, e, pool); !l.outcome.UnknownServiceLine? && (!l.outcome.ManualQuote? ==> l.scope > 0.0)
  {
    hide BySlug, OpenSlugs, FirstFit, Charge;
  }

  // ── What the collision check is for ───────────────────────────────────────

  /** Without a slug collision no iteration is billed twice for the loop's own service line. */
  lemma NoCollisionNoDoubleBilling(js: Js, card: RateCard, answers: Answers, t: Template, d: Defaults, number: Answer -> JsNumber,
                                   main: Entity, driver: Entity)
    requires UniqueIds(t) && Free(t, number, {LoopBodySlugCollision})
    requires main in ScopeOf(js, card, answers, t, d) && driver in ScopeOf(js, card, answers, t, d)
    requires main.id.LoopEntity? && driver.id.DriverEntity? && main.id.loop == driver.id.loop && main.id.iter == driver.id.iter
    ensures main.slug != driver.slug
  {
    hide ScopeOf, WellScoped, Reachable, ById;
    ScopeIsWellFormed(js, card, answers, t, d);
    var l :| l in t.nodes && l.id == main.id.loop && l.nodeType.Loop? && l.loopSlug == main.slug && main.slug != "";
    var n :| n in t.nodes && n.id == driver.id.child && n.parent == driver.id.loop && n.binding.Some? && n.binding.value.slug == driver.slug;
    assert !Reported(t, number, Issue(LoopBodySlugCollision, Some(n.id)));
    assert !CollisionIssue(l, n, Issue(LoopBodySlugCollision, Some(n.id)));
  }

  /** With one, an iteration that answers both is: two entities, one service line. */
  lemma CollisionBillsTwice(js: Js, card: RateCard, answers: Answers, loop: Node, body: seq<Node>, child: Node, iter: nat, d: Defaults)
    requires Collides(loop, child) && child in body && loop.loopSlug in BySlug(card.lines)
    requires MainScope(js, answers, body, iter).Some? && ScopeAt(js, answers, child, iter).Some?
    ensures var out := IterationEntities(js, card, answers, loop, body, iter, d);
      exists main, driver :: main in out && driver in out && main.slug == driver.slug == loop.loopSlug
        && main.id == LoopEntity(loop.id, iter) && driver.id == DriverEntity(loop.id, iter, child.id)
  {
    hide BySlug, ScopeAt, MainScope, Overrides, Drivers;
    var own := Overrides(js, answers, body, iter, d);
    var mains := MainEntity(card, loop, iter, MainScope(js, answers, body, iter), own);
    DriverEmitted(js, card, answers, loop, body, child, iter, own);
    var driver :| driver in Drivers(js, card, answers, loop, body, iter, own)
      && driver.id == DriverEntity(loop.id, iter, child.id) && driver.slug == child.binding.value.slug;
    assert mains[0] in mains;
  }

  lemma {:induction false} DriverEmitted(js: Js, card: RateCard, answers: Answers, loop: Node, body: seq<Node>, child: Node, iter: nat, d: Defaults)
    requires child in body && ScopeAt(js, answers, child, iter).Some?
    requires child.binding.value.slug != "" && child.binding.value.slug in BySlug(card.lines)
    ensures exists e :: e in Drivers(js, card, answers, loop, body, iter, d)
              && e.id == DriverEntity(loop.id, iter, child.id) && e.slug == child.binding.value.slug
  {
    hide BySlug;
    var front, last := body[..|body| - 1], body[|body| - 1];
    assert body == front + [last];
    if child == last {
      var out := BoundEntity(js, card, answers, child, iter, DriverEntity(loop.id, iter, child.id), d);
      assert out[0] in Drivers(js, card, answers, loop, body, iter, d);
    } else {
      DriverEmitted(js, card, answers, loop, front, child, iter, d);
      var e :| e in Drivers(js, card, answers, loop, front, iter, d)
        && e.id == DriverEntity(loop.id, iter, child.id) && e.slug == child.binding.value.slug;
      assert e in Drivers(js, card, answers, loop, body, iter, d);
    }
  }
}
