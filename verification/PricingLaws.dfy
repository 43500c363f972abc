/** Laws of Stage 2: volume pooling agrees with one combined entity, and order does not matter. */
module PricingLaws {
  import opened Wrappers
  import opened Engine
  import opened Permutations
  import opened Pricing

  ghost predicate DistinctIds(entities: seq<Entity>) {
    forall i, j :: 0 <= i < j < |entities| ==> entities[i].id != entities[j].id
  }

  // ── Rounding ──────────────────────────────────────────────────────────────

  lemma RoundIsNear(x: real)
    ensures -0.5 <= Round(x) as real - x <= 0.5
  {
  }

  lemma RoundMonotone(x: real, y: real)
    requires x <= y
    ensures Round(x) <= Round(y)
  {
  }

  // ── One line ──────────────────────────────────────────────────────────────

  ghost predicate FirstAt(tiers: seq<Tier>, i: int, scope: real, methodology: Method, customer: Customer) {
    && 0 <= i < |tiers| && TierFits(tiers[i], scope, methodology, customer)
    && forall j :: 0 <= j < i ==> !TierFits(tiers[j], scope, methodology, customer)
  }

  lemma {:induction false} FirstFitIsFirst(tiers: seq<Tier>, scope: real, methodology: Method, customer: Customer)
    ensures var r := FirstFit(tiers, scope, methodology, customer);
      if r.None? then forall i :: 0 <= i < |tiers| ==> !TierFits(tiers[i], scope, methodology, customer)
      else exists i :: FirstAt(tiers, i, scope, methodology, customer) && r.value == tiers[i]
  {
    hide TierFits;
    if tiers == [] {
    } else if TierFits(tiers[0], scope, methodology, customer) {
      assert FirstAt(tiers, 0, scope, methodology, customer);
    } else {
      FirstFitIsFirst(tiers[1..], scope, methodology, customer);
      var r := FirstFit(tiers, scope, methodology, customer);
      if r.Some? {
        var i :| FirstAt(tiers[1..], i, scope, methodology, customer) && r.value == tiers[1..][i];
        assert forall j :: 0 < j < |tiers| ==> tiers[j] == tiers[1..][j - 1];
        assert FirstAt(tiers, i + 1, scope, methodology, customer);
      } else {
        assert forall j :: 0 < j < |tiers| ==> tiers[j] == tiers[1..][j - 1];
      }
    }
  }

  /** The kinds of line: by hand exactly for open services, unknown exactly for slugs on neither list,
      and only priced lines cost anything. */
  lemma LineKinds(card: RateCard, e: Entity, pool: Option<Pool>)
    ensures var l := LineOf(card, e, pool);
      && (l.outcome.ManualQuote? <==> exists o :: o in card.open && o.slug == e.slug)
      && (l.outcome.UnknownServiceLine? <==>
            (forall o :: o in card.open ==> o.slug != e.slug) && forall s :: s in card.lines ==> s.slug != e.slug)
      && (l.priceCents != 0 ==> l.outcome.Priced?)
  {
    hide BySlug, FirstFit, Charge;
    assert forall s :: s in OpenSlugs(card) <==> exists o :: o in card.open && o.slug == s;
  }

  /** An entity on its own is priced exactly when some tier of its line fits its own scope, by the
      first that does: its rate times the scope within half a cent, or its flat price. */
  lemma OwnTierLine(card: RateCard, e: Entity)
    requires e.slug in BySlug(card.lines) && e.slug !in OpenSlugs(card)
    ensures var l := LineOf(card, e, None); var line := BySlug(card.lines)[e.slug]; var scope := SafeScope(e.dims, line.unit);
      if l.outcome.NoMatchingTier? then forall t :: t in line.tiers ==> !TierFits(t, scope, e.methodology, e.customer)
      else exists i :: FirstAt(line.tiers, i, scope, e.methodology, e.customer) && PricedBy(l, line, line.tiers[i], scope)
  {
    hide BySlug, OpenSlugs, TierFits, Charge, Round;
    var line := BySlug(card.lines)[e.slug];
    var scope := SafeScope(e.dims, line.unit);
    FirstFitIsFirst(line.tiers, scope, e.methodology, e.customer);
    var r := FirstFit(line.tiers, scope, e.methodology, e.customer);
    if r.Some? {
      RoundIsNear(Charge(r.value.priceCents, scope));
    }
  }

  predicate PricedBy(l: Line, line: ServiceLine, t: Tier, scope: real) {
    && l.outcome.Priced? && l.outcome.tierId == t.id && l.scope == scope
    && if line.model.PerUnit? then -0.5 <= l.priceCents as real - Charge(t.priceCents, scope) <= 0.5
       else l.priceCents == t.priceCents
  }

  // ── Which pool an entity gets ─────────────────────────────────────────────

  /** The pool an entity belongs to by its own key, whatever the other groups are. */
  function OwnPool(card: RateCard, entities: seq<Entity>, e: Entity): Option<Pool> {
    if Poolable(card, e) then PoolOfGroup(card, GroupOf(card, entities, KeyOf(e))) else None
  }

  lemma {:induction false} PoolsLookup(card: RateCard, entities: seq<Entity>, keys: seq<PoolKey>, e: Entity)
    requires DistinctIds(entities) && e in entities
    requires forall i, j :: 0 <= i < j < |keys| ==> keys[i] != keys[j]
    ensures PoolFor(PoolsOf(card, entities, keys), e)
         == if Poolable(card, e) && KeyOf(e) in keys then OwnPool(card, entities, e) else None
  {
    hide Poolable, PoolOfGroup, KeyOf, GroupOf;
    if keys == [] {
    } else {
      var front, last := keys[..|keys| - 1], keys[|keys| - 1];
      assert keys == front + [last];
      PoolsLookup(card, entities, front, e);
      var group := GroupOf(card, entities, last);
      forall g | g in group && !(Poolable(card, e) && KeyOf(e) == last) ensures g.id != e.id {
        var i :| 0 <= i < |entities| && entities[i] == g;
        var j :| 0 <= j < |entities| && entities[j] == e;
      }
    }
  }

  /** With distinct entity ids, `pooledByEntity` holds each entity's own pool and no other. */
  lemma PoolIsOwn(card: RateCard, entities: seq<Entity>, e: Entity)
    requires DistinctIds(entities) && e in entities
    ensures PoolFor(Pools(card, entities), e) == OwnPool(card, entities, e)
  {
    hide Poolable, PoolOfGroup, KeyOf, PoolsOf;
    PoolsLookup(card, entities, Keys(card, entities), e);
    if Poolable(card, e) {
      assert e in GroupOf(card, entities, KeyOf(e));
    }
  }

  // ── A pooled group is priced like one combined entity ─────────────────────

  /** One entity with the summed scope of the group. */
  function Combined(group: seq<Entity>, unit: ScopeUnit, id: EntityId): Entity
    requires group != []
  {
    Entity(id, group[0].slug, map[unit := Finite(SumScope(group, unit))], group[0].methodology, group[0].customer, None)
  }

  predicate IsWhole(x: real) {
    x == x.Floor as real
  }

  lemma ChargeSum(rate: int, x: real, y: real)
    ensures Charge(rate, x + y) == Charge(rate, x) + Charge(rate, y)
  {
  }

  lemma {:induction false} ChargeNat(rate: int, n: nat)
    ensures Charge(rate, n as real) == (rate * n) as real
  {
    if n == 0 {
    } else {
      hide Charge;
      ChargeNat(rate, n - 1);
      ChargeSum(rate, (n - 1) as real, 1.0);
      ChargeOne(rate);
      assert (n - 1) as real + 1.0 == n as real;
      assert rate * n == rate * (n - 1) + rate;
    }
  }

  lemma ChargeOne(rate: int)
    ensures Charge(rate, 1.0) == rate as real
  {
  }

  lemma RoundOfInt(k: int)
    ensures Round(k as real) == k
  {
  }

  lemma WholeCharge(rate: int, x: real)
    requires IsWhole(x) && x >= 0.0
    ensures Round(Charge(rate, x)) as real == Charge(rate, x)
  {
    hide Charge, Round;
    var n: nat := x.Floor;
    assert x == n as real;
    ChargeNat(rate, n);
    RoundOfInt(rate * n);
  }

  /** The service line of a group of poolable entities. */
  function LineOfGroup(card: RateCard, group: seq<Entity>): ServiceLine
    requires group != [] && forall e :: e in group ==> Poolable(card, e)
  {
    assert Poolable(card, group[0]);
    BySlug(card.lines)[group[0].slug]
  }

  /** What a member of a pool pays: the pooled unit rate times its own scope. */
  lemma PooledLine(card: RateCard, entities: seq<Entity>, e: Entity)
    requires DistinctIds(entities) && e in entities && Poolable(card, e) && e.slug !in OpenSlugs(card)
    requires OwnPool(card, entities, e).Some?
    ensures var pool := OwnPool(card, entities, e).value; var unit := LineOfGroup(card, [e]).unit;
      var l := LineOf(card, e, PoolFor(Pools(card, entities), e));
      && l.pooledAcross == Some(pool.count) && l.outcome == Priced(pool.tier.id, PerUnit, Some(pool.tier.priceCents))
      && l.scope == SafeScope(e.dims, unit)
      && l.priceCents == Round(Charge(pool.tier.priceCents, SafeScope(e.dims, unit)))
  {
    hide Pools, OwnPool, Charge, SafeScope, FirstFit, BySlug, OpenSlugs;
    PoolIsOwn(card, entities, e);
  }

  lemma RatedStep(card: RateCard, pools: map<EntityId, Pool>, group: seq<Entity>, unit: ScopeUnit, rate: int)
    requires group != []
    ensures var front, last := group[..|group| - 1], group[|group| - 1];
      && Total(LinesOf(card, pools, group)) == Total(LinesOf(card, pools, front)) + LineOf(card, last, PoolFor(pools, last)).priceCents
      && Charge(rate, SumScope(group, unit)) == Charge(rate, SumScope(front, unit)) + Charge(rate, SafeScope(last.dims, unit))
  {
    hide LineOf, SafeScope, PoolFor, Charge;
    var front, last := group[..|group| - 1], group[|group| - 1];
    assert LinesOf(card, pools, group)[..|group| - 1] == LinesOf(card, pools, front);
    ChargeSum(rate, SumScope(front, unit), SafeScope(last.dims, unit));
  }

  lemma {:induction false} RatedSum(card: RateCard, pools: map<EntityId, Pool>, group: seq<Entity>, unit: ScopeUnit, rate: int)
    requires forall e :: e in group ==>
      LineOf(card, e, PoolFor(pools, e)).priceCents == Round(Charge(rate, SafeScope(e.dims, unit)))
    ensures var total := Total(LinesOf(card, pools, group)) as real; var exact := Charge(rate, SumScope(group, unit));
      && -(|group| as real) / 2.0 <= total - exact <= |group| as real / 2.0
      && ((forall e :: e in group ==> IsWhole(SafeScope(e.dims, unit))) ==> total == exact)
  {
    hide LineOf, SafeScope, PoolFor, Charge, Round, IsWhole;
    if group == [] {
      ChargeNat(rate, 0);
    } else {
      hide SumScope, LinesOf, Total;
      var front, last := group[..|group| - 1], group[|group| - 1];
      assert group == front + [last];
      RatedStep(card, pools, group, unit, rate);
      RatedSum(card, pools, front, unit, rate);
      var x := SafeScope(last.dims, unit);
      RoundIsNear(Charge(rate, x));
      if IsWhole(x) {
        WholeCharge(rate, x);
      }
    }
  }

  /** The combined entity meets the tier the group was pooled on. */
  lemma {:induction false} CombinedQuote(card: RateCard, group: seq<Entity>, id: EntityId)
    requires group != [] && (forall e :: e in group ==> Poolable(card, e)) && group[0].slug !in OpenSlugs(card)
    requires PoolOfGroup(card, group).Some?
    ensures var unit := LineOfGroup(card, group).unit; var q := QuoteOf(card, [Combined(group, unit, id)]);
      && q.totalCents == Round(Charge(PoolOfGroup(card, group).value.tier.priceCents, SumScope(group, unit)))
      && !q.hasUnmatched && !q.hasManualQuote
  {
    hide BySlug, FirstFit, OpenSlugs, SumScope, Charge, Pools;
    assert Poolable(card, group[0]);
    var e := Combined(group, LineOfGroup(card, group).unit, id);
    SingletonIsUnpooled(card, e);
    var lines := LinesOf(card, Pools(card, [e]), [e]);
    assert lines == [LineOf(card, e, None)];
    assert Total(lines) == Total(lines[..0]) + lines[0].priceCents;
  }

  lemma SingletonIsUnpooled(card: RateCard, e: Entity)
    ensures PoolFor(Pools(card, [e]), e) == None
  {
    hide BySlug, Poolable;
    PoolIsOwn(card, [e], e);
    assert [e][..0] == [];
  }

  /** Pooling law.  The members of a pooled group together pay the combined rate times the summed
      scope up to half a cent each, and exactly the price of the one combined entity when scopes are whole. */
  lemma PooledGroupTotal(card: RateCard, entities: seq<Entity>, key: PoolKey, id: EntityId)
    requires DistinctIds(entities) && key.slug !in OpenSlugs(card)
    requires |GroupOf(card, entities, key)| >= 2 && PoolOfGroup(card, GroupOf(card, entities, key)).Some?
    ensures var group := GroupOf(card, entities, key); var unit := LineOfGroup(card, group).unit;
      var rate := PoolOfGroup(card, group).value.tier.priceCents;
      var total := Total(LinesOf(card, Pools(card, entities), group));
      && -(|group| as real) / 2.0 <= total as real - Charge(rate, SumScope(group, unit)) <= |group| as real / 2.0
      && ((forall e :: e in group ==> IsWhole(SafeScope(e.dims, unit))) ==>
            total == QuoteOf(card, [Combined(group, unit, id)]).totalCents)
  {
    hide BySlug, Poolable, GroupOf, PoolOfGroup, Pools, QuoteOf, LineOf, FirstFit, Charge, SumScope, SafeScope, Total;
    var group := GroupOf(card, entities, key);
    var unit := LineOfGroup(card, group).unit;
    var rate := PoolOfGroup(card, group).value.tier.priceCents;
    assert group[0] in group;
    forall e | e in group
      ensures LineOf(card, e, PoolFor(Pools(card, entities), e)).priceCents == Round(Charge(rate, SafeScope(e.dims, unit)))
    {
      KeyFields(e, group[0]);
      PooledLine(card, entities, e);
    }
    RatedSum(card, Pools(card, entities), group, unit, rate);
    CombinedQuote(card, group, id);
  }

  // ── Order independence ────────────────────────────────────────────────────

  /** The tier a group would share if this entity came first in it. */
  function TierOf(card: RateCard, group: seq<Entity>, e: Entity): Option<Tier>
    requires Poolable(card, e)
  {
    var line := BySlug(card.lines)[e.slug];
    FirstFit(line.tiers, SumScope(group, line.unit), e.methodology, e.customer)
  }

  lemma {:induction false} SumScopeRemove(group: seq<Entity>, unit: ScopeUnit, i: nat)
    requires i < |group|
    ensures SumScope(group, unit) == SumScope(RemoveAt(group, i), unit) + SafeScope(group[i].dims, unit)
  {
    hide SafeScope;
    var front := group[..|group| - 1];
    if i == |front| {
      assert RemoveAt(group, i) == front;
    } else {
      SumScopeRemove(front, unit, i);
      assert RemoveAt(group, i)[..|group| - 2] == RemoveAt(front, i);
    }
  }

  lemma {:induction false} SumScopePermutes(a: seq<Entity>, b: seq<Entity>, unit: ScopeUnit)
    requires multiset(a) == multiset(b)
    ensures SumScope(a, unit) == SumScope(b, unit) && |a| == |b|
    decreases |a|
  {
    hide SafeScope, RemoveAt;
    if a == [] {
      NoneLeft(a, b);
    } else {
      var i := Counterpart(a, b);
      SumScopeRemove(b, unit, i);
      SumScopePermutes(a[..|a| - 1], RemoveAt(b, i), unit);
    }
  }

  lemma {:induction false} TotalRemove(lines: seq<Line>, i: nat)
    requires i < |lines|
    ensures Total(lines) == Total(RemoveAt(lines, i)) + lines[i].priceCents
  {
    var front := lines[..|lines| - 1];
    if i == |front| {
      assert RemoveAt(lines, i) == front;
    } else {
      TotalRemove(front, i);
      assert RemoveAt(lines, i)[..|lines| - 2] == RemoveAt(front, i);
    }
  }

  lemma {:induction false} TotalPermutes(a: seq<Line>, b: seq<Line>)
    requires multiset(a) == multiset(b)
    ensures Total(a) == Total(b)
    decreases |a|
  {
    hide RemoveAt;
    if a == [] {
      NoneLeft(a, b);
    } else {
      var i := Counterpart(a, b);
      TotalRemove(b, i);
      TotalPermutes(a[..|a| - 1], RemoveAt(b, i));
    }
  }

  lemma {:induction false} GroupMultiset(card: RateCard, entities: seq<Entity>, key: PoolKey, e: Entity)
    ensures multiset(GroupOf(card, entities, key))[e]
         == if Poolable(card, e) && KeyOf(e) == key then multiset(entities)[e] else 0
  {
    hide Poolable, KeyOf;
    if entities == [] {
    } else {
      var front, last := entities[..|entities| - 1], entities[|entities| - 1];
      assert entities == front + [last];
      GroupMultiset(card, front, key, e);
    }
  }

  lemma GroupPermutes(card: RateCard, a: seq<Entity>, b: seq<Entity>, key: PoolKey)
    requires multiset(a) == multiset(b)
    ensures multiset(GroupOf(card, a, key)) == multiset(GroupOf(card, b, key))
  {
    hide Poolable, KeyOf, GroupOf;
    forall x ensures multiset(GroupOf(card, a, key))[x] == multiset(GroupOf(card, b, key))[x] {
      GroupMultiset(card, a, key, x);
      GroupMultiset(card, b, key, x);
    }
  }

  lemma TierPermutes(card: RateCard, ga: seq<Entity>, gb: seq<Entity>, e: Entity)
    requires multiset(ga) == multiset(gb) && Poolable(card, e)
    ensures TierOf(card, ga, e) == TierOf(card, gb, e) && |ga| == |gb|
  {
    hide SumScope, FirstFit;
    SumScopePermutes(ga, gb, BySlug(card.lines)[e.slug].unit);
  }

  // ── The exact condition ───────────────────────────────────────────────────

  lemma GroupLast(card: RateCard, front: seq<Entity>, last: Entity, key: PoolKey)
    ensures GroupOf(card, front + [last], key)
         == GroupOf(card, front, key) + if Poolable(card, last) && KeyOf(last) == key then [last] else []
  {
    hide Poolable, KeyOf;
    assert (front + [last])[..|front|] == front;
  }

  lemma NoGroup(card: RateCard, key: PoolKey)
    ensures GroupOf(card, [], key) == []
  {
  }

  lemma {:induction false} GroupHead(card: RateCard, e: Entity, rest: seq<Entity>)
    requires Poolable(card, e)
    ensures GroupOf(card, [e] + rest, KeyOf(e)) == [e] + GroupOf(card, rest, KeyOf(e))
  {
    hide Poolable, KeyOf, GroupOf;
    if rest == [] {
      assert [e] + rest == [] + [e];
      NoGroup(card, KeyOf(e));
      GroupLast(card, [], e, KeyOf(e));
    } else {
      var front, last := rest[..|rest| - 1], rest[|rest| - 1];
      assert rest == front + [last] && [e] + rest == [e] + front + [last];
      GroupHead(card, e, front);
      GroupLast(card, front, last, KeyOf(e));
      GroupLast(card, [e] + front, last, KeyOf(e));
    }
  }

  /** The same entities with the i-th moved to the front. */
  function Fronted(entities: seq<Entity>, i: nat): seq<Entity>
    requires i < |entities|
  {
    [entities[i]] + RemoveAt(entities, i)
  }

  /** The pool an entity's group gets when this entity comes first in it. */
  function PoolIfFirst(card: RateCard, entities: seq<Entity>, e: Entity): Option<Pool>
    requires Poolable(card, e)
  {
    var group := GroupOf(card, entities, KeyOf(e));
    if |group| < 2 || TierOf(card, group, e).None? then None else Some(Pool(TierOf(card, group, e).value, |group|))
  }

  lemma FrontedPool(card: RateCard, entities: seq<Entity>, i: nat)
    requires i < |entities| && Poolable(card, entities[i])
    ensures multiset(Fronted(entities, i)) == multiset(entities)
    ensures OwnPool(card, Fronted(entities, i), entities[i]) == PoolIfFirst(card, entities, entities[i])
  {
    hide Poolable, KeyOf, GroupOf, FirstFit, BySlug, SumScope, RemoveAt;
    var e := entities[i];
    var p := Fronted(entities, i);
    RemoveAtMultiset(entities, i);
    assert multiset(p) == multiset(entities);
    GroupHead(card, e, RemoveAt(entities, i));
    var group := GroupOf(card, p, KeyOf(e));
    GroupPermutes(card, p, entities, KeyOf(e));
    assert group[0] == e;
    TierPermutes(card, group, GroupOf(card, entities, KeyOf(e)), e);
  }

  /** In any order some member of the group comes first, and decides. */
  lemma SomeoneIsFirst(card: RateCard, entities: seq<Entity>, p: seq<Entity>, e: Entity) returns (first: Entity)
    requires multiset(p) == multiset(entities) && e in entities && Poolable(card, e)
    ensures first in entities && Poolable(card, first) && KeyOf(first) == KeyOf(e)
    ensures OwnPool(card, p, e) == PoolIfFirst(card, entities, first)
  {
    hide Poolable, KeyOf, GroupOf, FirstFit, BySlug, SumScope;
    var group := GroupOf(card, p, KeyOf(e));
    assert e in multiset(p) && e in group;
    first := group[0];
    assert first in group && first in multiset(p);
    GroupPermutes(card, p, entities, KeyOf(e));
    TierPermutes(card, group, GroupOf(card, entities, KeyOf(e)), first);
  }

  lemma SamePoolKey(card: RateCard, entities: seq<Entity>, a: Entity, b: Entity)
    requires Poolable(card, a) && Poolable(card, b) && KeyOf(a) == KeyOf(b)
    ensures OwnPool(card, entities, a) == OwnPool(card, entities, b)
  {
    hide Poolable, KeyOf, GroupOf, PoolOfGroup;
  }

  /** What one looks at of an entity and its pool: the pool itself, the whole line, or only part of it. */
  type View<!T> = (Entity, Option<Pool>) -> T

  /** Every order of the entities shows the same of every entity. */
  ghost predicate OrderFree<T>(card: RateCard, entities: seq<Entity>, see: View<T>) {
    forall p, e :: multiset(p) == multiset(entities) && e in entities ==>
      see(e, OwnPool(card, p, e)) == see(e, OwnPool(card, entities, e))
  }

  /** Whichever of its group's members comes first, the same is seen of an entity. */
  ghost predicate FirstIsFree<T>(card: RateCard, entities: seq<Entity>, see: View<T>) {
    forall a, b, e :: a in entities && b in entities && e in entities && OneGroup(card, a, b, e) ==>
      see(e, PoolIfFirst(card, entities, a)) == see(e, PoolIfFirst(card, entities, b))
  }

  predicate OneGroup(card: RateCard, a: Entity, b: Entity, e: Entity) {
    && Poolable(card, a) && Poolable(card, b) && Poolable(card, e)
    && KeyOf(a) == KeyOf(e) && KeyOf(b) == KeyOf(e)
  }

  lemma SeenPermutes<T>(card: RateCard, entities: seq<Entity>, see: View<T>, p: seq<Entity>, e: Entity)
    requires multiset(p) == multiset(entities) && e in entities && FirstIsFree(card, entities, see)
    ensures see(e, OwnPool(card, p, e)) == see(e, OwnPool(card, entities, e))
  {
    hide KeyOf, GroupOf, PoolOfGroup, PoolIfFirst, Poolable;
    if Poolable(card, e) {
      var a := SomeoneIsFirst(card, entities, p, e);
      var b := SomeoneIsFirst(card, entities, entities, e);
      assert OneGroup(card, a, b, e);
    }
  }

  /** Order does not matter for what one looks at, exactly when it does not matter there which member
      of a group comes first. */
  lemma OrderFreeIff<T>(card: RateCard, entities: seq<Entity>, see: View<T>)
    ensures OrderFree(card, entities, see) <==> FirstIsFree(card, entities, see)
  {
    hide Poolable, KeyOf, OwnPool, PoolIfFirst, Fronted;
    if FirstIsFree(card, entities, see) {
      forall p, e | multiset(p) == multiset(entities) && e in entities
        ensures see(e, OwnPool(card, p, e)) == see(e, OwnPool(card, entities, e))
      {
        SeenPermutes(card, entities, see, p, e);
      }
    }
    if OrderFree(card, entities, see) {
      forall a, b, e | a in entities && b in entities && e in entities && OneGroup(card, a, b, e)
        ensures see(e, PoolIfFirst(card, entities, a)) == see(e, PoolIfFirst(card, entities, b))
      {
        var i :| 0 <= i < |entities| && entities[i] == a;
        var j :| 0 <= j < |entities| && entities[j] == b;
        FrontedPool(card, entities, i);
        FrontedPool(card, entities, j);
        SamePoolKey(card, Fronted(entities, i), a, e);
        SamePoolKey(card, Fronted(entities, j), b, e);
      }
    }
  }

  /** Without the empty methodology it never matters who comes first. */
  lemma NoBlankMethodology<T>(card: RateCard, entities: seq<Entity>, see: View<T>)
    requires forall e :: e in entities ==> e.methodology != Some("")
    ensures FirstIsFree(card, entities, see)
  {
    hide BySlug, FirstFit, SumScope, GroupOf;
    assert forall a, b :: KeyOf(a) == KeyOf(b) && a.methodology != Some("") && b.methodology != Some("") ==>
      a.slug == b.slug && a.customer == b.customer && a.methodology == b.methodology;
  }

  // ── Quotes ────────────────────────────────────────────────────────────────

  /** The whole line of an entity. */
  function WholeLine(card: RateCard): View<Line> {
    (e, pool) => LineOf(card, e, pool)
  }

  datatype Price = Price(cents: int, manual: bool, unmatched: bool)

  function PriceOf(l: Line): Price {
    Price(l.priceCents, l.outcome.ManualQuote?, IsUnmatched(l))
  }

  /** Its price, and whether it raises one of the quote's flags. */
  function OnlyPrice(card: RateCard): View<Price> {
    (e, pool) => PriceOf(LineOf(card, e, pool))
  }

  lemma KeyFields(x: Entity, e: Entity)
    requires KeyOf(x) == KeyOf(e)
    ensures x.slug == e.slug && x.customer == e.customer
  {
  }

  lemma DistinctIdsPermute(a: seq<Entity>, b: seq<Entity>)
    requires multiset(a) == multiset(b) && DistinctIds(a)
    ensures DistinctIds(b)
  {
    assert Distinct(a);
    DistinctPermutes(a, b);
    forall i, j | 0 <= i < j < |b| ensures b[i].id != b[j].id {
      assert b[i] in multiset(a) && b[j] in multiset(a);
      var k :| 0 <= k < |a| && a[k] == b[i];
      var l :| 0 <= l < |a| && a[l] == b[j];
      assert b[i] != b[j];
      assert k != l;
    }
  }

  /** The line a quote holds for an entity, by the entity's own pool. */
  lemma QuoteLine(card: RateCard, entities: seq<Entity>, i: nat)
    requires DistinctIds(entities) && i < |entities|
    ensures QuoteOf(card, entities).lines[i] == LineOf(card, entities[i], OwnPool(card, entities, entities[i]))
  {
    hide LineOf, Pools, OwnPool, PoolFor, Total, AnyManual, AnyUnmatched;
    PoolIsOwn(card, entities, entities[i]);
  }

  /** The quotes of two orders hold the same line for every entity. */
  ghost predicate SameLines(card: RateCard, a: seq<Entity>, b: seq<Entity>) {
    forall i, j :: 0 <= i < |a| && 0 <= j < |b| && a[i] == b[j] ==> SameLineAt(card, a, b, i, j)
  }

  ghost predicate SameLineAt(card: RateCard, a: seq<Entity>, b: seq<Entity>, i: nat, j: nat)
    requires i < |a| && j < |b|
  {
    QuoteOf(card, a).lines[i] == QuoteOf(card, b).lines[j]
  }

  lemma LineAt(card: RateCard, a: seq<Entity>, b: seq<Entity>, i: nat, j: nat)
    requires DistinctIds(a) && DistinctIds(b) && i < |a| && j < |b| && a[i] == b[j]
    ensures SameLineAt(card, a, b, i, j)
            <==> LineOf(card, b[j], OwnPool(card, b, b[j])) == LineOf(card, b[j], OwnPool(card, a, b[j]))
  {
    hide LineOf, OwnPool, QuoteOf;
    QuoteLine(card, a, i);
    QuoteLine(card, b, j);
  }

  lemma SameLinesOf(card: RateCard, entities: seq<Entity>, p: seq<Entity>)
    requires DistinctIds(entities) && multiset(p) == multiset(entities)
    ensures SameLines(card, entities, p) <==> forall e :: e in entities ==>
              WholeLine(card)(e, OwnPool(card, p, e)) == WholeLine(card)(e, OwnPool(card, entities, e))
  {
    hide QuoteOf, LineOf, OwnPool, SameLineAt;
    DistinctIdsPermute(entities, p);
    forall i: nat, j: nat | i < |entities| && j < |p| && entities[i] == p[j] {
      LineAt(card, entities, p, i, j);
    }
    if SameLines(card, entities, p) {
      forall e | e in entities
        ensures WholeLine(card)(e, OwnPool(card, p, e)) == WholeLine(card)(e, OwnPool(card, entities, e))
      {
        assert e in multiset(p);
        var i :| 0 <= i < |entities| && entities[i] == e;
        var j :| 0 <= j < |p| && p[j] == e;
        assert SameLineAt(card, entities, p, i, j);
      }
    }
  }

  /** With distinct ids, every order quotes every entity by the same line exactly when it does not
      matter for the lines of a group which of its members comes first. */
  lemma QuotesOrderFreeIff(card: RateCard, entities: seq<Entity>)
    requires DistinctIds(entities)
    ensures (forall p :: multiset(p) == multiset(entities) ==> SameLines(card, entities, p))
            <==> FirstIsFree(card, entities, WholeLine(card))
  {
    hide QuoteOf, LineOf, OwnPool, FirstIsFree, SameLines, WholeLine;
    OrderFreeIff(card, entities, WholeLine(card));
    if OrderFree(card, entities, WholeLine(card)) {
      forall p | multiset(p) == multiset(entities) ensures SameLines(card, entities, p) {
        SameLinesOf(card, entities, p);
      }
    }
    if forall p :: multiset(p) == multiset(entities) ==> SameLines(card, entities, p) {
      forall p, e | multiset(p) == multiset(entities) && e in entities
        ensures WholeLine(card)(e, OwnPool(card, p, e)) == WholeLine(card)(e, OwnPool(card, entities, e))
      {
        assert SameLines(card, entities, p);
        SameLinesOf(card, entities, p);
      }
    }
  }

  /** What is seen of an entity depends on the other entities only as a multiset. */
  lemma LinePermutes<T>(card: RateCard, a: seq<Entity>, b: seq<Entity>, e: Entity, see: View<T>)
    requires multiset(a) == multiset(b) && DistinctIds(a) && FirstIsFree(card, a, see) && e in a
    ensures see(e, PoolFor(Pools(card, a), e)) == see(e, PoolFor(Pools(card, b), e))
  {
    hide Pools, OwnPool, PoolFor, FirstIsFree;
    assert e in multiset(b);
    DistinctIdsPermute(a, b);
    SeenPermutes(card, a, see, b, e);
    PoolIsOwn(card, a, e);
    PoolIsOwn(card, b, e);
  }

  lemma LinesLast(card: RateCard, pools: map<EntityId, Pool>, a: seq<Entity>)
    requires a != []
    ensures LinesOf(card, pools, a)
         == LinesOf(card, pools, a[..|a| - 1]) + [LineOf(card, a[|a| - 1], PoolFor(pools, a[|a| - 1]))]
  {
    hide LineOf, PoolFor;
  }

  lemma LinesRemove(card: RateCard, pools: map<EntityId, Pool>, b: seq<Entity>, i: nat)
    requires i < |b|
    ensures RemoveAt(LinesOf(card, pools, b), i) == LinesOf(card, pools, RemoveAt(b, i))
  {
    hide LineOf, PoolFor;
  }

  lemma {:induction false} MappedMultiset(card: RateCard, pools: map<EntityId, Pool>, a: seq<Entity>, b: seq<Entity>)
    requires multiset(a) == multiset(b)
    ensures multiset(LinesOf(card, pools, a)) == multiset(LinesOf(card, pools, b))
    decreases |a|
  {
    hide LineOf, PoolFor, LinesOf, RemoveAt;
    if a == [] {
      NoneLeft(a, b);
    } else {
      var i := Counterpart(a, b);
      MappedMultiset(card, pools, a[..|a| - 1], RemoveAt(b, i));
      LinesLast(card, pools, a);
      RemoveAtMultiset(LinesOf(card, pools, b), i);
      LinesRemove(card, pools, b, i);
    }
  }

  /** Lines priced alike add up alike and raise the same flags. */
  lemma {:induction false} PricedAlike(la: seq<Line>, lb: seq<Line>)
    requires |la| == |lb| && forall i :: 0 <= i < |la| ==> PriceOf(la[i]) == PriceOf(lb[i])
    ensures Total(la) == Total(lb) && AnyManual(la) == AnyManual(lb) && AnyUnmatched(la) == AnyUnmatched(lb)
  {
    hide Total, AnyManual, AnyUnmatched, IsUnmatched;
    if la == [] {
    } else {
      var n := |la| - 1;
      assert la == la[..n] + [la[n]] && lb == lb[..n] + [lb[n]];
      PricedAlike(la[..n], lb[..n]);
      OneMoreLine(la[..n], la[n]);
      OneMoreLine(lb[..n], lb[n]);
    }
  }

  lemma FlagsPermute(la: seq<Line>, lb: seq<Line>)
    requires multiset(la) == multiset(lb)
    ensures AnyManual(la) == AnyManual(lb) && AnyUnmatched(la) == AnyUnmatched(lb)
  {
    forall l ensures l in la <==> l in lb {
      assert l in multiset(la) <==> l in multiset(lb);
    }
  }

  /** Any reordering gives the same total and the same flags, as soon as the prices of a group do not
      depend on which of its members comes first. */
  lemma PricesPermute(card: RateCard, a: seq<Entity>, b: seq<Entity>)
    requires multiset(a) == multiset(b) && DistinctIds(a) && FirstIsFree(card, a, OnlyPrice(card))
    ensures var qa, qb := QuoteOf(card, a), QuoteOf(card, b);
      && qa.totalCents == qb.totalCents && qa.hasManualQuote == qb.hasManualQuote && qa.hasUnmatched == qb.hasUnmatched
  {
    hide LineOf, Pools, PoolFor, FirstIsFree, Total, AnyManual, AnyUnmatched, IsUnmatched;
    var la, lb := LinesOf(card, Pools(card, a), a), LinesOf(card, Pools(card, b), b);
    var mid := LinesOf(card, Pools(card, b), a);
    forall i | 0 <= i < |a| ensures PriceOf(la[i]) == PriceOf(mid[i]) {
      LinePermutes(card, a, b, a[i], OnlyPrice(card));
    }
    PricedAlike(la, mid);
    MappedMultiset(card, Pools(card, b), a, b);
    TotalPermutes(mid, lb);
    FlagsPermute(mid, lb);
  }

  /** And the same lines, as soon as the lines do not. */
  lemma QuotePermutes(card: RateCard, a: seq<Entity>, b: seq<Entity>)
    requires multiset(a) == multiset(b) && DistinctIds(a) && FirstIsFree(card, a, WholeLine(card))
    ensures var qa, qb := QuoteOf(card, a), QuoteOf(card, b);
      && qa.totalCents == qb.totalCents && qa.hasManualQuote == qb.hasManualQuote && qa.hasUnmatched == qb.hasUnmatched
      && multiset(qa.lines) == multiset(qb.lines) && SameLines(card, a, b)
  {
    hide LineOf, Pools, PoolFor, FirstIsFree, Total, AnyManual, AnyUnmatched, SameLines;
    var la, lb := LinesOf(card, Pools(card, a), a), LinesOf(card, Pools(card, b), b);
    forall i | 0 <= i < |a| ensures la[i] == LinesOf(card, Pools(card, b), a)[i] {
      LinePermutes(card, a, b, a[i], WholeLine(card));
    }
    assert la == LinesOf(card, Pools(card, b), a);
    MappedMultiset(card, Pools(card, b), a, b);
    TotalPermutes(la, lb);
    FlagsPermute(la, lb);
    QuotesOrderFreeIff(card, a);
  }

  // ── Why the condition is needed ───────────────────────────────────────────

  const CARD := RateCard([ServiceLine("web", "Web", Pages, PerUnit, [Tier("t", 0.0, None, Some("grey"), External, 100)], true)], [])
  const ANY := Entity(OtherEntity("a"), "web", map[Pages := Finite(1.0)], None, External, None)
  const BLANK := Entity(OtherEntity("b"), "web", map[Pages := Finite(1.0)], Some(""), External, None)

  lemma CardLines()
    ensures BySlug(CARD.lines) == map["web" := CARD.lines[0]]
  {
    assert CARD.lines[..0] == [];
  }

  lemma PairGroup(card: RateCard, x: Entity, y: Entity, key: PoolKey)
    requires Poolable(card, x) && Poolable(card, y) && KeyOf(x) == KeyOf(y) == key
    ensures GroupOf(card, [x, y], key) == [x, y]
  {
    hide Poolable, KeyOf;
    assert [x, y][..1] == [x] && [x][..0] == [];
    assert GroupOf(card, [x], key) == [x];
  }

  lemma PairSum(x: Entity, y: Entity, unit: ScopeUnit)
    ensures SumScope([x, y], unit) == SafeScope(x.dims, unit) + SafeScope(y.dims, unit)
  {
    hide SafeScope;
    assert [x, y][..1] == [x] && [x][..0] == [];
    assert SumScope([x], unit) == SafeScope(x.dims, unit);
  }

  lemma Pair(x: Entity, y: Entity)
    requires (x == ANY && y == BLANK) || (x == BLANK && y == ANY)
    ensures GroupOf(CARD, [x, y], KeyOf(ANY)) == [x, y] && SumScope([x, y], Pages) == 2.0
    ensures Poolable(CARD, x) && Poolable(CARD, y) && KeyOf(x) == KeyOf(y) == KeyOf(ANY)
    ensures DistinctIds([x, y]) && multiset([x, y]) == multiset{ANY, BLANK}
  {
    hide BySlug, GroupOf, SumScope;
    CardLines();
    PairGroup(CARD, x, y, KeyOf(ANY));
    PairSum(x, y, Pages);
  }

  lemma TotalTwo(lines: seq<Line>)
    requires |lines| == 2
    ensures Total(lines) == lines[0].priceCents + lines[1].priceCents
  {
    assert lines[..1] == [lines[0]] && lines[..1][..0] == [];
    assert Total(lines[..1]) == lines[0].priceCents;
  }

  /** Two entities of one pool key are priced by the pool of the pair. */
  lemma PairQuote(x: Entity, y: Entity)
    requires (x == ANY && y == BLANK) || (x == BLANK && y == ANY)
    ensures var pool := PoolOfGroup(CARD, [x, y]); var q := QuoteOf(CARD, [x, y]);
      && q.lines == [LineOf(CARD, x, pool), LineOf(CARD, y, pool)]
      && q.totalCents == q.lines[0].priceCents + q.lines[1].priceCents
  {
    hide BySlug, Pools, PoolOfGroup, LineOf, Total, GroupOf, SumScope, Poolable, KeyOf, PoolFor;
    Pair(x, y);
    assert x in [x, y] && y in [x, y];
    PoolIsOwn(CARD, [x, y], x);
    PoolIsOwn(CARD, [x, y], y);
    TotalTwo(LinesOf(CARD, Pools(CARD, [x, y]), [x, y]));
  }

  /** Pooled, both are priced; on its own, the blank one finds no tier. */
  lemma PairPool(x: Entity, y: Entity)
    requires (x == ANY && y == BLANK) || (x == BLANK && y == ANY)
    ensures PoolOfGroup(CARD, [x, y]) == if x == ANY then Some(Pool(CARD.lines[0].tiers[0], 2)) else None
  {
    hide BySlug, GroupOf, SumScope, Poolable, KeyOf;
    CardLines();
    Pair(x, y);
  }

  lemma PairLines(e: Entity, pool: Option<Pool>)
    requires e == ANY || e == BLANK
    requires pool == None || pool == Some(Pool(CARD.lines[0].tiers[0], 2))
    ensures var l := LineOf(CARD, e, pool);
            if e == BLANK && pool == None then l.priceCents == 0 && IsUnmatched(l) else l.priceCents == 100 && !IsUnmatched(l)
  {
    hide BySlug;
    CardLines();
    assert Round(Charge(100, 1.0)) == 100;
  }

  /** An entity without a methodology and one with the empty methodology share a pool key; whichever
      comes first decides whether the pool finds a tier, and so the order changes the price. */
  lemma BlankMethodologyOrder()
    ensures multiset([ANY, BLANK]) == multiset([BLANK, ANY]) && DistinctIds([ANY, BLANK]) && DistinctIds([BLANK, ANY])
    ensures QuoteOf(CARD, [ANY, BLANK]).totalCents == 200 && !QuoteOf(CARD, [ANY, BLANK]).hasUnmatched
    ensures QuoteOf(CARD, [BLANK, ANY]).totalCents == 100 && QuoteOf(CARD, [BLANK, ANY]).hasUnmatched
  {
    hide QuoteOf, PoolOfGroup, LineOf, Pools, BySlug, Total, GroupOf, SumScope, Poolable, KeyOf, LinesOf;
    var tier := CARD.lines[0].tiers[0];
    Pair(ANY, BLANK);
    Pair(BLANK, ANY);
    PairQuote(ANY, BLANK);
    PairQuote(BLANK, ANY);
    PairPool(ANY, BLANK);
    PairPool(BLANK, ANY);
    PairLines(ANY, Some(Pool(tier, 2)));
    PairLines(BLANK, Some(Pool(tier, 2)));
    PairLines(ANY, None);
    PairLines(BLANK, None);
    Unmatched([BLANK, ANY]);
    Unmatched([ANY, BLANK]);
  }

  lemma Unmatched(entities: seq<Entity>)
    ensures QuoteOf(CARD, entities).hasUnmatched <==> exists i :: 0 <= i < |entities| && IsUnmatched(QuoteOf(CARD, entities).lines[i])
  {
    hide Pools, LineOf, Total;
  }
}
