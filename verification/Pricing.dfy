/**
 Stage 2 of the pricing engine: priceable entities against a rate card, with volume pooling.

 Scopes are reals, prices whole cents.  A tier-driving dimension is whatever `Number(v)` made of it.
 */
module Pricing {
  import opened Wrappers
  import opened Engine

  // ── Data model ────────────────────────────────────────────────────────────

  datatype ScopeUnit = Pages | Screens | Apis | Loc | Devices | Hours | OtherUnit

  datatype Customer = Internal | External

  datatype PricingModel = TierLookup | PerUnit | Flat | Hourly

  /** A methodology code, or None for "any". */
  type Method = Option<string>

  datatype Tier = Tier(id: string, rangeMin: real, rangeMax: Option<real>, methodology: Method, customer: Customer, priceCents: int)

  datatype ServiceLine = ServiceLine(slug: string, name: string, unit: ScopeUnit, model: PricingModel, tiers: seq<Tier>, pool: bool)

  datatype OpenService = OpenService(slug: string, name: string)

  datatype RateCard = RateCard(lines: seq<ServiceLine>, open: seq<OpenService>)

  /** Entity ids: the three kinds the scope normaliser makes, and any other text. */
  datatype EntityId = TopEntity(node: string) | LoopEntity(loop: string, iter: nat)
                    | DriverEntity(loop: string, iter: nat, child: string) | OtherEntity(name: string)

  datatype Entity = Entity(id: EntityId, slug: string, dims: map<ScopeUnit, JsNumber>, methodology: Method,
                           customer: Customer, appId: Option<string>)

  datatype Outcome = Priced(tierId: string, model: PricingModel, unitPrice: Option<int>) | ManualQuote
                   | UnknownServiceLine | NoMatchingTier

  datatype Line = Line(entityId: EntityId, slug: string, name: string, appId: Option<string>, pooledAcross: Option<nat>,
                       unit: ScopeUnit, scope: real, methodology: Method, customer: Customer,
                       priceCents: int, outcome: Outcome)

  datatype Quote = Quote(lines: seq<Line>, totalCents: int, hasManualQuote: bool, hasUnmatched: bool)

  function BySlug(lines: seq<ServiceLine>): (m: map<string, ServiceLine>)
    ensures forall s :: s in m ==> m[s].slug == s && m[s] in lines
    ensures forall l :: l in lines ==> l.slug in m
  {
    if lines == [] then map[]
    else BySlug(lines[..|lines| - 1])[lines[|lines| - 1].slug := lines[|lines| - 1]]
  }

  function OpenSlugs(card: RateCard): set<string> {
    set o | o in card.open :: o.slug
  }

  function FindOpen(open: seq<OpenService>, slug: string): (o: OpenService)
    requires exists o :: o in open && o.slug == slug
    ensures o in open && o.slug == slug
  {
    if open[0].slug == slug then open[0] else FindOpen(open[1..], slug)
  }

  /** A finite, non-negative dimension; anything else counts as 0. */
  function SafeScope(dims: map<ScopeUnit, JsNumber>, unit: ScopeUnit): (scope: real)
    ensures scope >= 0.0
  {
    if unit in dims && dims[unit].Finite? && dims[unit].value >= 0.0 then dims[unit].value else 0.0
  }

  /** JavaScript's Math.round. */
  function Round(x: real): int {
    (x + 0.5).Floor
  }

  /** A per-unit rate times a scope, before rounding. */
  function Charge(rate: int, scope: real): real {
    rate as real * scope
  }

  // ── Tier selection ────────────────────────────────────────────────────────

  predicate TierFits(t: Tier, scope: real, methodology: Method, customer: Customer) {
    && t.customer == customer
    && (t.methodology.Some? && methodology.Some? ==> t.methodology == methodology)
    && scope >= t.rangeMin
    && (t.rangeMax.Some? ==> scope <= t.rangeMax.value)
  }

  function FirstFit(tiers: seq<Tier>, scope: real, methodology: Method, customer: Customer): Option<Tier> {
    if tiers == [] then None
    else if TierFits(tiers[0], scope, methodology, customer) then Some(tiers[0])
    else FirstFit(tiers[1..], scope, methodology, customer)
  }

  /** The search loop returns the first tier that fits, and None only when no tier does. */
  method PickTier(tiers: seq<Tier>, scope: real, methodology: Method, customer: Customer) returns (r: Option<Tier>)
    ensures r == FirstFit(tiers, scope, methodology, customer)
    ensures match r
      case Some(t) => t in tiers && t.customer == customer && (t.methodology == methodology || t.methodology == None || methodology == None)
        && t.rangeMin <= scope && (t.rangeMax == None || scope <= t.rangeMax.value)
      case None => forall t :: t in tiers ==>
        || t.customer != customer || (t.methodology != methodology && t.methodology != None && methodology != None)
        || scope < t.rangeMin || (t.rangeMax != None && t.rangeMax.value < scope)
  {
    for i := 0 to |tiers|
      invariant FirstFit(tiers, scope, methodology, customer) == FirstFit(tiers[i..], scope, methodology, customer)
      invariant forall j :: 0 <= j < i ==> !TierFits(tiers[j], scope, methodology, customer)
    {
      var t := tiers[i];
      assert tiers[i..][1..] == tiers[i + 1..];
      if t.customer != customer { continue; }
      if t.methodology.Some? && methodology.Some? && t.methodology != methodology { continue; }
      if scope < t.rangeMin { continue; }
      if t.rangeMax.Some? && scope > t.rangeMax.value { continue; }
      return Some(t);
    }
    return None;
  }

  // ── Pooling ───────────────────────────────────────────────────────────────

  datatype PoolKey = PoolKey(slug: string, methodology: string, customer: Customer)

  datatype Pool = Pool(tier: Tier, count: nat)

  predicate Poolable(card: RateCard, e: Entity) {
    var lines := BySlug(card.lines);
    e.slug in lines && lines[e.slug].model.PerUnit? && lines[e.slug].pool
  }

  /** The key joins a missing methodology with the empty one. */
  function KeyOf(e: Entity): PoolKey {
    PoolKey(e.slug, if e.methodology.Some? then e.methodology.value else "", e.customer)
  }

  function GroupOf(card: RateCard, entities: seq<Entity>, key: PoolKey): (group: seq<Entity>)
    ensures forall e :: e in group <==> e in entities && Poolable(card, e) && KeyOf(e) == key
  {
    if entities == [] then []
    else
      var last := entities[|entities| - 1];
      assert entities == entities[..|entities| - 1] + [last];
      GroupOf(card, entities[..|entities| - 1], key) + (if Poolable(card, last) && KeyOf(last) == key then [last] else [])
  }

  /** The keys of the poolable entities, in order of first appearance. */
  function Keys(card: RateCard, entities: seq<Entity>): (keys: seq<PoolKey>)
    ensures forall k :: k in keys <==> GroupOf(card, entities, k) != []
    ensures forall i, j :: 0 <= i < j < |keys| ==> keys[i] != keys[j]
  {
    if entities == [] then []
    else
      var last := entities[|entities| - 1];
      var front := Keys(card, entities[..|entities| - 1]);
      if Poolable(card, last) && KeyOf(last) !in front then front + [KeyOf(last)] else front
  }

  function SumScope(group: seq<Entity>, unit: ScopeUnit): (sum: real)
    ensures sum >= 0.0
  {
    if group == [] then 0.0
    else SumScope(group[..|group| - 1], unit) + SafeScope(group[|group| - 1].dims, unit)
  }

  /** The tier a group shares: chosen on its summed scope, for two members or more. */
  function PoolOfGroup(card: RateCard, group: seq<Entity>): Option<Pool>
    requires forall e :: e in group ==> Poolable(card, e)
  {
    if |group| < 2 then None
    else
      assert Poolable(card, group[0]);
      var line := BySlug(card.lines)[group[0].slug];
      var tier := FirstFit(line.tiers, SumScope(group, line.unit), group[0].methodology, group[0].customer);
      if tier.None? then None else Some(Pool(tier.value, |group|))
  }

  /** Every member of a group gets its pool; a later group overrides an earlier one. */
  function WithGroup(pools: map<EntityId, Pool>, group: seq<Entity>, pool: Pool): (r: map<EntityId, Pool>)
    ensures forall id :: id in r <==> id in pools || exists e :: e in group && e.id == id
    ensures forall e :: e in group ==> r[e.id] == pool
    ensures forall id :: id in pools && (forall e :: e in group ==> e.id != id) ==> r[id] == pools[id]
  {
    if group == [] then pools
    else
      var last := group[|group| - 1];
      assert group == group[..|group| - 1] + [last];
      WithGroup(pools, group[..|group| - 1], pool)[last.id := pool]
  }

  /** `pooledByEntity`: group after group, in order of first appearance. */
  function PoolsOf(card: RateCard, entities: seq<Entity>, keys: seq<PoolKey>): map<EntityId, Pool> {
    if keys == [] then map[]
    else
      var before := PoolsOf(card, entities, keys[..|keys| - 1]);
      var group := GroupOf(card, entities, keys[|keys| - 1]);
      var pool := PoolOfGroup(card, group);
      if pool.None? then before else WithGroup(before, group, pool.value)
  }

  function Pools(card: RateCard, entities: seq<Entity>): map<EntityId, Pool> {
    PoolsOf(card, entities, Keys(card, entities))
  }

  method GroupEntities(card: RateCard, entities: seq<Entity>) returns (keys: seq<PoolKey>, groups: map<PoolKey, seq<Entity>>)
    ensures keys == Keys(card, entities)
    ensures forall k :: k in groups <==> k in keys
    ensures forall k :: k in groups ==> groups[k] == GroupOf(card, entities, k)
  {
    hide BySlug, Poolable;
    keys, groups := [], map[];
    for i := 0 to |entities|
      invariant keys == Keys(card, entities[..i])
      invariant forall k :: k in groups <==> k in keys
      invariant forall k :: k in groups ==> groups[k] == GroupOf(card, entities[..i], k)
    {
      var e := entities[i];
      assert entities[..i + 1][..i] == entities[..i];
      if Poolable(card, e) {
        var key := KeyOf(e);
        if key in groups {
          groups := groups[key := groups[key] + [e]];
        } else {
          assert GroupOf(card, entities[..i], key) == [];
          keys := keys + [key];
          groups := groups[key := [e]];
        }
      }
    }
    assert entities[..|entities|] == entities;
  }

  method SumScopes(group: seq<Entity>, unit: ScopeUnit) returns (sum: real)
    ensures sum == SumScope(group, unit)
  {
    sum := 0.0;
    for i := 0 to |group|
      invariant sum == SumScope(group[..i], unit)
    {
      assert group[..i + 1][..i] == group[..i];
      sum := sum + SafeScope(group[i].dims, unit);
    }
    assert group[..|group|] == group;
  }

  method AssignPool(before: map<EntityId, Pool>, group: seq<Entity>, pool: Pool) returns (pools: map<EntityId, Pool>)
    ensures pools == WithGroup(before, group, pool)
  {
    pools := before;
    for i := 0 to |group|
      invariant pools == WithGroup(before, group[..i], pool)
    {
      assert group[..i + 1][..i] == group[..i];
      pools := pools[group[i].id := pool];
    }
    assert group[..|group|] == group;
  }

  method PoolPrePass(card: RateCard, entities: seq<Entity>) returns (pools: map<EntityId, Pool>)
    ensures pools == Pools(card, entities)
  {
    hide BySlug, Poolable, Keys, GroupOf, WithGroup, FirstFit, SumScope, KeyOf;
    var keys, groups := GroupEntities(card, entities);
    var lines := BySlug(card.lines);
    pools := map[];
    for i := 0 to |keys|
      invariant pools == PoolsOf(card, entities, keys[..i])
    {
      assert keys[..i + 1][..i] == keys[..i];
      var group := groups[keys[i]];
      if |group| >= 2 {
        PoolableHasLine(card, group[0]);
        var line := lines[group[0].slug];
        var scope := SumScopes(group, line.unit);
        var tier := PickTier(line.tiers, scope, group[0].methodology, group[0].customer);
        if tier.Some? {
          pools := AssignPool(pools, group, Pool(tier.value, |group|));
        }
      }
    }
    assert keys[..|keys|] == keys;
  }

  lemma PoolableHasLine(card: RateCard, e: Entity)
    requires Poolable(card, e)
    ensures e.slug in BySlug(card.lines)
  {
  }

  // ── Lines ─────────────────────────────────────────────────────────────────

  function TrueAppId(e: Entity): Option<string> {
    if e.appId == Some("") then None else e.appId
  }

  function TierFor(line: ServiceLine, e: Entity, pool: Option<Pool>): Option<Tier> {
    if pool.Some? then Some(pool.value.tier)
    else FirstFit(line.tiers, SafeScope(e.dims, line.unit), e.methodology, e.customer)
  }

  function LineOf(card: RateCard, e: Entity, pool: Option<Pool>): (l: Line)
    ensures l.entityId == e.id && (!l.outcome.Priced? ==> l.priceCents == 0)
  {
    var lines := BySlug(card.lines);
    if e.slug in OpenSlugs(card) then
      Line(e.id, e.slug, FindOpen(card.open, e.slug).name, TrueAppId(e), None, OtherUnit, 0.0, e.methodology, e.customer, 0, ManualQuote)
    else if e.slug !in lines then
      Line(e.id, e.slug, e.slug, TrueAppId(e), None, OtherUnit, 0.0, e.methodology, e.customer, 0, UnknownServiceLine)
    else
      var line := lines[e.slug];
      var scope := SafeScope(e.dims, line.unit);
      var tier := TierFor(line, e, pool);
      if tier.None? then
        Line(e.id, e.slug, line.name, TrueAppId(e), None, line.unit, scope, e.methodology, e.customer, 0, NoMatchingTier)
      else
        var t := tier.value;
        Line(e.id, e.slug, line.name, TrueAppId(e), if pool.Some? then Some(pool.value.count) else None, line.unit, scope,
             t.methodology, t.customer,
             if line.model.PerUnit? then Round(Charge(t.priceCents, scope)) else t.priceCents,
             Priced(t.id, line.model, if line.model.PerUnit? then Some(t.priceCents) else None))
  }

  function PoolFor(pools: map<EntityId, Pool>, e: Entity): Option<Pool> {
    if e.id in pools then Some(pools[e.id]) else None
  }

  function LinesOf(card: RateCard, pools: map<EntityId, Pool>, entities: seq<Entity>): (lines: seq<Line>)
    ensures |lines| == |entities|
    ensures forall i :: 0 <= i < |entities| ==> lines[i] == LineOf(card, entities[i], PoolFor(pools, entities[i]))
  {
    seq(|entities|, i requires 0 <= i < |entities| => LineOf(card, entities[i], PoolFor(pools, entities[i])))
  }

  function Total(lines: seq<Line>): int {
    if lines == [] then 0 else Total(lines[..|lines| - 1]) + lines[|lines| - 1].priceCents
  }

  predicate IsUnmatched(l: Line) {
    l.outcome.UnknownServiceLine? || l.outcome.NoMatchingTier?
  }

  predicate AnyManual(lines: seq<Line>) {
    exists l :: l in lines && l.outcome.ManualQuote?
  }

  predicate AnyUnmatched(lines: seq<Line>) {
    exists l :: l in lines && IsUnmatched(l)
  }

  function QuoteOf(card: RateCard, entities: seq<Entity>): Quote {
    var lines := LinesOf(card, Pools(card, entities), entities);
    Quote(lines, Total(lines), AnyManual(lines), AnyUnmatched(lines))
  }

  lemma OneMoreLine(lines: seq<Line>, l: Line)
    ensures AnyManual(lines + [l]) <==> AnyManual(lines) || l.outcome.ManualQuote?
    ensures AnyUnmatched(lines + [l]) <==> AnyUnmatched(lines) || IsUnmatched(l)
    ensures Total(lines + [l]) == Total(lines) + l.priceCents
  {
    assert (lines + [l])[..|lines|] == lines;
    assert forall x :: x in lines + [l] <==> x in lines || x == l;
  }

  lemma OneMoreEntity(card: RateCard, pools: map<EntityId, Pool>, entities: seq<Entity>, i: nat)
    requires i < |entities|
    ensures LinesOf(card, pools, entities[..i + 1])
         == LinesOf(card, pools, entities[..i]) + [LineOf(card, entities[i], PoolFor(pools, entities[i]))]
  {
    hide LineOf, PoolFor;
  }

  /** One line per entity in input order, whose prices the running total adds up. */
  method ComputeBasePrice(card: RateCard, entities: seq<Entity>) returns (q: Quote)
    ensures q == QuoteOf(card, entities)
    ensures |q.lines| == |entities| && forall i :: 0 <= i < |entities| ==> q.lines[i].entityId == entities[i].id
    ensures q.totalCents == Total(q.lines)
    ensures q.hasManualQuote <==> exists l :: l in q.lines && l.outcome == ManualQuote
    ensures q.hasUnmatched <==> exists l :: l in q.lines && (l.outcome == UnknownServiceLine || l.outcome == NoMatchingTier)
  {
    hide BySlug, Pools, LineOf, PoolFor, LinesOf, Total, AnyManual, AnyUnmatched;
    var pools := PoolPrePass(card, entities);
    var lines: seq<Line> := [];
    var total, manual, unmatched := 0, false, false;
    NoLines(card, pools);
    for i := 0 to |entities|
      invariant lines == LinesOf(card, pools, entities[..i])
      invariant total == Total(lines)
      invariant manual == AnyManual(lines)
      invariant unmatched == AnyUnmatched(lines)
    {
      var line := PriceOne(card, entities[i], pools);
      OneMoreEntity(card, pools, entities, i);
      OneMoreLine(lines, line);
      lines := lines + [line];
      if line.outcome.ManualQuote? {
        manual := true;
      } else if IsUnmatched(line) {
        unmatched := true;
      } else {
        total := total + line.priceCents;
      }
    }
    assert entities[..|entities|] == entities;
    FlagsMean(lines);
    q := Quote(lines, total, manual, unmatched);
  }

  lemma FlagsMean(lines: seq<Line>)
    ensures AnyManual(lines) <==> exists l :: l in lines && l.outcome == ManualQuote
    ensures AnyUnmatched(lines) <==> exists l :: l in lines && (l.outcome == UnknownServiceLine || l.outcome == NoMatchingTier)
  {
  }

  lemma NoLines(card: RateCard, pools: map<EntityId, Pool>)
    ensures LinesOf(card, pools, []) == [] && Total([]) == 0 && !AnyManual([]) && !AnyUnmatched([])
  {
  }

  /** One turn of the pricing loop. */
  method PriceOne(card: RateCard, e: Entity, pools: map<EntityId, Pool>) returns (l: Line)
    ensures l == LineOf(card, e, PoolFor(pools, e))
  {
    hide BySlug, FirstFit;
    if e.slug in OpenSlugs(card) {
      var op := FindOpen(card.open, e.slug);
      return Line(e.id, e.slug, op.name, TrueAppId(e), None, OtherUnit, 0.0, e.methodology, e.customer, 0, ManualQuote);
    }
    var lines := BySlug(card.lines);
    if e.slug !in lines {
      return Line(e.id, e.slug, e.slug, TrueAppId(e), None, OtherUnit, 0.0, e.methodology, e.customer, 0, UnknownServiceLine);
    }
    var line := lines[e.slug];
    var scope := SafeScope(e.dims, line.unit);
    var pooled := e.id in pools;
    var tier: Option<Tier>;
    if pooled {
      tier := Some(pools[e.id].tier);
    } else {
      tier := PickTier(line.tiers, scope, e.methodology, e.customer);
    }
    if tier.None? {
      return Line(e.id, e.slug, line.name, TrueAppId(e), None, line.unit, scope, e.methodology, e.customer, 0, NoMatchingTier);
    }
    var t := tier.value;
    var price := if line.model.PerUnit? then Round(Charge(t.priceCents, scope)) else t.priceCents;
    return Line(e.id, e.slug, line.name, TrueAppId(e), if pooled then Some(pools[e.id].count) else None, line.unit, scope,
                t.methodology, t.customer, price,
                Priced(t.id, line.model, if line.model.PerUnit? then Some(t.priceCents) else None));
  }
}
