/** What a quoted line says, in terms of the rate card and the scope vector alone. */
module TierLaws {
  import opened Wrappers
  import opened Engine
  import opened Pricing
  import opened PricingLaws

  // ── Tiers ─────────────────────────────────────────────────────────────────

  /** The band holds the scope, both ends included; an open band has no upper end. */
  predicate InBand(t: Tier, scope: real) {
    t.rangeMin <= scope && (t.rangeMax == None || scope <= t.rangeMax.value)
  }

  /** The customer is the same, the methodology is the same or open on either side, and the band holds
      the scope. */
  predicate Covers(t: Tier, scope: real, methodology: Method, customer: Customer) {
    && t.customer == customer
    && (t.methodology == methodology || t.methodology == None || methodology == None)
    && InBand(t, scope)
  }

  ghost predicate FirstCovering(tiers: seq<Tier>, i: int, scope: real, methodology: Method, customer: Customer) {
    && 0 <= i < |tiers| && Covers(tiers[i], scope, methodology, customer)
    && forall j :: 0 <= j < i ==> !Covers(tiers[j], scope, methodology, customer)
  }

  ghost predicate NoneCovers(tiers: seq<Tier>, scope: real, methodology: Method, customer: Customer) {
    forall j :: 0 <= j < |tiers| ==> !Covers(tiers[j], scope, methodology, customer)
  }

  lemma FitsIsCovers(t: Tier, scope: real, methodology: Method, customer: Customer)
    ensures TierFits(t, scope, methodology, customer) <==> Covers(t, scope, methodology, customer)
  {
  }

  /** The tier of a scope is the first one that covers it, and none only when none covers it. */
  lemma TierMeans(tiers: seq<Tier>, scope: real, methodology: Method, customer: Customer)
    ensures match FirstFit(tiers, scope, methodology, customer)
      case Some(t) => exists i :: FirstCovering(tiers, i, scope, methodology, customer) && tiers[i] == t
      case None => NoneCovers(tiers, scope, methodology, customer)
  {
    hide TierFits, Covers;
    FirstFitIsFirst(tiers, scope, methodology, customer);
    forall j | 0 <= j < |tiers| {
      FitsIsCovers(tiers[j], scope, methodology, customer);
    }
    if i :| FirstAt(tiers, i, scope, methodology, customer) {
      assert FirstCovering(tiers, i, scope, methodology, customer);
    }
  }

  predicate Whole(x: real) {
    x == x.Floor as real
  }

  /** Whole-number bands for one customer and one methodology, each starting one after the last ends. */
  ghost predicate Contiguous(tiers: seq<Tier>, methodology: Method, customer: Customer) {
    && (forall i :: 0 <= i < |tiers| ==> tiers[i].customer == customer && tiers[i].methodology == methodology && Whole(tiers[i].rangeMin))
    && (forall i :: 0 <= i < |tiers| && tiers[i].rangeMax.Some? ==> Whole(tiers[i].rangeMax.value) && tiers[i].rangeMin <= tiers[i].rangeMax.value)
    && (forall i :: 0 <= i < |tiers| - 1 ==> tiers[i].rangeMax.Some? && tiers[i + 1].rangeMin == tiers[i].rangeMax.value + 1.0)
  }

  lemma {:induction false} BandsRise(tiers: seq<Tier>, methodology: Method, customer: Customer, i: nat, j: nat)
    requires Contiguous(tiers, methodology, customer) && i < j < |tiers|
    ensures tiers[i].rangeMax.Some? && tiers[i].rangeMax.value < tiers[j].rangeMin
    decreases j - i
  {
    if j == i + 1 {
    } else {
      BandsRise(tiers, methodology, customer, i + 1, j);
    }
  }

  /** The band that holds a scope is the one tier that covers it. */
  lemma BandCovers(tiers: seq<Tier>, methodology: Method, customer: Customer, scope: real, i: nat)
    requires Contiguous(tiers, methodology, customer) && i < |tiers| && InBand(tiers[i], scope)
    ensures forall k :: 0 <= k < |tiers| ==> (Covers(tiers[k], scope, methodology, customer) <==> k == i)
  {
    forall k | 0 <= k < |tiers| && k != i ensures !Covers(tiers[k], scope, methodology, customer) {
      BandsRise(tiers, methodology, customer, if k < i then k else i, if k < i then i else k);
    }
  }

  lemma WholeStep(x: real, y: real)
    requires Whole(x) && Whole(y) && x < y
    ensures x + 1.0 <= y
  {
    var a, b := x.Floor, y.Floor;
    assert a as real < b as real;
    assert a + 1 <= b;
    assert (a + 1) as real == a as real + 1.0;
  }

  /** No whole scope falls between two bands. */
  lemma {:induction false} SomeBandHolds(tiers: seq<Tier>, methodology: Method, customer: Customer, scope: real, n: nat)
    requires Contiguous(tiers, methodology, customer) && 0 < n <= |tiers| && Whole(scope)
    requires tiers[0].rangeMin <= scope && (tiers[n - 1].rangeMax == None || scope <= tiers[n - 1].rangeMax.value)
    ensures exists i :: 0 <= i < n && InBand(tiers[i], scope)
  {
    if n == 1 || tiers[n - 1].rangeMin <= scope {
      assert InBand(tiers[n - 1], scope);
    } else {
      WholeStep(scope, tiers[n - 1].rangeMin);
      assert tiers[n - 2].rangeMax.Some?;
      SomeBandHolds(tiers, methodology, customer, scope, n - 1);
    }
  }

  // ── Counts and sums ───────────────────────────────────────────────────────

  /** What an entity counts: a finite positive dimension in the unit, and nothing otherwise. */
  predicate Counted(dims: map<ScopeUnit, JsNumber>, unit: ScopeUnit, x: real) {
    if unit in dims && dims[unit].Finite? && dims[unit].value > 0.0 then x == dims[unit].value else x == 0.0
  }

  /** The volume of a group adds up what its members count. */
  lemma VolumeGrows(group: seq<Entity>, e: Entity, unit: ScopeUnit)
    ensures SumScope([], unit) == 0.0
    ensures exists x :: Counted(e.dims, unit, x) && SumScope(group + [e], unit) == SumScope(group, unit) + x
  {
    assert (group + [e])[..|group|] == group;
    assert Counted(e.dims, unit, SafeScope(e.dims, unit));
  }

  /** The entry of a slug is the last one on the card. */
  lemma {:induction false} LastLineWins(lines: seq<ServiceLine>, i: nat)
    requires i < |lines| && forall j :: i < j < |lines| ==> lines[j].slug != lines[i].slug
    ensures lines[i].slug in BySlug(lines) && BySlug(lines)[lines[i].slug] == lines[i]
  {
    assert lines[i] in lines;
    var front := lines[..|lines| - 1];
    if i == |front| {
    } else {
      assert front[i] == lines[i];
      LastLineWins(front, i);
    }
  }

  ghost predicate FirstOpen(open: seq<OpenService>, i: int, slug: string) {
    && 0 <= i < |open| && open[i].slug == slug
    && forall j :: 0 <= j < i ==> open[j].slug != slug
  }

  lemma {:induction false} FirstOpenWins(open: seq<OpenService>, slug: string)
    requires exists o :: o in open && o.slug == slug
    ensures exists i :: FirstOpen(open, i, slug) && FindOpen(open, slug) == open[i]
  {
    if open[0].slug == slug {
      assert FirstOpen(open, 0, slug);
    } else {
      FirstOpenWins(open[1..], slug);
      var i :| FirstOpen(open[1..], i, slug) && FindOpen(open[1..], slug) == open[1..][i];
      assert forall j :: 0 < j < |open| ==> open[j] == open[1..][j - 1];
      assert FirstOpen(open, i + 1, slug);
    }
  }

  // ── Pools ─────────────────────────────────────────────────────────────────

  /** Same service line, same customer, same methodology, where the empty one counts as none. */
  predicate Together(a: Entity, b: Entity) {
    && a.slug == b.slug && a.customer == b.customer
    && (a.methodology == b.methodology
        || ((a.methodology == None || a.methodology == Some("")) && (b.methodology == None || b.methodology == Some(""))))
  }

  function Mates(entities: seq<Entity>, e: Entity): (mates: seq<Entity>)
    ensures forall m :: m in mates <==> m in entities && Together(m, e)
  {
    if entities == [] then []
    else
      var last := entities[|entities| - 1];
      assert entities == entities[..|entities| - 1] + [last];
      Mates(entities[..|entities| - 1], e) + (if Together(last, e) then [last] else [])
  }

  lemma {:induction false} GroupIsMates(card: RateCard, entities: seq<Entity>, e: Entity)
    requires Poolable(card, e)
    ensures GroupOf(card, entities, KeyOf(e)) == Mates(entities, e)
  {
    hide BySlug;
    if entities == [] {
    } else {
      var last := entities[|entities| - 1];
      GroupIsMates(card, entities[..|entities| - 1], e);
      assert Poolable(card, last) && KeyOf(last) == KeyOf(e) <==> Together(last, e);
    }
  }

  /** A per-unit line that pools, two entities or more together, and a tier for their summed volume, which
      is looked up for the first of them. */
  ghost predicate Pooled(line: ServiceLine, entities: seq<Entity>, e: Entity) {
    var mates := Mates(entities, e);
    && line.model == PerUnit && line.pool && |mates| >= 2
    && !NoneCovers(line.tiers, SumScope(mates, line.unit), mates[0].methodology, mates[0].customer)
  }

  lemma PoolMeans(card: RateCard, entities: seq<Entity>, e: Entity)
    requires e.slug in BySlug(card.lines)
    ensures var line := BySlug(card.lines)[e.slug]; var mates := Mates(entities, e);
      match OwnPool(card, entities, e)
      case None => !Pooled(line, entities, e)
      case Some(pool) =>
        && Pooled(line, entities, e) && pool.count == |mates|
        && exists i :: FirstCovering(line.tiers, i, SumScope(mates, line.unit), mates[0].methodology, mates[0].customer) && line.tiers[i] == pool.tier
  {
    hide BySlug, SumScope, Mates, GroupOf, FirstFit, Covers, KeyOf;
    var line := BySlug(card.lines)[e.slug];
    var mates := Mates(entities, e);
    if Poolable(card, e) {
      GroupIsMates(card, entities, e);
      if |mates| >= 2 {
        assert mates[0] in mates && mates[0].slug == e.slug;
        TierMeans(line.tiers, SumScope(mates, line.unit), mates[0].methodology, mates[0].customer);
      }
    }
  }

  // ── A quoted line ─────────────────────────────────────────────────────────

  /** Priced at a tier: its rate times the scope, to the nearest cent, on per-unit lines; its price on others. */
  predicate AtTier(line: ServiceLine, t: Tier, l: Line) {
    && l.outcome == Priced(t.id, line.model, if line.model == PerUnit then Some(t.priceCents) else None)
    && l.methodology == t.methodology && l.customer == t.customer
    && if line.model == PerUnit then t.priceCents as real * l.scope - 0.5 < l.priceCents as real <= t.priceCents as real * l.scope + 0.5
       else l.priceCents == t.priceCents
  }

  /** A line of a known service: at the tier of the pool, else at the first tier that covers the entity's
      own count, else unmatched and free of charge. */
  ghost predicate Billed(line: ServiceLine, entities: seq<Entity>, e: Entity, l: Line) {
    var mates := Mates(entities, e);
    && l.unit == line.unit && l.name == line.name && Counted(e.dims, line.unit, l.scope)
    && if Pooled(line, entities, e) then
         && l.pooledAcross == Some(|mates|)
         && exists i :: FirstCovering(line.tiers, i, SumScope(mates, line.unit), mates[0].methodology, mates[0].customer)
                        && AtTier(line, line.tiers[i], l)
       else
         && l.pooledAcross == None
         && if NoneCovers(line.tiers, l.scope, e.methodology, e.customer)
            then l.outcome == NoMatchingTier && l.priceCents == 0 && l.methodology == e.methodology && l.customer == e.customer
            else exists i :: FirstCovering(line.tiers, i, l.scope, e.methodology, e.customer) && AtTier(line, line.tiers[i], l)
  }

  lemma BilledLine(card: RateCard, entities: seq<Entity>, e: Entity)
    requires e.slug in BySlug(card.lines) && e.slug !in OpenSlugs(card)
    ensures Billed(BySlug(card.lines)[e.slug], entities, e, LineOf(card, e, OwnPool(card, entities, e)))
  {
    hide BySlug, OpenSlugs, OwnPool, Mates, SumScope, FirstFit, Covers, Pooled;
    var line := BySlug(card.lines)[e.slug];
    var pool := OwnPool(card, entities, e);
    PoolMeans(card, entities, e);
    TierMeans(line.tiers, SafeScope(e.dims, line.unit), e.methodology, e.customer);
    var l := LineOf(card, e, pool);
    if l.outcome.Priced? {
      assert AtTier(line, TierFor(line, e, pool).value, l);
    }
  }

  /** A line without a price keeps the entity's own methodology and customer, under the name given. */
  function FreeLine(e: Entity, name: string, outcome: Outcome): Line {
    Line(e.id, e.slug, name, if e.appId == Some("") then None else e.appId, None, OtherUnit, 0.0, e.methodology, e.customer, 0, outcome)
  }

  /** Every line of a quote: by hand for an open service, unknown for a slug on neither list, and billed by
      the last card entry of the slug otherwise. */
  lemma QuoteMeans(card: RateCard, entities: seq<Entity>, k: nat)
    requires DistinctIds(entities) && k < |entities|
    ensures var e := entities[k]; var l := QuoteOf(card, entities).lines[k];
      if exists o :: o in card.open && o.slug == e.slug then
        exists i :: FirstOpen(card.open, i, e.slug) && l == FreeLine(e, card.open[i].name, ManualQuote)
      else if forall s :: s in card.lines ==> s.slug != e.slug then l == FreeLine(e, e.slug, UnknownServiceLine)
      else
        && e.slug in BySlug(card.lines) && Billed(BySlug(card.lines)[e.slug], entities, e, l)
        && l.entityId == e.id && l.slug == e.slug && l.appId == if e.appId == Some("") then None else e.appId
  {
    hide BySlug, QuoteOf, OwnPool, Billed, FirstFit, Charge, FirstOpen;
    QuoteLine(card, entities, k);
    var e := entities[k];
    assert e.slug in OpenSlugs(card) <==> exists o :: o in card.open && o.slug == e.slug;
    if e.slug in OpenSlugs(card) {
      FirstOpenWins(card.open, e.slug);
    } else if e.slug in BySlug(card.lines) {
      BilledLine(card, entities, e);
    }
  }

  /** With contiguous bands, every whole scope from the first band on is quoted by the band that holds it,
      both ends included. */
  lemma BandsQuote(card: RateCard, entities: seq<Entity>, k: nat, scope: real)
    requires DistinctIds(entities) && k < |entities| && entities[k].slug in BySlug(card.lines)
    requires forall o :: o in card.open ==> o.slug != entities[k].slug
    requires var line := BySlug(card.lines)[entities[k].slug]; var tiers := line.tiers;
      && Contiguous(tiers, entities[k].methodology, entities[k].customer) && tiers != []
      && line.unit in entities[k].dims && entities[k].dims[line.unit] == Finite(scope) && Whole(scope) && scope >= 0.0
      && tiers[0].rangeMin <= scope && (tiers[|tiers| - 1].rangeMax == None || scope <= tiers[|tiers| - 1].rangeMax.value)
      && !Pooled(line, entities, entities[k])
    ensures var line := BySlug(card.lines)[entities[k].slug]; var tiers := line.tiers;
      exists i :: 0 <= i < |tiers| && InBand(tiers[i], scope) && AtTier(line, tiers[i], QuoteOf(card, entities).lines[k])
                  && forall j :: 0 <= j < |tiers| && InBand(tiers[j], scope) ==> j == i
  {
    hide BySlug, QuoteOf, Contiguous, AtTier, Pooled, Mates, FirstFit, Covers, SumScope, InBand;
    var e := entities[k];
    var line := BySlug(card.lines)[e.slug];
    var tiers := line.tiers;
    QuoteMeans(card, entities, k);
    SomeBandHolds(tiers, e.methodology, e.customer, scope, |tiers|);
    var i :| 0 <= i < |tiers| && InBand(tiers[i], scope);
    BandCovers(tiers, e.methodology, e.customer, scope, i);
    forall j | 0 <= j < |tiers| && InBand(tiers[j], scope) ensures j == i {
      BandCovers(tiers, e.methodology, e.customer, scope, j);
    }
  }
}
