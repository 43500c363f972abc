/** Stage 3 of the pricing engine: loyalty rules, manual modifiers, and the price band. */
module Adjustment {
  import opened Wrappers
  import opened Pricing
  import opened PricingLaws

  datatype LoyaltyRule = LoyaltyRule(tier: string, minLifetimeValueCents: int, discountPct: real)

  datatype Modifier = Modifier(name: string, multiplier: real)

  datatype Config = Config(loyaltyRules: seq<LoyaltyRule>, modifiers: seq<Modifier>)

  datatype Regime = ColdStart | Rules | Linear | Boosted

  datatype Direction = Discount | Premium | Neutral

  datatype Feature = Loyalty(tier: string) | Modified(name: string)

  datatype Driver = Driver(feature: Feature, weight: real, direction: Direction)

  datatype AdjustmentResult = AdjustmentResult(regime: Regime, adjustmentPct: real, drivers: seq<Driver>)

  datatype Prediction = Prediction(predictedCents: int, bandLowCents: int, bandHighCents: int)

  /** Multiplication by name, so that proofs can leave its arithmetic aside. */
  function Times(x: real, y: real): real {
    x * y
  }

  lemma TimesOne(x: real)
    ensures Times(1.0, x) == x == Times(x, 1.0)
  {
  }

  lemma Associate(x: real, y: real, z: real)
    ensures Times(Times(x, y), z) == Times(x, Times(y, z))
  {
  }

  // ── Picking the rule ──────────────────────────────────────────────────────

  function Matching(rules: seq<LoyaltyRule>, ltv: int): (m: seq<LoyaltyRule>)
    ensures forall r :: r in m <==> r in rules && ltv >= r.minLifetimeValueCents
  {
    if rules == [] then []
    else
      var last := rules[|rules| - 1];
      assert rules == rules[..|rules| - 1] + [last];
      Matching(rules[..|rules| - 1], ltv) + (if ltv >= last.minLifetimeValueCents then [last] else [])
  }

  /** The sort's comparison: lower percentage first, then higher threshold. */
  predicate Before(a: LoyaltyRule, b: LoyaltyRule) {
    if a.discountPct != b.discountPct then a.discountPct < b.discountPct
    else a.minLifetimeValueCents > b.minLifetimeValueCents
  }

  /** The head of the stable sort: the first rule that no other rule comes before. */
  function Winner(rules: seq<LoyaltyRule>): (w: LoyaltyRule)
    requires rules != []
    ensures w in rules
  {
    if |rules| == 1 then rules[0]
    else
      var best := Winner(rules[..|rules| - 1]);
      if Before(rules[|rules| - 1], best) then rules[|rules| - 1] else best
  }

  lemma {:induction false} WinnerIsBest(rules: seq<LoyaltyRule>, r: LoyaltyRule)
    requires r in rules
    ensures !Before(r, Winner(rules)) && Winner(rules).discountPct <= r.discountPct
  {
    var front, last := rules[..|rules| - 1], rules[|rules| - 1];
    assert rules == front + [last];
    if |rules| > 1 && r in front {
      WinnerIsBest(front, r);
    }
  }

  // ── The rules regime ──────────────────────────────────────────────────────

  function SignOf(x: real): Direction {
    if x < 0.0 then Discount else if x > 0.0 then Premium else Neutral
  }

  function LoyaltyFactor(rules: seq<LoyaltyRule>, ltv: int): real {
    if Matching(rules, ltv) == [] then 1.0 else 1.0 + Winner(Matching(rules, ltv)).discountPct
  }

  function LoyaltyDrivers(rules: seq<LoyaltyRule>, ltv: int): seq<Driver> {
    if Matching(rules, ltv) == [] then []
    else
      var w := Winner(Matching(rules, ltv));
      [Driver(Loyalty(w.tier), w.discountPct, SignOf(w.discountPct))]
  }

  function ModifierFactor(modifiers: seq<Modifier>): real {
    if modifiers == [] then 1.0 else Times(ModifierFactor(modifiers[..|modifiers| - 1]), modifiers[|modifiers| - 1].multiplier)
  }

  function ModifierDrivers(modifiers: seq<Modifier>): seq<Driver> {
    if modifiers == [] then []
    else
      var m := modifiers[|modifiers| - 1];
      ModifierDrivers(modifiers[..|modifiers| - 1])
      + (if m.multiplier == 1.0 then [] else [Driver(Modified(m.name), m.multiplier - 1.0, SignOf(m.multiplier - 1.0))])
  }

  function RulesAdjustment(config: Config, ltv: int): AdjustmentResult {
    AdjustmentResult(Rules, Times(LoyaltyFactor(config.loyaltyRules, ltv), ModifierFactor(config.modifiers)) - 1.0,
                     LoyaltyDrivers(config.loyaltyRules, ltv) + ModifierDrivers(config.modifiers))
  }

  function Product(drivers: seq<Driver>): real {
    if drivers == [] then 1.0 else Times(Product(drivers[..|drivers| - 1]), 1.0 + drivers[|drivers| - 1].weight)
  }

  lemma ProductLast(drivers: seq<Driver>, d: Driver)
    ensures Product(drivers + [d]) == Times(Product(drivers), 1.0 + d.weight)
  {
    assert (drivers + [d])[..|drivers|] == drivers;
  }

  lemma NoDrivers()
    ensures Product([]) == 1.0
  {
  }

  /** The loop keeps 1 + adjustment equal to the product of (1 + weight) over the drivers it emits. */
  method RunRulesRegime(config: Config, ltv: int) returns (r: AdjustmentResult)
    ensures 1.0 + r.adjustmentPct == Product(r.drivers)
    ensures r == RulesAdjustment(config, ltv)
  {
    hide Matching, Winner, Times, Product;
    var matching := Matching(config.loyaltyRules, ltv);
    var drivers: seq<Driver> := [];
    var factor := 1.0;
    NoDrivers();
    if |matching| > 0 {
      var winner := Winner(matching);
      var d := Driver(Loyalty(winner.tier), winner.discountPct, SignOf(winner.discountPct));
      ProductLast(drivers, d);
      drivers := drivers + [d];
      factor := Times(factor, 1.0 + winner.discountPct);
    }
    TimesOne(factor);
    if |matching| > 0 {
      TimesOne(1.0 + Winner(matching).discountPct);
    }
    ghost var loyalty := factor;
    assert drivers + [] == drivers;
    assert loyalty == LoyaltyFactor(config.loyaltyRules, ltv);
    for i := 0 to |config.modifiers|
      invariant factor == Times(loyalty, ModifierFactor(config.modifiers[..i]))
      invariant factor == Product(drivers)
      invariant drivers == LoyaltyDrivers(config.loyaltyRules, ltv) + ModifierDrivers(config.modifiers[..i])
    {
      var m := config.modifiers[i];
      assert config.modifiers[..i + 1][..i] == config.modifiers[..i];
      Associate(loyalty, ModifierFactor(config.modifiers[..i]), m.multiplier);
      TimesOne(ModifierFactor(config.modifiers[..i]));
      var delta := m.multiplier - 1.0;
      if delta == 0.0 {
        continue;
      }
      var d := Driver(Modified(m.name), delta, if delta < 0.0 then Discount else Premium);
      ProductLast(drivers, d);
      factor := Times(factor, m.multiplier);
      drivers := drivers + [d];
    }
    assert config.modifiers[..|config.modifiers|] == config.modifiers;
    return AdjustmentResult(Rules, factor - 1.0, drivers);
  }

  function ComputeAdjustment(regime: Regime, config: Config, ltv: int): Option<AdjustmentResult> {
    match regime
    case ColdStart => Some(AdjustmentResult(ColdStart, 0.0, []))
    case Rules => Some(RulesAdjustment(config, ltv))
    case _ => None
  }

  /** In every regime that is implemented the reported drivers explain the whole adjustment. */
  lemma DriversExplainAdjustment(regime: Regime, config: Config, ltv: int)
    ensures var r := ComputeAdjustment(regime, config, ltv);
      (r.None? <==> regime in {Linear, Boosted}) && (r.Some? ==> 1.0 + r.value.adjustmentPct == Product(r.value.drivers))
      && (regime == ColdStart ==> r == Some(AdjustmentResult(ColdStart, 0.0, [])))
  {
    if regime.Rules? {
      ProductOfParts(config, ltv, |config.modifiers|);
      assert config.modifiers[..|config.modifiers|] == config.modifiers;
    }
  }

  lemma {:induction false} ProductOfParts(config: Config, ltv: int, i: nat)
    requires i <= |config.modifiers|
    ensures var ms := config.modifiers[..i];
      Product(LoyaltyDrivers(config.loyaltyRules, ltv) + ModifierDrivers(ms))
      == Times(LoyaltyFactor(config.loyaltyRules, ltv), ModifierFactor(ms))
  {
    hide Matching, Winner, Times, Product;
    NoDrivers();
    var loyal := LoyaltyDrivers(config.loyaltyRules, ltv);
    if i == 0 {
      assert loyal + [] == loyal;
      TimesOne(LoyaltyFactor(config.loyaltyRules, ltv));
      if loyal != [] {
        ProductLast([], loyal[0]);
        assert [] + [loyal[0]] == loyal;
      }
    } else {
      ProductOfParts(config, ltv, i - 1);
      var m := config.modifiers[i - 1];
      assert config.modifiers[..i][..i - 1] == config.modifiers[..i - 1];
      var front := ModifierDrivers(config.modifiers[..i - 1]);
      Associate(LoyaltyFactor(config.loyaltyRules, ltv), ModifierFactor(config.modifiers[..i - 1]), m.multiplier);
      if m.multiplier != 1.0 {
        var d := Driver(Modified(m.name), m.multiplier - 1.0, SignOf(m.multiplier - 1.0));
        ProductLast(loyal + front, d);
        assert loyal + (front + [d]) == loyal + front + [d];
      } else {
        TimesOne(ModifierFactor(config.modifiers[..i - 1]));
        assert front + [] == front;
      }
    }
  }

  // ── The prediction ────────────────────────────────────────────────────────

  function Compose(baseCents: int, adjustment: AdjustmentResult, bandPctOverride: Option<real>): Prediction {
    var predicted := Round(Times(baseCents as real, 1.0 + adjustment.adjustmentPct));
    var bandPct := if bandPctOverride.Some? then bandPctOverride.value
                   else if adjustment.regime.ColdStart? then 0.0 else 0.1;
    var spread := Round(Times(predicted as real, bandPct));
    Prediction(predicted, if predicted - spread > 0 then predicted - spread else 0, predicted + spread)
  }

  lemma TimesMonotone(c: real, x: real, y: real)
    requires c >= 0.0 && x <= y
    ensures Times(c, x) <= Times(c, y)
  {
    assert Times(c, y) - Times(c, x) == c * (y - x);
  }

  /** The band encloses the prediction exactly when the prediction is not negative. */
  lemma BandIffNonNegative(baseCents: int, adjustment: AdjustmentResult, bandPctOverride: Option<real>)
    requires bandPctOverride.Some? ==> bandPctOverride.value >= 0.0
    ensures var p := Compose(baseCents, adjustment, bandPctOverride);
      0 <= p.bandLowCents <= p.predictedCents <= p.bandHighCents <==> p.predictedCents >= 0
  {
    hide Times, Round;
    var p := Compose(baseCents, adjustment, bandPctOverride);
    if p.predictedCents >= 0 {
      var bandPct := if bandPctOverride.Some? then bandPctOverride.value
                     else if adjustment.regime.ColdStart? then 0.0 else 0.1;
      TimesMonotone(p.predictedCents as real, 0.0, bandPct);
      TimesZero(p.predictedCents as real);
      RoundMonotone(0.0, Times(p.predictedCents as real, bandPct));
      RoundOfInt(0);
    }
  }

  lemma TimesMeans(x: real, y: real)
    ensures Times(x, y) == x * y
  {
  }

  /** The prediction is the adjusted price to the nearest cent, half a cent upwards.  In cold start the band
      is the prediction itself; in the rules regime it leaves a tenth of it to each side, within half a cent;
      an override leaves that share. */
  lemma BandMeans(baseCents: int, adjustment: AdjustmentResult, bandPctOverride: Option<real>)
    ensures var p := Compose(baseCents, adjustment, bandPctOverride); var exact := baseCents as real * (1.0 + adjustment.adjustmentPct);
      exact - 0.5 < p.predictedCents as real <= exact + 0.5
    ensures var p := Compose(baseCents, adjustment, bandPctOverride);
      adjustment.regime == ColdStart && bandPctOverride == None && p.predictedCents >= 0 ==> p.bandLowCents == p.predictedCents == p.bandHighCents
    ensures var p := Compose(baseCents, adjustment, bandPctOverride);
      adjustment.regime != ColdStart && bandPctOverride == None ==>
        -0.5 < (p.bandHighCents - p.predictedCents) as real - 0.1 * p.predictedCents as real <= 0.5
    ensures var p := Compose(baseCents, adjustment, bandPctOverride);
      bandPctOverride != None ==>
        -0.5 < (p.bandHighCents - p.predictedCents) as real - bandPctOverride.value * p.predictedCents as real <= 0.5
    ensures var p := Compose(baseCents, adjustment, bandPctOverride); var low := 2 * p.predictedCents - p.bandHighCents;
      p.bandLowCents == if low > 0 then low else 0
  {
    hide Times;
    var p := Compose(baseCents, adjustment, bandPctOverride);
    var bandPct := if bandPctOverride.Some? then bandPctOverride.value else if adjustment.regime.ColdStart? then 0.0 else 0.1;
    TimesMeans(baseCents as real, 1.0 + adjustment.adjustmentPct);
    TimesMeans(p.predictedCents as real, bandPct);
    TimesZero(p.predictedCents as real);
    RoundOfInt(0);
  }

  lemma TimesZero(x: real)
    ensures Times(x, 0.0) == 0.0
  {
  }

  lemma {:induction false} ModifierFactorSign(modifiers: seq<Modifier>)
    requires forall m :: m in modifiers ==> m.multiplier >= 0.0
    ensures ModifierFactor(modifiers) >= 0.0
  {
    if modifiers == [] {
    } else {
      ModifierFactorSign(modifiers[..|modifiers| - 1]);
      NonNegativeProduct(ModifierFactor(modifiers[..|modifiers| - 1]), modifiers[|modifiers| - 1].multiplier);
    }
  }

  lemma NonNegativeProduct(x: real, y: real)
    requires x >= 0.0 && y >= 0.0
    ensures Times(x, y) >= 0.0
  {
  }

  /** Discounts of at most 100% and non-negative modifiers never make a price negative, and so the
      band always encloses the prediction. */
  lemma PredictionNonNegative(baseCents: int, config: Config, ltv: int)
    requires baseCents >= 0
    requires forall r :: r in config.loyaltyRules ==> r.discountPct >= -1.0
    requires forall m :: m in config.modifiers ==> m.multiplier >= 0.0
    ensures Compose(baseCents, RulesAdjustment(config, ltv), None).predictedCents >= 0
  {
    hide Times, Round, Matching, Winner, ModifierFactor;
    ModifierFactorSign(config.modifiers);
    NonNegativeProduct(LoyaltyFactor(config.loyaltyRules, ltv), ModifierFactor(config.modifiers));
    var factor := 1.0 + RulesAdjustment(config, ltv).adjustmentPct;
    TimesMonotone(baseCents as real, 0.0, factor);
    TimesZero(baseCents as real);
    RoundMonotone(0.0, Times(baseCents as real, factor));
    RoundOfInt(0);
  }

  /** A higher lifetime value lowers the loyalty factor or keeps it, exactly when some rule already
      matched or the rule that now wins is no premium. */
  lemma LoyaltyFactorFalls(rules: seq<LoyaltyRule>, low: int, high: int)
    requires low <= high
    ensures LoyaltyFactor(rules, high) <= LoyaltyFactor(rules, low) <==>
              Matching(rules, low) != [] || LoyaltyFactor(rules, high) <= 1.0
  {
    hide Winner;
    if Matching(rules, low) != [] {
      var w := Winner(Matching(rules, low));
      assert w in Matching(rules, high);
      WinnerIsBest(Matching(rules, high), w);
    }
  }

  /** With no premium among the rules, a more valuable client never pays more. */
  lemma LoyalClientsPayNoMore(baseCents: int, config: Config, low: int, high: int)
    requires baseCents >= 0 && low <= high
    requires forall r :: r in config.loyaltyRules ==> r.discountPct <= 0.0
    requires forall m :: m in config.modifiers ==> m.multiplier >= 0.0
    ensures Compose(baseCents, RulesAdjustment(config, high), None).predictedCents
         <= Compose(baseCents, RulesAdjustment(config, low), None).predictedCents
  {
    hide Times, Round, Matching, Winner, ModifierFactor;
    LoyaltyFactorFalls(config.loyaltyRules, low, high);
    ModifierFactorSign(config.modifiers);
    var x, y := LoyaltyFactor(config.loyaltyRules, high), LoyaltyFactor(config.loyaltyRules, low);
    ProductMonotone(x, y, ModifierFactor(config.modifiers));
    var a, b := 1.0 + RulesAdjustment(config, high).adjustmentPct, 1.0 + RulesAdjustment(config, low).adjustmentPct;
    TimesMonotone(baseCents as real, a, b);
    RoundMonotone(Times(baseCents as real, a), Times(baseCents as real, b));
  }

  lemma ProductMonotone(x: real, y: real, c: real)
    requires x <= y && c >= 0.0
    ensures Times(x, c) <= Times(y, c)
  {
    assert y * c - x * c == (y - x) * c;
  }

  /** A premium rule breaks this: the client it starts to match pays more than before. */
  lemma PremiumRaisesPrice()
    ensures var config := Config([LoyaltyRule("vip", 100, 0.5)], []);
      && Compose(1000, RulesAdjustment(config, 99), None).predictedCents == 1000
      && Compose(1000, RulesAdjustment(config, 100), None).predictedCents == 1500
  {
    var rules := [LoyaltyRule("vip", 100, 0.5)];
    assert rules[..0] == [];
    assert Matching(rules, 99) == [] && Matching(rules, 100) == rules;
    assert Times(1000.0, 1.0) == 1000.0 && Times(1000.0, 1.5) == 1500.0;
  }
}
