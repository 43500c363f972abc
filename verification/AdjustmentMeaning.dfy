/** Which rule the rules regime applies, and what it reports. */
module AdjustmentMeaning {
  import opened Wrappers
  import opened Adjustment

  /** The rule applies, and of those that do it has the lowest percentage, then the highest threshold, and is
      the first of its kind. */
  ghost predicate Applied(rules: seq<LoyaltyRule>, ltv: int, k: int) {
    && 0 <= k < |rules| && rules[k].minLifetimeValueCents <= ltv
    && forall j :: 0 <= j < |rules| && rules[j].minLifetimeValueCents <= ltv ==> Ahead(rules, k, j)
  }

  predicate Ahead(rules: seq<LoyaltyRule>, k: nat, j: nat)
    requires k < |rules| && j < |rules|
  {
    var a, b := rules[k], rules[j];
    || a.discountPct < b.discountPct
    || (a.discountPct == b.discountPct && a.minLifetimeValueCents > b.minLifetimeValueCents)
    || (a.discountPct == b.discountPct && a.minLifetimeValueCents == b.minLifetimeValueCents && k <= j)
  }

  lemma SomeMatches(rules: seq<LoyaltyRule>, ltv: int)
    ensures Matching(rules, ltv) != [] <==> exists r :: r in rules && r.minLifetimeValueCents <= ltv
  {
    var m := Matching(rules, ltv);
    if m != [] {
      assert m[0] in m;
    }
  }

  lemma FirstApplied(front: seq<LoyaltyRule>, last: LoyaltyRule, ltv: int)
    requires (forall r :: r in front ==> r.minLifetimeValueCents > ltv) && last.minLifetimeValueCents <= ltv
    ensures Applied(front + [last], ltv, |front|)
  {
  }

  lemma AppliedNext(front: seq<LoyaltyRule>, last: LoyaltyRule, ltv: int, k: int)
    requires Applied(front, ltv, k)
    ensures Applied(front + [last], ltv, if last.minLifetimeValueCents <= ltv && Before(last, front[k]) then |front| else k)
  {
    var rules := front + [last];
    forall j | 0 <= j < |front| && rules[j].minLifetimeValueCents <= ltv ensures Ahead(front, k, j) {
    }
  }

  lemma MatchingNext(front: seq<LoyaltyRule>, last: LoyaltyRule, ltv: int)
    ensures Matching(front + [last], ltv) == Matching(front, ltv) + if last.minLifetimeValueCents <= ltv then [last] else []
  {
    assert (front + [last])[..|front|] == front;
  }

  lemma WinnerNext(front: seq<LoyaltyRule>, last: LoyaltyRule)
    requires front != []
    ensures Winner(front + [last]) == if Before(last, Winner(front)) then last else Winner(front)
  {
    assert (front + [last])[..|front|] == front;
  }

  lemma {:induction false} WinnerMeans(rules: seq<LoyaltyRule>, ltv: int)
    requires Matching(rules, ltv) != []
    ensures exists k :: 0 <= k < |rules| && Applied(rules, ltv, k) && Winner(Matching(rules, ltv)) == rules[k]
  {
    hide Matching, Winner, Before, Ahead, Applied;
    SomeMatches(rules, ltv);
    var front, last := rules[..|rules| - 1], rules[|rules| - 1];
    assert rules == front + [last];
    MatchingNext(front, last, ltv);
    if Matching(front, ltv) == [] {
      SomeMatches(front, ltv);
      FirstApplied(front, last, ltv);
      OnlyOne(last);
      assert [] + [last] == [last];
      assert rules[|front|] == last;
    } else {
      WinnerMeans(front, ltv);
      var k :| 0 <= k < |front| && Applied(front, ltv, k) && Winner(Matching(front, ltv)) == front[k];
      WinnerStep(front, last, ltv, k);
    }
  }

  lemma WinnerStep(front: seq<LoyaltyRule>, last: LoyaltyRule, ltv: int, k: nat)
    requires Matching(front, ltv) != [] && k < |front| && Applied(front, ltv, k) && Winner(Matching(front, ltv)) == front[k]
    ensures var rules := front + [last];
      Matching(rules, ltv) != [] && exists i :: 0 <= i < |rules| && Applied(rules, ltv, i) && Winner(Matching(rules, ltv)) == rules[i]
  {
    hide Matching, Winner, Before, Ahead, Applied;
    MatchingNext(front, last, ltv);
    AppliedNext(front, last, ltv, k);
    WinnerNext(Matching(front, ltv), last);
    var rules := front + [last];
    assert rules[k] == front[k] && rules[|front|] == last;
    if last.minLifetimeValueCents <= ltv {
      assert Matching(rules, ltv) == Matching(front, ltv) + [last];
    } else {
      assert Matching(rules, ltv) == Matching(front, ltv) + [] == Matching(front, ltv);
    }
  }

  lemma OnlyOne(r: LoyaltyRule)
    ensures Winner([r]) == r
  {
  }

  function Way(weight: real): Direction {
    if weight < 0.0 then Discount else if weight == 0.0 then Neutral else Premium
  }

  function LoyaltyDriver(r: LoyaltyRule): Driver {
    Driver(Loyalty(r.tier), r.discountPct, Way(r.discountPct))
  }

  /** The drivers are the rule that applies, if one does, and then every modifier that is not 1, in order,
      each with its own percentage; together they make up the adjustment. */
  lemma DriversMean(config: Config, ltv: int)
    ensures var drivers := RulesAdjustment(config, ltv).drivers; var modified := ModifierDrivers(config.modifiers);
      if forall r :: r in config.loyaltyRules ==> r.minLifetimeValueCents > ltv then drivers == modified
      else exists k :: 0 <= k < |config.loyaltyRules| && Applied(config.loyaltyRules, ltv, k)
             && drivers == [LoyaltyDriver(config.loyaltyRules[k])] + modified
    ensures RulesAdjustment(config, ltv).regime == Rules
    ensures 1.0 + RulesAdjustment(config, ltv).adjustmentPct == Product(RulesAdjustment(config, ltv).drivers)
  {
    hide Matching, Winner, ModifierDrivers, Product, Applied;
    DriversExplainAdjustment(Rules, config, ltv);
    if forall r :: r in config.loyaltyRules ==> r.minLifetimeValueCents > ltv {
      SomeMatches(config.loyaltyRules, ltv);
      assert [] + ModifierDrivers(config.modifiers) == ModifierDrivers(config.modifiers);
    } else {
      SomeMatches(config.loyaltyRules, ltv);
      WinnerMeans(config.loyaltyRules, ltv);
    }
  }

  lemma ModifiersMean(modifiers: seq<Modifier>, m: Modifier)
    ensures ModifierDrivers([]) == []
    ensures ModifierDrivers(modifiers + [m])
         == ModifierDrivers(modifiers) + if m.multiplier == 1.0 then [] else [Driver(Modified(m.name), m.multiplier - 1.0, Way(m.multiplier - 1.0))]
  {
    assert (modifiers + [m])[..|modifiers|] == modifiers;
  }

  lemma ProductMeans(drivers: seq<Driver>, d: Driver)
    ensures Product([]) == 1.0 && Product(drivers + [d]) == Product(drivers) * (1.0 + d.weight)
  {
    hide Product;
    NoDrivers();
    ProductLast(drivers, d);
    TimesMeans(Product(drivers), 1.0 + d.weight);
  }
}
