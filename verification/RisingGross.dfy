/**
 Exactly which plans never pay less for more (`applyTiers` in packages/core/calculation-engine.ts), on
 the inputs there are: credited bases and amounts already produced that are not negative.
 */
module RisingGross {
  import opened Prelude
  import opened Tiers
  import opened Engine

  function Rate(rules: Rules, production: real): real {
    RateOf(Some(rules), production)
  }

  function Gross(rules: Rules, base: real, ytdGross: real): real {
    TieredGross(base, Some(rules), ytdGross)
  }

  /** Only productions above this one can earn commission: the desk cost is taken off the base first. */
  function Start(rules: Rules): real {
    Max(0.0, rules.deskCost)
  }

  /** From the start on rates are not negative and do not fall.  Tiers below it do not matter. */
  ghost predicate ProgressiveFromStart(rules: Rules) {
    && Rate(rules, Start(rules)) >= 0.0
    && (forall t | t in rules.tiers && t.threshold > Start(rules) :: t.rate >= Rate(rules, Start(rules)))
    && (forall t, u | t in rules.tiers && u in rules.tiers && Start(rules) < t.threshold <= u.threshold ::
      t.rate <= u.rate)
  }

  ghost predicate NeverPaysLess(rules: Rules) {
    forall x, y, ytdGross | 0.0 <= x <= y && 0.0 <= ytdGross ::
      0.0 <= Gross(rules, x, ytdGross) <= Gross(rules, y, ytdGross)
  }

  // ---------------------------------------------------------------- rates

  lemma {:induction false} RateIsConstant(rules: Rules, p: real, q: real)
    requires DistinctThresholds(rules.tiers) && p <= q
    requires forall t | t in rules.tiers && t.threshold <= q :: t.threshold <= p
    ensures Rate(rules, p) == Rate(rules, q)
  {
    ScanFinds(rules.tiers, p, None);
    ScanFinds(rules.tiers, q, None);
  }

  lemma {:induction false} RateAt(rules: Rules, t: Tier)
    requires DistinctThresholds(rules.tiers) && t in rules.tiers
    ensures Rate(rules, t.threshold) == t.rate
  {
    ScanFinds(rules.tiers, t.threshold, None);
  }

  lemma {:induction false} RateFromStart(rules: Rules, p: real)
    requires DistinctThresholds(rules.tiers) && Start(rules) <= p
    ensures || Rate(rules, p) == Rate(rules, Start(rules))
            || exists t :: IsReached(rules.tiers, p, t) && t.threshold > Start(rules) && t.rate == Rate(rules, p)
  {
    ScanFinds(rules.tiers, p, None);
    var reached := Scan(rules.tiers, p, None);
    if reached.Some? && reached.value.threshold > Start(rules) {
      assert IsReached(rules.tiers, p, reached.value);
    } else {
      RateIsConstant(rules, Start(rules), p);
    }
  }

  lemma {:induction false} RateRisesFromStart(rules: Rules, p: real, q: real)
    requires DistinctThresholds(rules.tiers) && ProgressiveFromStart(rules) && Start(rules) <= p <= q
    ensures 0.0 <= Rate(rules, p) <= Rate(rules, q)
  {
    RateFromStart(rules, p);
    RateFromStart(rules, q);
    if Rate(rules, p) != Rate(rules, Start(rules)) {
      var t :| IsReached(rules.tiers, p, t) && t.threshold > Start(rules) && t.rate == Rate(rules, p);
      ScanFinds(rules.tiers, q, None);
      var u := Scan(rules.tiers, q, None).value;
      assert t.threshold <= u.threshold;
    }
  }

  lemma {:induction false} GrossAbove(rules: Rules, base: real, ytdGross: real)
    ensures base >= rules.deskCost ==>
      Gross(rules, base, ytdGross) == (base - rules.deskCost) * Rate(rules, ytdGross + base)
    ensures base <= rules.deskCost ==> Gross(rules, base, ytdGross) == 0.0
  {
    if base <= rules.deskCost {
      TimesNothing(Rate(rules, ytdGross + base));
    }
  }

  lemma {:induction false} TimesNothing(r: real)
    ensures 0.0 * r == 0.0
  {
  }

  lemma {:induction false} MoreAboveDeskCost(rules: Rules, x: real, y: real, ytdGross: real)
    requires DistinctThresholds(rules.tiers) && ProgressiveFromStart(rules) && 0.0 <= x <= y && 0.0 <= ytdGross
    requires x > rules.deskCost
    ensures 0.0 <= Gross(rules, x, ytdGross) <= Gross(rules, y, ytdGross)
  {
    RateRisesFromStart(rules, ytdGross + x, ytdGross + y);
    ProductRises(Max(0.0, x - rules.deskCost), Max(0.0, y - rules.deskCost),
                 RateOf(Some(rules), ytdGross + x), RateOf(Some(rules), ytdGross + y));
  }

  lemma {:induction false} GrossNotNegative(rules: Rules, base: real, ytdGross: real)
    requires DistinctThresholds(rules.tiers) && ProgressiveFromStart(rules) && 0.0 <= base && 0.0 <= ytdGross
    ensures 0.0 <= Gross(rules, base, ytdGross)
  {
    if base > rules.deskCost {
      MoreAboveDeskCost(rules, base, base, ytdGross);
    } else {
      GrossAbove(rules, base, ytdGross);
    }
  }

  lemma {:induction false} ProgressiveNeverPaysLess(rules: Rules, x: real, y: real, ytdGross: real)
    requires DistinctThresholds(rules.tiers) && ProgressiveFromStart(rules) && 0.0 <= x <= y && 0.0 <= ytdGross
    ensures 0.0 <= Gross(rules, x, ytdGross) <= Gross(rules, y, ytdGross)
  {
    if x > rules.deskCost {
      MoreAboveDeskCost(rules, x, y, ytdGross);
    } else {
      GrossAbove(rules, x, ytdGross);
      GrossNotNegative(rules, y, ytdGross);
    }
  }

  // ---------------------------------------------------------------- a rate that falls is seen in the gross

  lemma {:induction false} GrossFromNothing(rules: Rules, base: real)
    requires base >= rules.deskCost
    ensures Gross(rules, base, 0.0) == (base - rules.deskCost) * Rate(rules, base)
  {
    GrossAbove(rules, base, 0.0);
    assert 0.0 + base == base;
  }

  lemma {:induction false} FactorNotNegative(x: real, r: real)
    requires x > 0.0 && x * r >= 0.0
    ensures r >= 0.0
  {
  }

  lemma {:induction false} RateNotNegative(rules: Rules, p: real)
    requires NeverPaysLess(rules) && p > Start(rules)
    ensures Rate(rules, p) >= 0.0
  {
    GrossFromNothing(rules, p);
    assert 0.0 <= Gross(rules, p, 0.0);
    FactorNotNegative(p - rules.deskCost, Rate(rules, p));
  }

  /** How far below `top` a base may be and still earn more at `high` than `top` does at `low`. */
  function Nearness(width: real, high: real, low: real): real
    requires high > 0.0
  {
    width * (high - low) / (2.0 * high)
  }

  lemma {:induction false} NearEarnsMore(width: real, gap: real, high: real, low: real)
    requires width > 0.0 && high > low >= 0.0 && gap <= Nearness(width, high, low)
    ensures (width - gap) * high > width * low && Nearness(width, high, low) > 0.0
  {
    var fall := width * (high - low);
    assert fall > 0.0;
    assert Nearness(width, high, low) * (2.0 * high) == fall;
    ProductAtMost(gap, Nearness(width, high, low), high);
    assert gap * high <= fall / 2.0;
    assert (width - gap) * high == width * high - gap * high;
    assert width * high == width * low + fall;
  }

  lemma {:induction false} ProductAtMost(x: real, y: real, k: real)
    requires x <= y && k > 0.0
    ensures x * k <= y * k
  {
  }

  /** A rate that falls at a threshold: some base below it earns more than the threshold does. */
  lemma {:induction false} FallIsSeen(rules: Rules, below: real, top: real) returns (near: real)
    requires DistinctThresholds(rules.tiers) && Start(rules) <= below < top
    requires forall t | t in rules.tiers && t.threshold < top :: t.threshold <= below
    requires Rate(rules, below) > Rate(rules, top) >= 0.0
    ensures 0.0 <= near <= top && Gross(rules, near, 0.0) > Gross(rules, top, 0.0)
  {
    var high, low := Rate(rules, below), Rate(rules, top);
    var width := top - rules.deskCost;
    NearEarnsMore(width, Nearness(width, high, low), high, low);
    near := Max((below + top) / 2.0, top - Nearness(width, high, low));
    NearEarnsMore(width, top - near, high, low);
    RateIsConstant(rules, below, near);
    GrossFromNothing(rules, near);
    GrossFromNothing(rules, top);
    assert width - (top - near) == near - rules.deskCost;
  }

  lemma {:induction false} NoFallAt(rules: Rules, below: real, top: real)
    requires DistinctThresholds(rules.tiers) && NeverPaysLess(rules) && Start(rules) <= below < top
    requires forall t | t in rules.tiers && t.threshold < top :: t.threshold <= below
    ensures Rate(rules, below) <= Rate(rules, top)
  {
    RateNotNegative(rules, top);
    if Rate(rules, below) > Rate(rules, top) {
      var near := FallIsSeen(rules, below, top);
    }
  }

  lemma {:induction false} HighestBelow(tiers: seq<Tier>, p: real, top: real) returns (below: real)
    requires p < top
    ensures p <= below < top && forall t | t in tiers && t.threshold < top :: t.threshold <= below
  {
    below := p;
    if tiers != [] {
      below := HighestBelow(tiers[1..], p, top);
      if below < tiers[0].threshold < top {
        below := tiers[0].threshold;
      }
    }
  }

  function Between(tiers: seq<Tier>, p: real, q: real): set<Tier> {
    set t | t in tiers && p < t.threshold <= q
  }

  lemma {:induction false} Fewer(a: set<Tier>, b: set<Tier>, t: Tier)
    requires a <= b && t in b && t !in a
    ensures |a| < |b|
  {
    assert a <= b - {t};
    Within(a, b - {t});
  }

  lemma {:induction false} Within(a: set<Tier>, b: set<Tier>)
    requires a <= b
    ensures |a| <= |b|
    decreases |a|
  {
    if a != {} {
      var t :| t in a;
      Within(a - {t}, b - {t});
    }
  }

  /** From threshold to threshold, downward from the highest one reached. */
  lemma {:induction false} RisingGrossRisingRate(rules: Rules, p: real, q: real)
    requires DistinctThresholds(rules.tiers) && NeverPaysLess(rules) && Start(rules) <= p <= q
    ensures Rate(rules, p) <= Rate(rules, q)
    decreases |Between(rules.tiers, p, q)|
  {
    ScanFinds(rules.tiers, q, None);
    var reached := Scan(rules.tiers, q, None);
    if reached.None? || reached.value.threshold <= p {
      RateIsConstant(rules, p, q);
    } else {
      var t := reached.value;
      var below := HighestBelow(rules.tiers, p, t.threshold);
      Fewer(Between(rules.tiers, p, below), Between(rules.tiers, p, q), t);
      RisingGrossRisingRate(rules, p, below);
      NoFallAt(rules, below, t.threshold);
      RateIsConstant(rules, t.threshold, q);
    }
  }

  lemma {:induction false} LowestAbove(tiers: seq<Tier>, p: real) returns (above: real)
    ensures p < above && forall t | t in tiers && t.threshold > p :: above <= t.threshold
  {
    above := p + 1.0;
    if tiers != [] {
      above := LowestAbove(tiers[1..], p);
      if p < tiers[0].threshold < above {
        above := tiers[0].threshold;
      }
    }
  }

  lemma {:induction false} FirstRateNotNegative(rules: Rules)
    requires DistinctThresholds(rules.tiers) && NeverPaysLess(rules)
    ensures Rate(rules, Start(rules)) >= 0.0
  {
    var above := LowestAbove(rules.tiers, Start(rules));
    var middle := (Start(rules) + above) / 2.0;
    RateIsConstant(rules, Start(rules), middle);
    RateNotNegative(rules, middle);
  }

  /**
   With distinct thresholds a plan never pays less for more if and only if its rates do not fall from the start
   on.
   */
  lemma {:induction false} NeverPaysLessIff(rules: Rules)
    requires DistinctThresholds(rules.tiers)
    ensures NeverPaysLess(rules) <==> ProgressiveFromStart(rules)
  {
    if ProgressiveFromStart(rules) {
      forall x, y, ytdGross | 0.0 <= x <= y && 0.0 <= ytdGross
        ensures 0.0 <= Gross(rules, x, ytdGross) <= Gross(rules, y, ytdGross)
      {
        ProgressiveNeverPaysLess(rules, x, y, ytdGross);
      }
    }
    if NeverPaysLess(rules) {
      FirstRateNotNegative(rules);
      forall t | t in rules.tiers && t.threshold > Start(rules)
        ensures t.rate >= Rate(rules, Start(rules))
      {
        RateAt(rules, t);
        RisingGrossRisingRate(rules, Start(rules), t.threshold);
      }
      forall t, u | t in rules.tiers && u in rules.tiers && Start(rules) < t.threshold <= u.threshold
        ensures t.rate <= u.rate
      {
        RateAt(rules, t);
        RateAt(rules, u);
        RisingGrossRisingRate(rules, t.threshold, u.threshold);
      }
    }
  }
}
