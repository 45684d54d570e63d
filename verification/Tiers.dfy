/**
 Progressive rates: the check on writing a plan (`validateTiers` in packages/db/src/plans.ts), the
 engine's scan (`applyTiers` in packages/core/calculation-engine.ts) and the sorted walk
 (`computeTierProgress` in packages/core/tier-progress.ts).
 */
module Tiers {
  import opened Prelude

  datatype Tier = Tier(threshold: real, rate: real)

  // ---------------------------------------------------------------- what a rate is

  /** `t` is the highest tier that `production` has reached. */
  ghost predicate IsReached(tiers: seq<Tier>, production: real, t: Tier) {
    && t in tiers && t.threshold <= production
    && forall u | u in tiers && u.threshold <= production :: u.threshold <= t.threshold
  }

  /** `rate` is what `production` earns: the rate of the highest tier reached, or the base rate. */
  ghost predicate Earns(tiers: seq<Tier>, production: real, baseRate: real, rate: real) {
    if exists t | t in tiers :: t.threshold <= production
    then exists t :: IsReached(tiers, production, t) && rate == t.rate
    else rate == baseRate
  }

  ghost predicate DistinctThresholds(tiers: seq<Tier>) {
    forall t, u | t in tiers && u in tiers && t.threshold == u.threshold :: t == u
  }

  ghost predicate Ascending(tiers: seq<Tier>) {
    forall i, j | 0 <= i < j < |tiers| :: tiers[i].threshold < tiers[j].threshold
  }

  ghost predicate Sorted(tiers: seq<Tier>) {
    forall i, j | 0 <= i < j < |tiers| :: tiers[i].threshold <= tiers[j].threshold
  }

  /** Accepts exactly the lists whose thresholds ascend strictly, though it looks at neighbours only. */
  method ValidateTiers(tiers: seq<Tier>) returns (r: Result<(), nat>)
    ensures r.Ok? <==> forall i, j | 0 <= i < j < |tiers| :: tiers[i].threshold < tiers[j].threshold
    ensures r.Err? ==> 0 < r.error < |tiers| && tiers[r.error].threshold <= tiers[r.error - 1].threshold
  {
    var i := 1;
    while i < |tiers|
      invariant 1 <= i
      invariant forall j, k | 0 <= j < k < i && k < |tiers| :: tiers[j].threshold < tiers[k].threshold
    {
      if tiers[i].threshold <= tiers[i - 1].threshold {
        return Err(i);
      }
      i := i + 1;
    }
    r := Ok(());
  }

  lemma {:induction false} AscendingIsDistinct(tiers: seq<Tier>)
    requires Ascending(tiers)
    ensures DistinctThresholds(tiers) && Sorted(tiers)
  {
    forall t, u | t in tiers && u in tiers && t.threshold == u.threshold
      ensures t == u
    {
      var i :| 0 <= i < |tiers| && tiers[i] == t;
      var j :| 0 <= j < |tiers| && tiers[j] == u;
      assert !(i < j) && !(j < i);
    }
  }

  // ---------------------------------------------------------------- the engine's scan

  /** The tier that a scan from the left holds on to, starting with `best`. */
  function Scan(tiers: seq<Tier>, production: real, best: Option<Tier>): Option<Tier> {
    if tiers == [] then best
    else
      var t := tiers[0];
      var better := production >= t.threshold && (best.None? || t.threshold > best.value.threshold);
      Scan(tiers[1..], production, if better then Some(t) else best)
  }

  function AppliedRate(tiers: seq<Tier>, production: real, baseRate: real): real {
    match Scan(tiers, production, None) case Some(t) => t.rate case None => baseRate
  }

  method SelectTier(tiers: seq<Tier>, production: real) returns (selected: Option<Tier>)
    ensures selected == Scan(tiers, production, None)
    ensures selected.None? ==> forall t | t in tiers :: production < t.threshold
    ensures selected.Some? ==>
      && selected.value in tiers && selected.value.threshold <= production
      && forall t | t in tiers && t.threshold <= production :: t.threshold <= selected.value.threshold
  {
    ScanFinds(tiers, production, None);
    selected := None;
    var i := 0;
    while i < |tiers|
      invariant 0 <= i <= |tiers|
      invariant Scan(tiers[i..], production, selected) == Scan(tiers, production, None)
    {
      var tier := tiers[i];
      if production >= tier.threshold {
        if selected.None? || tier.threshold > selected.value.threshold {
          selected := Some(tier);
        }
      }
      i := i + 1;
    }
  }

  lemma {:induction false} ScanFinds(tiers: seq<Tier>, production: real, best: Option<Tier>)
    requires best.Some? ==> best.value.threshold <= production
    ensures var r := Scan(tiers, production, best);
      && (r.None? ==> best.None? && forall t | t in tiers :: t.threshold > production)
      && (r.Some? ==>
            && (r == best || r.value in tiers) && r.value.threshold <= production
            && (best.Some? ==> best.value.threshold <= r.value.threshold)
            && forall t | t in tiers && t.threshold <= production :: t.threshold <= r.value.threshold)
  {
    if tiers != [] {
      var t := tiers[0];
      var better := production >= t.threshold && (best.None? || t.threshold > best.value.threshold);
      ScanFinds(tiers[1..], production, if better then Some(t) else best);
      assert forall u | u in tiers :: u == t || u in tiers[1..];
    }
  }

  /** The scan needs no order: on any list it finds a highest tier reached, or none when none is. */
  lemma {:induction false} ScanEarns(tiers: seq<Tier>, production: real, baseRate: real)
    ensures Earns(tiers, production, baseRate, AppliedRate(tiers, production, baseRate))
    ensures (forall t | t in tiers :: production < t.threshold) ==> AppliedRate(tiers, production, baseRate) == baseRate
    ensures (forall t | t in tiers :: production < t.threshold) || exists t | t in tiers && t.threshold <= production ::
      && AppliedRate(tiers, production, baseRate) == t.rate
      && forall u | u in tiers && u.threshold <= production :: u.threshold <= t.threshold
  {
    ScanFinds(tiers, production, None);
    var r := Scan(tiers, production, None);
    if r.Some? {
      assert IsReached(tiers, production, r.value);
    }
  }

  /** With distinct thresholds the rate earned is unique, and depends only on which tiers there are. */
  lemma {:induction false} EarnsIsUnique(tiers: seq<Tier>, tiers': seq<Tier>, production: real, baseRate: real,
      rate: real, rate': real)
    requires DistinctThresholds(tiers)
    requires forall t :: t in tiers <==> t in tiers'
    requires Earns(tiers, production, baseRate, rate) && Earns(tiers', production, baseRate, rate')
    ensures rate == rate'
  {
    if exists t | t in tiers :: t.threshold <= production {
      var t :| IsReached(tiers, production, t) && rate == t.rate;
      assert t in tiers' && t.threshold <= production;
      var u :| IsReached(tiers', production, u) && rate' == u.rate;
      assert t.threshold == u.threshold;
    } else {
      assert !exists t | t in tiers' :: t.threshold <= production;
    }
  }

  // ---------------------------------------------------------------- the sorted walk

  /** Stable insertion by threshold, as `Array.prototype.sort` places an element. */
  function Insert(t: Tier, sorted: seq<Tier>): seq<Tier> {
    if sorted == [] || t.threshold <= sorted[0].threshold then [t] + sorted
    else [sorted[0]] + Insert(t, sorted[1..])
  }

  function SortTiers(tiers: seq<Tier>): seq<Tier> {
    if tiers == [] then [] else Insert(tiers[0], SortTiers(tiers[1..]))
  }

  lemma {:induction false} InsertSorts(t: Tier, sorted: seq<Tier>)
    requires Sorted(sorted)
    ensures Sorted(Insert(t, sorted))
  {
    if sorted != [] && t.threshold > sorted[0].threshold {
      InsertSorts(t, sorted[1..]);
      InsertAdds(t, sorted[1..]);
      var rest := Insert(t, sorted[1..]);
      forall i | 0 <= i < |rest|
        ensures sorted[0].threshold <= rest[i].threshold
      {
        assert rest[i] in multiset(rest);
        assert rest[i] == t || rest[i] in sorted[1..];
      }
    }
  }

  lemma {:induction false} InsertAdds(t: Tier, sorted: seq<Tier>)
    ensures multiset(Insert(t, sorted)) == multiset{t} + multiset(sorted)
  {
    if sorted != [] && t.threshold > sorted[0].threshold {
      InsertAdds(t, sorted[1..]);
      assert sorted == [sorted[0]] + sorted[1..];
    }
  }

  lemma {:induction false} SortTiersSorts(tiers: seq<Tier>)
    ensures Sorted(SortTiers(tiers)) && multiset(SortTiers(tiers)) == multiset(tiers)
  {
    if tiers != [] {
      SortTiersSorts(tiers[1..]);
      InsertSorts(tiers[0], SortTiers(tiers[1..]));
      InsertAdds(tiers[0], SortTiers(tiers[1..]));
      assert tiers == [tiers[0]] + tiers[1..];
    }
  }

  lemma {:induction false} SameTiers(a: seq<Tier>, b: seq<Tier>)
    requires multiset(a) == multiset(b)
    ensures forall t :: t in a <==> t in b
  {
    forall t
      ensures t in a <==> t in b
    {
      assert t in a <==> t in multiset(a);
      assert t in b <==> t in multiset(b);
    }
  }

  datatype Progress = Progress(production: real, rate: real, next: Option<real>, remaining: Option<real>)

  /** `next` is the least threshold above `production`, if there is one above. */
  ghost predicate IsNextThreshold(tiers: seq<Tier>, production: real, next: Option<real>) {
    match next
    case None => forall t | t in tiers :: t.threshold <= production
    case Some(n) =>
      && n > production
      && (exists t | t in tiers :: t.threshold == n)
      && forall t | t in tiers && t.threshold > production :: n <= t.threshold
  }

  /** Where the walk over sorted tiers stops: `last` is the highest tier reached. */
  lemma {:induction false} WalkIsRight(sorted: seq<Tier>, tiers: seq<Tier>, production: real, baseRate: real, last: int)
    requires Sorted(sorted) && -1 <= last < |sorted|
    requires forall t :: t in sorted <==> t in tiers
    requires forall k | 0 <= k < |sorted| :: sorted[k].threshold <= production <==> k <= last
    ensures Earns(tiers, production, baseRate, if last < 0 then baseRate else sorted[last].rate)
    ensures IsNextThreshold(tiers, production, if last + 1 < |sorted| then Some(sorted[last + 1].threshold) else None)
  {
    forall t | t in tiers
      ensures exists k | 0 <= k < |sorted| :: sorted[k] == t
    {
      assert t in sorted;
    }
    if last >= 0 {
      assert sorted[last] in tiers;
      assert IsReached(tiers, production, sorted[last]);
    }
    if last + 1 < |sorted| {
      assert sorted[last + 1] in tiers;
    }
  }

  lemma {:induction false} SortedTiers(tiers: seq<Tier>)
    ensures Sorted(SortTiers(tiers))
  {
    SortTiersSorts(tiers);
  }

  lemma {:induction false} WalkOverSorted(tiers: seq<Tier>, production: real, baseRate: real, last: int)
    requires -1 <= last < |SortTiers(tiers)|
    requires forall k | 0 <= k < |SortTiers(tiers)| :: SortTiers(tiers)[k].threshold <= production <==> k <= last
    ensures var sorted := SortTiers(tiers);
      && Earns(tiers, production, baseRate, if last < 0 then baseRate else sorted[last].rate)
      && IsNextThreshold(tiers, production, if last + 1 < |sorted| then Some(sorted[last + 1].threshold) else None)
  {
    SortTiersSorts(tiers);
    SameTiers(SortTiers(tiers), tiers);
    WalkIsRight(SortTiers(tiers), tiers, production, baseRate, last);
  }

  /** The loop over the sorted tiers. */
  method Walk(sorted: seq<Tier>, production: real, baseRate: real) returns (matchedTierIdx: int, currentTierRate: real)
    requires Sorted(sorted)
    ensures -1 <= matchedTierIdx < |sorted|
    ensures forall k | 0 <= k < |sorted| :: sorted[k].threshold <= production <==> k <= matchedTierIdx
    ensures currentTierRate == if matchedTierIdx < 0 then baseRate else sorted[matchedTierIdx].rate
  {
    currentTierRate := baseRate;
    matchedTierIdx := -1;
    var i := 0;
    while i < |sorted|
      invariant 0 <= i <= |sorted|
      invariant -1 <= matchedTierIdx < i
      invariant forall k | 0 <= k < i :: sorted[k].threshold <= production <==> k <= matchedTierIdx
      invariant currentTierRate == if matchedTierIdx < 0 then baseRate else sorted[matchedTierIdx].rate
    {
      if production >= sorted[i].threshold {
        matchedTierIdx := i;
        currentTierRate := sorted[i].rate;
      }
      i := i + 1;
    }
  }

  /** For tiers in any order, equal thresholds included, the walk earns a right rate and sees the next step. */
  method ComputeTierProgress(production: real, tiers: seq<Tier>, baseRate: real) returns (p: Progress)
    ensures p.production == production
    ensures Earns(tiers, production, baseRate, p.rate)
    ensures (forall t | t in tiers :: production < t.threshold) ==> p.rate == baseRate
    ensures (forall t | t in tiers :: production < t.threshold) || exists t | t in tiers && t.threshold <= production ::
      p.rate == t.rate && forall u | u in tiers && u.threshold <= production :: u.threshold <= t.threshold
    ensures IsNextThreshold(tiers, production, p.next)
    ensures p.next.None? ==> forall t | t in tiers :: t.threshold <= production
    ensures p.next.Some? ==>
      && production < p.next.value && (exists t | t in tiers :: t.threshold == p.next.value)
      && forall t | t in tiers && production < t.threshold :: p.next.value <= t.threshold
    ensures p.remaining == if p.next.Some? then Some(p.next.value - production) else None
  {
    var sorted := SortTiers(tiers);
    SortedTiers(tiers);
    var matchedTierIdx, currentTierRate := Walk(sorted, production, baseRate);
    WalkOverSorted(tiers, production, baseRate, matchedTierIdx);
    var nextTierIdx := matchedTierIdx + 1;
    var next := if nextTierIdx < |sorted| then Some(sorted[nextTierIdx].threshold) else None;
    var remaining :=
      if next.Some? then Some(if next.value - production > 0.0 then next.value - production else 0.0) else None;
    p := Progress(production, currentTierRate, next, remaining);
  }

  // ---------------------------------------------------------------- main results

  /** A validated list earns the same rate from the scan and from the walk, in whatever order each is given it. */
  lemma {:induction false} ScanAgreesWithWalk(valid: seq<Tier>, scanned: seq<Tier>, walked: seq<Tier>,
      production: real, baseRate: real, rate: real)
    requires Ascending(valid) && multiset(scanned) == multiset(valid) == multiset(walked)
    requires Earns(walked, production, baseRate, rate)
    ensures rate == AppliedRate(scanned, production, baseRate)
  {
    AscendingIsDistinct(valid);
    SameTiers(scanned, valid);
    SameTiers(walked, valid);
    ScanEarns(scanned, production, baseRate);
    assert DistinctThresholds(walked);
    EarnsIsUnique(walked, scanned, production, baseRate, rate, AppliedRate(scanned, production, baseRate));
  }

  /** Producing what remains to the next threshold earns exactly the rate of the tier at that threshold. */
  lemma {:induction false} RemainingReachesNext(valid: seq<Tier>, tiers: seq<Tier>, production: real, baseRate: real,
      next: real, t: Tier)
    requires Ascending(valid) && multiset(tiers) == multiset(valid)
    requires IsNextThreshold(tiers, production, Some(next))
    requires t in tiers && t.threshold == next
    ensures AppliedRate(tiers, production + (next - production), baseRate) == t.rate
  {
    AscendingIsDistinct(valid);
    SameTiers(tiers, valid);
    ScanEarns(tiers, next, baseRate);
    assert IsReached(tiers, next, t);
    assert Earns(tiers, next, baseRate, t.rate);
    EarnsIsUnique(tiers, tiers, next, baseRate, t.rate, AppliedRate(tiers, next, baseRate));
  }
}
