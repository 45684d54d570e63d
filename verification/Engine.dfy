/**
 The five-stage calculation pipeline (packages/core/calculation-engine.ts) and the loop that runs
 it for the contributors of a placement (apps/server/src/api/calculate.ts).  Money is exact.
 */
module Engine {
  import opened Prelude
  import opened Records
  import opened Tiers

  /** Absent optional fields have the values that the engine puts for them. */
  datatype Rules = Rules(netFeeIncome: bool, baseRate: real, tiers: seq<Tier>, deskCost: real)

  datatype Input = Input(
    commissionableBase: real, splitPct: real, rules: Option<Rules>, ytdGross: real,
    invoiceCollected: bool, insideWindow: bool, drawBalance: real)

  datatype Outcome = Outcome(
    gross: real, net: real, drawDeducted: real, rate: real, held: bool,
    heldForCollection: bool, heldForGuarantee: bool)

  datatype Failure = BadSplit | NoActivePlan

  function Max(x: real, y: real): real {
    if x >= y then x else y
  }

  function Min(x: real, y: real): real {
    if x <= y then x else y
  }

  // ---------------------------------------------------------------- stages

  /** The part of a base that a split credits. */
  function Credit(base: real, splitPct: real): real {
    base * splitPct
  }

  function CalculateBase(input: Input): Result<real, Failure> {
    if input.splitPct <= 0.0 || input.splitPct > 1.0 then Err(BadSplit)
    else Ok(Credit(input.commissionableBase, input.splitPct))
  }

  function RateOf(rules: Option<Rules>, production: real): real {
    match rules
    case None => 0.0
    case Some(r) => AppliedRate(r.tiers, production, r.baseRate)
  }

  function DeskCostOf(rules: Option<Rules>): real {
    match rules case None => 0.0 case Some(r) => r.deskCost
  }

  function TieredGross(creditedBase: real, rules: Option<Rules>, ytdGross: real): real {
    Max(0.0, creditedBase - DeskCostOf(rules)) * RateOf(rules, ytdGross + creditedBase)
  }

  /** The stage as the engine computes it, with its loop over the tiers. */
  method ApplyTiers(creditedBase: real, input: Input) returns (tieredGross: real, appliedRate: real)
    ensures appliedRate == RateOf(input.rules, input.ytdGross + creditedBase)
    ensures match input.rules
      case None => appliedRate == 0.0
      case Some(r) => Earns(r.tiers, input.ytdGross + creditedBase, r.baseRate, appliedRate)
    ensures tieredGross == TieredGross(creditedBase, input.rules, input.ytdGross)
    ensures appliedRate >= 0.0 ==> tieredGross >= 0.0
    ensures 0.0 <= appliedRate <= 1.0 && creditedBase >= 0.0 && DeskCostOf(input.rules) >= 0.0 ==>
      tieredGross <= creditedBase
  {
    appliedRate := match input.rules case None => 0.0 case Some(r) => r.baseRate;
    if input.rules.Some? && |input.rules.value.tiers| > 0 {
      var selected := SelectTier(input.rules.value.tiers, input.ytdGross + creditedBase);
      if selected.Some? {
        appliedRate := selected.value.rate;
      }
    }
    var baseAfterDesk := Max(0.0, creditedBase - DeskCostOf(input.rules));
    tieredGross := baseAfterDesk * appliedRate;
    if input.rules.Some? {
      ScanEarns(input.rules.value.tiers, input.ytdGross + creditedBase, input.rules.value.baseRate);
    }
    ShareBounds(baseAfterDesk, appliedRate, creditedBase);
  }

  lemma {:induction false} ShareBounds(base: real, rate: real, limit: real)
    requires base >= 0.0
    ensures rate >= 0.0 ==> base * rate >= 0.0
    ensures 0.0 <= rate <= 1.0 && base <= limit ==> base * rate <= limit
  {
    if rate >= 0.0 {
      ProductRises(0.0, base, 0.0, rate);
    }
    if 0.0 <= rate <= 1.0 && base <= limit {
      ProductRises(base, limit, rate, 1.0);
    }
  }

  function DrawDeducted(tieredGross: real, drawBalance: real): real {
    Min(tieredGross, Max(0.0, drawBalance))
  }

  function Pipeline(input: Input): Result<Outcome, Failure> {
    match CalculateBase(input)
    case Err(f) => Err(f)
    case Ok(creditedBase) =>
      var gross := TieredGross(creditedBase, input.rules, input.ytdGross);
      var draw := DrawDeducted(gross, input.drawBalance);
      var netAfterDraw := gross - draw;
      var gated := if !input.invoiceCollected then 0.0 else netAfterDraw;
      var net := if input.insideWindow then 0.0 else gated;
      Ok(Outcome(gross, net, draw, RateOf(input.rules, input.ytdGross + creditedBase),
                 !input.invoiceCollected || input.insideWindow, !input.invoiceCollected, input.insideWindow))
  }

  // ---------------------------------------------------------------- what the pipeline keeps

  /** Nothing is lost to the draw, and it never takes more than the balance or the commission. */
  lemma {:induction false} DrawConserves(input: Input)
    requires Pipeline(input).Ok?
    ensures var o := Pipeline(input).value;
      && (!o.held ==> o.net + o.drawDeducted == o.gross)
      && (o.held ==> o.net == 0.0)
      && (o.held <==> o.heldForCollection || o.heldForGuarantee)
      && (o.gross >= 0.0 ==> 0.0 <= o.drawDeducted <= o.gross && 0.0 <= o.net <= o.gross)
      && var balance := if input.drawBalance > 0.0 then input.drawBalance else 0.0;
         o.drawDeducted == if o.gross <= balance then o.gross else balance
  {
  }

  /** Rates start at or above the base rate and do not fall as thresholds rise. */
  ghost predicate Progressive(rules: Rules) {
    && rules.baseRate >= 0.0
    && (forall t | t in rules.tiers :: t.rate >= rules.baseRate)
    && (forall t, u | t in rules.tiers && u in rules.tiers && t.threshold <= u.threshold :: t.rate <= u.rate)
  }

  lemma {:induction false} RateRises(rules: Rules, p: real, q: real)
    requires Progressive(rules) && p <= q
    ensures 0.0 <= AppliedRate(rules.tiers, p, rules.baseRate) <= AppliedRate(rules.tiers, q, rules.baseRate)
  {
    ScanFinds(rules.tiers, p, None);
    ScanFinds(rules.tiers, q, None);
    var low, high := Scan(rules.tiers, p, None), Scan(rules.tiers, q, None);
    if low.Some? {
      assert low.value in rules.tiers && low.value.threshold <= q;
      assert high.Some? && low.value.threshold <= high.value.threshold;
    }
  }

  lemma {:induction false} ProductRises(x: real, y: real, r: real, s: real)
    requires 0.0 <= x <= y && 0.0 <= r <= s
    ensures 0.0 <= x * r <= y * s
  {
    assert x * r <= y * r;
    assert y * r <= y * s;
  }

  lemma {:induction false} ScaledRises(x: real, y: real, k: real)
    requires x <= y && k > 0.0
    ensures Credit(x, k) <= Credit(y, k)
  {
  }

  lemma {:induction false} TieredGrossRises(x: real, y: real, rules: Rules, ytdGross: real)
    requires Progressive(rules) && x <= y
    ensures 0.0 <= TieredGross(x, Some(rules), ytdGross) <= TieredGross(y, Some(rules), ytdGross)
  {
    RateRises(rules, ytdGross + x, ytdGross + y);
    ProductRises(Max(0.0, x - rules.deskCost), Max(0.0, y - rules.deskCost),
                 RateOf(Some(rules), ytdGross + x), RateOf(Some(rules), ytdGross + y));
  }

  /** On a progressive plan a larger base never earns less, whatever tiers it crosses and whatever the desk costs. */
  lemma {:induction false} GrossRisesWithBase(input: Input, larger: real)
    requires input.rules.Some? && Progressive(input.rules.value)
    requires input.commissionableBase <= larger && Pipeline(input).Ok?
    ensures Pipeline(input.(commissionableBase := larger)).Ok?
    ensures 0.0 <= Pipeline(input).value.gross <= Pipeline(input.(commissionableBase := larger)).value.gross
  {
    ScaledRises(input.commissionableBase, larger, input.splitPct);
    var credited, more := Credit(input.commissionableBase, input.splitPct), Credit(larger, input.splitPct);
    TieredGrossRises(credited, more, input.rules.value, input.ytdGross);
  }

  /**
   On every base and with every amount already produced, a larger base earns no less, and no base less than
   nothing.
   */
  ghost predicate GrossRises(rules: Rules) {
    forall x, y, ytdGross | x <= y ::
      0.0 <= TieredGross(x, Some(rules), ytdGross) <= TieredGross(y, Some(rules), ytdGross)
  }

  /** The gross that `m` above the desk cost earns when it brings production to `p`. */
  lemma {:induction false} GrossAt(rules: Rules, m: real, p: real)
    requires m >= 0.0
    ensures TieredGross(rules.deskCost + m, Some(rules), p - rules.deskCost - m) == m * RateOf(Some(rules), p)
  {
    assert p - rules.deskCost - m + (rules.deskCost + m) == p;
  }

  lemma {:induction false} RisingGrossRisingRate(rules: Rules, p: real, q: real)
    requires GrossRises(rules) && p <= q
    ensures 0.0 <= RateOf(Some(rules), p) <= RateOf(Some(rules), q)
  {
    var low, high := RateOf(Some(rules), p), RateOf(Some(rules), q);
    GrossAt(rules, 1.0, p);
    GrossAt(rules, 1.0, q);
    assert 0.0 <= TieredGross(rules.deskCost + 1.0, Some(rules), p - rules.deskCost - 1.0);
    assert 0.0 <= TieredGross(rules.deskCost + 1.0, Some(rules), q - rules.deskCost - 1.0);
    if low > high {
      var d, fall := q - p, low - high;
      var m := d * high / fall + 1.0;
      Quotient(d, high, fall);
      GrossAt(rules, m, p);
      GrossAt(rules, m + d, q);
      var ytdGross := p - rules.deskCost - m;
      assert ytdGross == q - rules.deskCost - (m + d);
      assert m * low <= (m + d) * high;
      TooSteep(m, d, low, high);
    }
  }

  lemma {:induction false} Quotient(d: real, high: real, fall: real)
    requires d >= 0.0 && high >= 0.0 && fall > 0.0
    ensures d * high / fall >= 0.0
  {
    assert d * high >= 0.0;
  }

  lemma {:induction false} TooSteep(m: real, d: real, low: real, high: real)
    requires low > high && m == d * high / (low - high) + 1.0
    ensures m * low > (m + d) * high
  {
    var fall := low - high;
    assert m * fall == d * high + fall;
    assert m * low == m * high + m * fall;
    assert (m + d) * high == m * high + d * high;
  }

  lemma {:induction false} BelowAll(tiers: seq<Tier>) returns (p: real)
    ensures forall t | t in tiers :: p < t.threshold
  {
    p := 0.0;
    if tiers != [] {
      p := BelowAll(tiers[1..]);
      p := if p < tiers[0].threshold then p else tiers[0].threshold - 1.0;
    }
  }

  lemma {:induction false} RateAtThreshold(rules: Rules, t: Tier)
    requires DistinctThresholds(rules.tiers) && t in rules.tiers
    ensures RateOf(Some(rules), t.threshold) == t.rate
  {
    ScanFinds(rules.tiers, t.threshold, None);
  }

  /** With distinct thresholds, gross rises with the base on every input if and only if the plan is progressive. */
  lemma {:induction false} GrossRisesIff(rules: Rules)
    requires DistinctThresholds(rules.tiers)
    ensures GrossRises(rules) <==> Progressive(rules)
  {
    if Progressive(rules) {
      forall x, y, ytdGross | x <= y
        ensures 0.0 <= TieredGross(x, Some(rules), ytdGross) <= TieredGross(y, Some(rules), ytdGross)
      {
        TieredGrossRises(x, y, rules, ytdGross);
      }
    }
    if GrossRises(rules) {
      var p := BelowAll(rules.tiers);
      ScanFinds(rules.tiers, p, None);
      assert RateOf(Some(rules), p) == rules.baseRate;
      RisingGrossRisingRate(rules, p, p);
      forall t | t in rules.tiers
        ensures t.rate >= rules.baseRate
      {
        RateAtThreshold(rules, t);
        RisingGrossRisingRate(rules, p, t.threshold);
      }
      forall t, u | t in rules.tiers && u in rules.tiers && t.threshold <= u.threshold
        ensures t.rate <= u.rate
      {
        RateAtThreshold(rules, t);
        RateAtThreshold(rules, u);
        RisingGrossRisingRate(rules, t.threshold, u.threshold);
      }
    }
  }

  /** A rate that falls at a threshold makes a larger base earn less. */
  lemma {:induction false} FallingRateEarnsLess()
    ensures var rules := Some(Rules(false, 0.5, [Tier(100.0, 0.1)], 0.0));
      var input := Input(90.0, 1.0, rules, 0.0, true, false, 0.0);
      && Pipeline(input).Ok? && Pipeline(input.(commissionableBase := 100.0)).Ok?
      && Pipeline(input).value.gross > Pipeline(input.(commissionableBase := 100.0)).value.gross
  {
    var tiers := [Tier(100.0, 0.1)];
    assert tiers[1..] == [];
    assert AppliedRate(tiers, 90.0, 0.5) == 0.5;
    assert AppliedRate(tiers, 100.0, 0.5) == 0.1;
  }

  // ---------------------------------------------------------------- the contributors of a placement

  datatype Contributor = Contributor(id: nat, splitPct: real, plan: Option<Rules>, ytdGross: real, drawBalance: real)

  datatype Placement = Placement(feeAmount: real, compensationBase: real)

  /** What is stored for one contributor. */
  datatype Row = Row(contributor: nat, gross: real, netPayable: real, tierRate: real,
    status: Status, holdReason: Option<HoldReason>)

  function InputFor(p: Placement, c: Contributor, rules: Rules, invoiceCollected: bool, insideWindow: bool): Input {
    Input(if rules.netFeeIncome then p.compensationBase else p.feeAmount,
          c.splitPct, Some(rules), c.ytdGross, invoiceCollected, insideWindow, c.drawBalance)
  }

  /** A record held for both reasons is stored under the collection gate. */
  function ReasonFor(o: Outcome): Option<HoldReason> {
    if !o.held then None
    else if o.heldForCollection then Some(CollectionGate)
    else if o.heldForGuarantee then Some(GuaranteeHold)
    else None
  }

  function RowFor(p: Placement, c: Contributor, invoiceCollected: bool, insideWindow: bool): Result<Row, Failure> {
    if c.plan.None? then Err(NoActivePlan)
    else match Pipeline(InputFor(p, c, c.plan.value, invoiceCollected, insideWindow))
      case Err(f) => Err(f)
      case Ok(o) => Ok(Row(c.id, o.gross, o.net, o.rate, if o.held then Held else Accrued, ReasonFor(o)))
  }

  /** A plan that pays on the gross fee, at rates from 0 to 1, with a desk cost that is a cost. */
  ghost predicate PaysShareOfFee(rules: Rules) {
    && !rules.netFeeIncome && rules.deskCost >= 0.0
    && 0.0 <= rules.baseRate <= 1.0
    && forall t | t in rules.tiers :: 0.0 <= t.rate <= 1.0
  }

  function SplitSum(cs: seq<Contributor>): real {
    if cs == [] then 0.0 else SplitSum(cs[..|cs| - 1]) + cs[|cs| - 1].splitPct
  }

  function GrossSum(rows: seq<Row>): real {
    if rows == [] then 0.0 else GrossSum(rows[..|rows| - 1]) + rows[|rows| - 1].gross
  }

  /** One more row adds its gross to the sum of the rows, one more contributor its split to that of the splits. */
  lemma {:induction false} SumsAdd(rows: seq<Row>, row: Row, cs: seq<Contributor>, c: Contributor)
    ensures GrossSum([]) == 0.0 && GrossSum(rows + [row]) == GrossSum(rows) + row.gross
    ensures SplitSum([]) == 0.0 && SplitSum(cs + [c]) == SplitSum(cs) + c.splitPct
  {
    assert (rows + [row])[..|rows|] == rows && (cs + [c])[..|cs|] == cs;
  }

  lemma {:induction false} RateWithinOne(rules: Rules, production: real)
    requires PaysShareOfFee(rules)
    ensures 0.0 <= AppliedRate(rules.tiers, production, rules.baseRate) <= 1.0
  {
    ScanFinds(rules.tiers, production, None);
  }

  lemma {:induction false} TieredGrossWithin(credited: real, rules: Rules, ytdGross: real)
    requires credited >= 0.0 && PaysShareOfFee(rules)
    ensures 0.0 <= TieredGross(credited, Some(rules), ytdGross) <= credited
  {
    RateWithinOne(rules, ytdGross + credited);
    ProductRises(Max(0.0, credited - rules.deskCost), credited, RateOf(Some(rules), ytdGross + credited), 1.0);
  }

  lemma {:induction false} ShareOfFee(p: Placement, c: Contributor, collected: bool, inside: bool)
    requires p.feeAmount >= 0.0 && c.plan.Some? && PaysShareOfFee(c.plan.value)
    requires RowFor(p, c, collected, inside).Ok?
    ensures 0.0 <= RowFor(p, c, collected, inside).value.gross <= Credit(p.feeAmount, c.splitPct)
  {
    ProductRises(0.0, p.feeAmount, 0.0, c.splitPct);
    TieredGrossWithin(Credit(p.feeAmount, c.splitPct), c.plan.value, c.ytdGross);
  }

  lemma {:induction false} Distributes(fee: real, share: real, split: real)
    ensures Credit(fee, share + split) == Credit(fee, share) + Credit(fee, split)
  {
  }

  lemma {:induction false} GrossWithinShares(
    p: Placement, cs: seq<Contributor>, rows: seq<Row>, collected: bool, inside: bool)
    requires p.feeAmount >= 0.0 && |cs| == |rows|
    requires forall k | 0 <= k < |cs| ::
      cs[k].plan.Some? && PaysShareOfFee(cs[k].plan.value) && RowFor(p, cs[k], collected, inside) == Ok(rows[k])
    ensures 0.0 <= GrossSum(rows) <= Credit(p.feeAmount, SplitSum(cs))
  {
    if cs == [] {
      Distributes(p.feeAmount, 0.0, 0.0);
    } else {
      var n := |cs| - 1;
      GrossWithinShares(p, cs[..n], rows[..n], collected, inside);
      ShareOfFee(p, cs[n], collected, inside);
      Distributes(p.feeAmount, SplitSum(cs[..n]), cs[n].splitPct);
    }
  }

  /**
   The gross amounts stored for a placement, also by a loop that stopped, total at most its fee times the
   splits they are for: at most the fee for splits up to one.
   */
  lemma {:induction false} GrossWithinFee(
    p: Placement, cs: seq<Contributor>, rows: seq<Row>, collected: bool, inside: bool)
    requires p.feeAmount >= 0.0 && |rows| <= |cs|
    requires forall k | 0 <= k < |rows| ::
      cs[k].plan.Some? && PaysShareOfFee(cs[k].plan.value) && RowFor(p, cs[k], collected, inside) == Ok(rows[k])
    ensures 0.0 <= GrossSum(rows) <= Credit(p.feeAmount, SplitSum(cs[..|rows|]))
    ensures SplitSum(cs[..|rows|]) <= 1.0 ==> GrossSum(rows) <= p.feeAmount
  {
    GrossWithinShares(p, cs[..|rows|], rows, collected, inside);
    if SplitSum(cs[..|rows|]) <= 1.0 {
      FeeBound(p.feeAmount, SplitSum(cs[..|rows|]));
    }
  }

  lemma {:induction false} FeeBound(fee: real, share: real)
    requires fee >= 0.0 && share <= 1.0
    ensures Credit(fee, share) <= fee
  {
  }

  ghost predicate AllPayShares(cs: seq<Contributor>) {
    forall k | 0 <= k < |cs| :: cs[k].plan.Some? ==> PaysShareOfFee(cs[k].plan.value)
  }

  /**
   Rows are stored one by one.  The first contributor without a plan or with a bad split stops the
   loop; what was stored before it stays.
   */
  method CalculateCommission(p: Placement, contributors: seq<Contributor>, invoiceCollected: bool, insideWindow: bool)
    returns (stored: seq<Row>, failure: Option<Failure>)
    ensures |stored| <= |contributors|
    ensures forall k | 0 <= k < |stored| :: RowFor(p, contributors[k], invoiceCollected, insideWindow) == Ok(stored[k])
    ensures failure.None? ==> |stored| == |contributors|
    ensures failure.Some? ==>
      && |stored| < |contributors|
      && RowFor(p, contributors[|stored|], invoiceCollected, insideWindow) == Err(failure.value)
    ensures p.feeAmount >= 0.0 && AllPayShares(contributors[..|stored|]) ==>
      && 0.0 <= GrossSum(stored) <= Credit(p.feeAmount, SplitSum(contributors[..|stored|]))
      && (SplitSum(contributors[..|stored|]) <= 1.0 ==> GrossSum(stored) <= p.feeAmount)
  {
    stored, failure := [], None;
    var i := 0;
    while i < |contributors|
      invariant 0 <= i <= |contributors| && |stored| == i && failure.None?
      invariant forall k | 0 <= k < i :: RowFor(p, contributors[k], invoiceCollected, insideWindow) == Ok(stored[k])
    {
      var contributor := contributors[i];
      if contributor.plan.None? {
        failure := Some(NoActivePlan);
        break;
      }
      var record := Pipeline(InputFor(p, contributor, contributor.plan.value, invoiceCollected, insideWindow));
      if record.Err? {
        failure := Some(record.error);
        break;
      }
      var o := record.value;
      var holdReason: Option<HoldReason> := None;
      if o.held {
        if o.heldForCollection {
          holdReason := Some(CollectionGate);
        } else if o.heldForGuarantee {
          holdReason := Some(GuaranteeHold);
        }
      }
      stored := stored + [Row(contributor.id, o.gross, o.net, o.rate, if o.held then Held else Accrued, holdReason)];
      i := i + 1;
    }
    if p.feeAmount >= 0.0 && AllPayShares(contributors[..i]) {
      assert forall k | 0 <= k < i :: contributors[..i][k] == contributors[k];
      GrossWithinFee(p, contributors, stored, invoiceCollected, insideWindow);
    }
  }

  /**
   What is stored of one contributor: gross is the applied rate on the credited base above the desk cost,
   net is gross without the draw, and a record is held exactly when the invoice is unpaid or the window is
   open, then with nothing payable.  Only a missing plan or a bad split stores nothing.
   */
  lemma {:induction false} RowOnFields(p: Placement, c: Contributor, collected: bool, inside: bool)
    ensures c.plan.None? ==> RowFor(p, c, collected, inside) == Err(NoActivePlan)
    ensures c.plan.Some? && !(0.0 < c.splitPct <= 1.0) ==> RowFor(p, c, collected, inside) == Err(BadSplit)
    ensures c.plan.Some? && 0.0 < c.splitPct <= 1.0 ==>
      && RowFor(p, c, collected, inside).Ok?
      && var row, rules := RowFor(p, c, collected, inside).value, c.plan.value;
      var credited := (if rules.netFeeIncome then p.compensationBase else p.feeAmount) * c.splitPct;
      var balance := if c.drawBalance > 0.0 then c.drawBalance else 0.0;
      && row.contributor == c.id
      && row.tierRate == AppliedRate(rules.tiers, c.ytdGross + credited, rules.baseRate)
      && row.gross == (if credited > rules.deskCost then credited - rules.deskCost else 0.0) * row.tierRate
      && (row.status == Accrued ==> row.netPayable == row.gross - if row.gross <= balance then row.gross else balance)
      && (row.status == Held <==> !collected || inside)
      && (row.status == Accrued <==> collected && !inside)
      && (row.holdReason == Some(CollectionGate) <==> !collected)
      && (row.holdReason == Some(GuaranteeHold) <==> collected && inside)
      && (row.status == Held ==> row.netPayable == 0.0)
  {
  }
}
