/**
 The reconciliation of issued invoices with ingested receivables (packages/db/src/reconciliation.ts):
 an outer join of two lists by invoice number whose findings replace the unacknowledged rows of the
 period and leave the acknowledged ones.

 Amounts are reals, an instant is a number of milliseconds, and a date is a number of days, since the epoch.
 */
module Reconciliation {
  import opened Prelude

  const DAY := 86_400_000

  datatype Kind = LedgerOnly | SystemOnly | AmountMismatch | DateGap

  datatype Period = Period(start: int, end: int)

  datatype Finding = Finding(
    kind: Kind, invoice: Option<nat>, number: string, ledgerAmount: Option<real>, arAmount: Option<real>,
    issuedOn: Option<int>, billedOn: Option<int>, gapDays: Option<nat>)

  datatype LedgerEntry = LedgerEntry(number: string, id: nat, amount: real, issuedAt: int)

  datatype ArRecord = ArRecord(number: string, amount: real, billedOn: int)

  datatype Options = Options(gapThreshold: int, toleranceCents: real)

  datatype Row = Row(id: nat, org: nat, period: Period, finding: Finding, acknowledgedBy: Option<nat>)

  // ---------------------------------------------------------------- the report

  function Distance(x: real, y: real): real {
    if x < y then y - x else x - y
  }

  /** Milliseconds to the nearest number of days, halves upward: Math.round, section 21.3.2.28 of ECMA-262. */
  function RoundedDays(ms: int): int {
    (ms + 43_200_000) / 86_400_000
  }

  function GapDays(e: LedgerEntry, ar: ArRecord): nat {
    var days := RoundedDays(e.issuedAt - ar.billedOn * DAY);
    if days < 0 then -days else days
  }

  predicate AmountsDiffer(e: LedgerEntry, ar: ArRecord, o: Options) {
    Distance(e.amount, ar.amount) > o.toleranceCents / 100.0
  }

  predicate DatesDiffer(e: LedgerEntry, ar: ArRecord, o: Options) {
    GapDays(e, ar) > o.gapThreshold
  }

  function OnlyInLedger(e: LedgerEntry): Finding {
    Finding(LedgerOnly, Some(e.id), e.number, Some(e.amount), None, Some(e.issuedAt / DAY), None, None)
  }

  function OnlyInAr(ar: ArRecord): Finding {
    Finding(SystemOnly, None, ar.number, None, Some(ar.amount), None, Some(ar.billedOn), None)
  }

  function Mismatch(e: LedgerEntry, ar: ArRecord): Finding {
    Finding(AmountMismatch, Some(e.id), e.number, Some(e.amount), Some(ar.amount), Some(e.issuedAt / DAY),
      Some(ar.billedOn), None)
  }

  function Gap(e: LedgerEntry, ar: ArRecord): Finding {
    Finding(DateGap, Some(e.id), e.number, Some(e.amount), Some(ar.amount), Some(e.issuedAt / DAY), Some(ar.billedOn),
            Some(GapDays(e, ar)))
  }

  /** The receivable that stands for a number: the last one listed with it. */
  function Lookup(ars: seq<ArRecord>, number: string): Option<ArRecord> {
    if ars == [] then None
    else if ars[|ars| - 1].number == number then Some(ars[|ars| - 1])
    else Lookup(ars[..|ars| - 1], number)
  }

  function When(c: bool, f: Finding): seq<Finding> {
    if c then [f] else []
  }

  function FindingsFor(e: LedgerEntry, found: Option<ArRecord>, o: Options): seq<Finding> {
    match found
    case None => [OnlyInLedger(e)]
    case Some(ar) =>
      When(AmountsDiffer(e, ar, o), Mismatch(e, ar)) + When(DatesDiffer(e, ar, o), Gap(e, ar))
  }

  function LedgerPart(ledger: seq<LedgerEntry>, ars: seq<ArRecord>, o: Options): seq<Finding> {
    if ledger == [] then []
    else
      var n := |ledger| - 1;
      LedgerPart(ledger[..n], ars, o) + FindingsFor(ledger[n], Lookup(ars, ledger[n].number), o)
  }

  predicate InLedger(ledger: seq<LedgerEntry>, number: string) {
    exists k | 0 <= k < |ledger| :: ledger[k].number == number
  }

  predicate InAr(ars: seq<ArRecord>, number: string) {
    exists k | 0 <= k < |ars| :: ars[k].number == number
  }

  function SystemPart(ars: seq<ArRecord>, ledger: seq<LedgerEntry>): seq<Finding> {
    if ars == [] then []
    else
      var n := |ars| - 1;
      SystemPart(ars[..n], ledger) + When(!InLedger(ledger, ars[n].number), OnlyInAr(ars[n]))
  }

  function Report(ledger: seq<LedgerEntry>, ars: seq<ArRecord>, o: Options): seq<Finding> {
    LedgerPart(ledger, ars, o) + SystemPart(ars, ledger)
  }

  // ---------------------------------------------------------------- main results: the report is the outer join

  /** The ledger comes as a map keyed by invoice number. */
  ghost predicate DistinctLedger(ledger: seq<LedgerEntry>) {
    forall i, j | 0 <= i < j < |ledger| :: ledger[i].number != ledger[j].number
  }

  ghost predicate DistinctAr(ars: seq<ArRecord>) {
    forall i, j | 0 <= i < j < |ars| :: ars[i].number != ars[j].number
  }

  function CountOf(fs: seq<Finding>, kind: Kind, number: string): nat {
    if fs == [] then 0
    else
      var f := fs[|fs| - 1];
      CountOf(fs[..|fs| - 1], kind, number) + if f.kind == kind && f.number == number then 1 else 0
  }

  lemma {:induction false} CountOfAppend(a: seq<Finding>, b: seq<Finding>, kind: Kind, number: string)
    ensures CountOf(a + b, kind, number) == CountOf(a, kind, number) + CountOf(b, kind, number)
  {
    if b == [] {
      assert a + b == a;
    } else {
      assert (a + b)[..|a + b| - 1] == a + b[..|b| - 1];
      CountOfAppend(a, b[..|b| - 1], kind, number);
    }
  }

  lemma {:induction false} LookupFinds(ars: seq<ArRecord>, number: string)
    ensures Lookup(ars, number).Some? <==> InAr(ars, number)
    ensures Lookup(ars, number).Some? ==> exists k | 0 <= k < |ars| ::
      && Lookup(ars, number) == Some(ars[k]) && ars[k].number == number
      && forall j | k < j < |ars| :: ars[j].number != number
  {
    if ars != [] {
      var n := |ars| - 1;
      LookupFinds(ars[..n], number);
      if ars[n].number != number {
        assert InAr(ars, number) ==> InAr(ars[..n], number);
      }
    }
  }

  lemma {:induction false} LookupUnique(ars: seq<ArRecord>, k: nat)
    requires DistinctAr(ars) && k < |ars|
    ensures Lookup(ars, ars[k].number) == Some(ars[k])
  {
    LookupFinds(ars, ars[k].number);
    assert InAr(ars, ars[k].number);
  }

  /** What the report has to say of a number that the ledger holds as `e`. */
  ghost predicate Says(kind: Kind, e: LedgerEntry, found: Option<ArRecord>, o: Options) {
    match kind
    case LedgerOnly => found.None?
    case SystemOnly => false
    case AmountMismatch => found.Some? && AmountsDiffer(e, found.value, o)
    case DateGap => found.Some? && DatesDiffer(e, found.value, o)
  }

  lemma {:induction false} CountOfWhen(c: bool, f: Finding, kind: Kind, number: string)
    ensures CountOf(When(c, f), kind, number) == if c && f.kind == kind && f.number == number then 1 else 0
  {
    assert [f][..0] == [];
  }

  lemma {:induction false} CountOfOne(e: LedgerEntry, found: Option<ArRecord>, o: Options, kind: Kind, number: string)
    ensures CountOf(FindingsFor(e, found, o), kind, number) ==
      if e.number == number && Says(kind, e, found, o) then 1 else 0
  {
    if found.None? {
      assert FindingsFor(e, found, o) == When(true, OnlyInLedger(e));
      CountOfWhen(true, OnlyInLedger(e), kind, number);
    } else {
      CountOfBoth(e, found.value, o, kind, number);
    }
  }

  lemma {:induction false} CountOfBoth(e: LedgerEntry, ar: ArRecord, o: Options, kind: Kind, number: string)
    ensures CountOf(FindingsFor(e, Some(ar), o), kind, number) ==
      if e.number == number && Says(kind, e, Some(ar), o) then 1 else 0
  {
    var amounts, dates := AmountsDiffer(e, ar, o), DatesDiffer(e, ar, o);
    CountOfAppend(When(amounts, Mismatch(e, ar)), When(dates, Gap(e, ar)), kind, number);
    CountOfWhen(amounts, Mismatch(e, ar), kind, number);
    CountOfWhen(dates, Gap(e, ar), kind, number);
    assert CountOf(When(amounts, Mismatch(e, ar)), kind, number) ==
      if amounts && kind == AmountMismatch && e.number == number then 1 else 0;
    assert CountOf(When(dates, Gap(e, ar)), kind, number) ==
      if dates && kind == DateGap && e.number == number then 1 else 0;
    match kind {
      case LedgerOnly =>
      case SystemOnly =>
      case AmountMismatch =>
      case DateGap =>
    }
  }

  /** What one entry adds to the report under a kind and a number. */
  function Share(e: LedgerEntry, ars: seq<ArRecord>, o: Options, kind: Kind, number: string): nat {
    CountOf(FindingsFor(e, Lookup(ars, e.number), o), kind, number)
  }

  lemma {:induction false} LedgerPartSplits(ledger: seq<LedgerEntry>, ars: seq<ArRecord>, o: Options, kind: Kind,
      number: string)
    requires ledger != []
    ensures var n := |ledger| - 1;
      CountOf(LedgerPart(ledger, ars, o), kind, number) ==
        CountOf(LedgerPart(ledger[..n], ars, o), kind, number) + Share(ledger[n], ars, o, kind, number)
  {
    var n := |ledger| - 1;
    CountOfAppend(LedgerPart(ledger[..n], ars, o), FindingsFor(ledger[n], Lookup(ars, ledger[n].number), o), kind,
      number);
  }

  lemma {:induction false} LedgerPartSkips(ledger: seq<LedgerEntry>, ars: seq<ArRecord>, o: Options, kind: Kind,
      number: string)
    requires !InLedger(ledger, number)
    ensures CountOf(LedgerPart(ledger, ars, o), kind, number) == 0
  {
    if ledger != [] {
      var n := |ledger| - 1;
      LedgerPartSplits(ledger, ars, o, kind, number);
      CountOfOne(ledger[n], Lookup(ars, ledger[n].number), o, kind, number);
      LedgerPartSkips(ledger[..n], ars, o, kind, number);
    }
  }

  lemma {:induction false} LedgerPartAppend(a: seq<LedgerEntry>, b: seq<LedgerEntry>, ars: seq<ArRecord>, o: Options)
    ensures LedgerPart(a + b, ars, o) == LedgerPart(a, ars, o) + LedgerPart(b, ars, o)
  {
    if b == [] {
      assert a + b == a;
    } else {
      assert (a + b)[..|a + b| - 1] == a + b[..|b| - 1];
      LedgerPartAppend(a, b[..|b| - 1], ars, o);
    }
  }

  lemma {:induction false} LedgerPartCounts(ledger: seq<LedgerEntry>, ars: seq<ArRecord>, o: Options, kind: Kind,
      k: nat)
    requires DistinctLedger(ledger) && k < |ledger|
    ensures CountOf(LedgerPart(ledger, ars, o), kind, ledger[k].number) ==
      Share(ledger[k], ars, o, kind, ledger[k].number)
  {
    var upTo, after, number := ledger[..k + 1], ledger[k + 1..], ledger[k].number;
    assert ledger == upTo + after && upTo[..k] == ledger[..k];
    LedgerPartAppend(upTo, after, ars, o);
    CountOfAppend(LedgerPart(upTo, ars, o), LedgerPart(after, ars, o), kind, number);
    LedgerPartSplits(upTo, ars, o, kind, number);
    NumberOnlyAt(ledger, k);
    LedgerPartSkips(ledger[..k], ars, o, kind, number);
    LedgerPartSkips(after, ars, o, kind, number);
  }

  lemma {:induction false} NumberOnlyAt(ledger: seq<LedgerEntry>, k: nat)
    requires DistinctLedger(ledger) && k < |ledger|
    ensures !InLedger(ledger[..k], ledger[k].number) && !InLedger(ledger[k + 1..], ledger[k].number)
  {
  }

  function ArCount(ars: seq<ArRecord>, number: string): nat {
    if ars == [] then 0
    else ArCount(ars[..|ars| - 1], number) + if ars[|ars| - 1].number == number then 1 else 0
  }

  lemma {:induction false} SystemPartSplits(ars: seq<ArRecord>, ledger: seq<LedgerEntry>, kind: Kind, number: string)
    requires ars != []
    ensures var n := |ars| - 1;
      CountOf(SystemPart(ars, ledger), kind, number) == CountOf(SystemPart(ars[..n], ledger), kind, number) +
        if kind == SystemOnly && ars[n].number == number && !InLedger(ledger, number) then 1 else 0
  {
    var n := |ars| - 1;
    var c := !InLedger(ledger, ars[n].number);
    CountOfAppend(SystemPart(ars[..n], ledger), When(c, OnlyInAr(ars[n])), kind, number);
    CountOfWhen(c, OnlyInAr(ars[n]), kind, number);
  }

  lemma {:induction false} SystemPartCounts(ars: seq<ArRecord>, ledger: seq<LedgerEntry>, kind: Kind, number: string)
    ensures CountOf(SystemPart(ars, ledger), kind, number) ==
      if kind == SystemOnly && !InLedger(ledger, number) then ArCount(ars, number) else 0
  {
    if ars != [] {
      SystemPartSplits(ars, ledger, kind, number);
      SystemPartCounts(ars[..|ars| - 1], ledger, kind, number);
    }
  }

  lemma {:induction false} ArCountUnique(ars: seq<ArRecord>, number: string)
    requires DistinctAr(ars)
    ensures ArCount(ars, number) == if InAr(ars, number) then 1 else 0
  {
    if ars != [] {
      var n := |ars| - 1;
      ArCountUnique(ars[..n], number);
      if ars[n].number == number {
        assert !InAr(ars[..n], number);
      } else {
        assert InAr(ars, number) ==> InAr(ars[..n], number);
      }
    }
  }

  /** Amounts differ when they are further apart than the tolerance, whichever is larger. */
  lemma {:induction false} AmountThreshold(e: LedgerEntry, ar: ArRecord, o: Options)
    ensures AmountsDiffer(e, ar, o) <==>
      100.0 * (e.amount - ar.amount) > o.toleranceCents || 100.0 * (ar.amount - e.amount) > o.toleranceCents
  {
    var apart, cents := Distance(e.amount, ar.amount), o.toleranceCents / 100.0;
    assert 100.0 * cents == o.toleranceCents;
    assert apart > cents <==> 100.0 * apart > 100.0 * cents;
  }

  /** A number that the ledger does not have is reported once per receivable, and in no other way. */
  lemma {:induction false} UnknownNumberIsSystemOnly(ledger: seq<LedgerEntry>, ars: seq<ArRecord>, o: Options,
      kind: Kind, number: string)
    requires forall k | 0 <= k < |ledger| :: ledger[k].number != number
    ensures CountOf(Report(ledger, ars, o), kind, number) == if kind == SystemOnly then ArCount(ars, number) else 0
    ensures DistinctAr(ars) ==>
      ArCount(ars, number) == if exists j | 0 <= j < |ars| :: ars[j].number == number then 1 else 0
  {
    assert !InLedger(ledger, number);
    CountOfAppend(LedgerPart(ledger, ars, o), SystemPart(ars, ledger), kind, number);
    LedgerPartSkips(ledger, ars, o, kind, number);
    SystemPartCounts(ars, ledger, kind, number);
    if DistinctAr(ars) {
      ArCountUnique(ars, number);
    }
  }

  lemma {:induction false} LedgerNumberSays(ledger: seq<LedgerEntry>, ars: seq<ArRecord>, o: Options, kind: Kind,
      k: nat)
    requires DistinctLedger(ledger) && k < |ledger|
    ensures CountOf(Report(ledger, ars, o), kind, ledger[k].number) ==
      if Says(kind, ledger[k], Lookup(ars, ledger[k].number), o) then 1 else 0
  {
    var number := ledger[k].number;
    CountOfAppend(LedgerPart(ledger, ars, o), SystemPart(ars, ledger), kind, number);
    LedgerPartCounts(ledger, ars, o, kind, k);
    CountOfOne(ledger[k], Lookup(ars, number), o, kind, number);
    assert InLedger(ledger, number);
    SystemPartCounts(ars, ledger, kind, number);
  }

  /** A number of the ledger that no receivable has is reported once as ledger-only and in no other way. */
  lemma {:induction false} UnmatchedIsLedgerOnly(ledger: seq<LedgerEntry>, ars: seq<ArRecord>, o: Options,
      kind: Kind, k: nat)
    requires DistinctLedger(ledger) && k < |ledger|
    requires forall j | 0 <= j < |ars| :: ars[j].number != ledger[k].number
    ensures CountOf(Report(ledger, ars, o), kind, ledger[k].number) == if kind == LedgerOnly then 1 else 0
  {
    LedgerNumberSays(ledger, ars, o, kind, k);
    LookupFinds(ars, ledger[k].number);
  }

  /**
   A number of the ledger that receivables have too, the last of them at `j`, is reported once for the
   amounts if they are further apart than the tolerance, once for the dates if a whole half day past
   the threshold lies between them, and in no other way.
   */
  lemma {:induction false} LedgerNumberIsClassified(ledger: seq<LedgerEntry>, ars: seq<ArRecord>, o: Options,
      kind: Kind, k: nat, j: nat)
    requires DistinctLedger(ledger) && k < |ledger|
    requires j < |ars| && ars[j].number == ledger[k].number
    requires forall i | j < i < |ars| :: ars[i].number != ledger[k].number
    ensures var apart, ms := ledger[k].amount - ars[j].amount, ledger[k].issuedAt - ars[j].billedOn * 86_400_000;
      var half := (2 * o.gapThreshold + 1) * 86_400_000;
      CountOf(Report(ledger, ars, o), kind, ledger[k].number) ==
      match kind
      case LedgerOnly => 0
      case SystemOnly => 0
      case AmountMismatch => if 100.0 * apart > o.toleranceCents || -100.0 * apart > o.toleranceCents then 1 else 0
      case DateGap => if o.gapThreshold < 0 || 2 * ms >= half || 2 * ms < -half then 1 else 0
  {
    LedgerNumberSays(ledger, ars, o, kind, k);
    LookupFinds(ars, ledger[k].number);
    assert InAr(ars, ledger[k].number);
    AmountThreshold(ledger[k], ars[j], o);
    GapThreshold(ledger[k], ars[j], o);
  }

  /** The finding `f` reports entry `k` of the ledger, or receivable `j`, and carries their data. */
  ghost predicate Reports(f: Finding, ledger: seq<LedgerEntry>, ars: seq<ArRecord>, o: Options) {
    || (exists k | 0 <= k < |ledger| :: f == OnlyInLedger(ledger[k]) && !InAr(ars, ledger[k].number))
    || (exists j | 0 <= j < |ars| :: f == OnlyInAr(ars[j]) && !InLedger(ledger, ars[j].number))
    || (exists k, j | 0 <= k < |ledger| && 0 <= j < |ars| ::
          && ledger[k].number == ars[j].number
          && (|| (f == Mismatch(ledger[k], ars[j]) && AmountsDiffer(ledger[k], ars[j], o))
              || (f == Gap(ledger[k], ars[j]) && DatesDiffer(ledger[k], ars[j], o))))
  }

  lemma {:induction false} InLedgerPart(ledger: seq<LedgerEntry>, ars: seq<ArRecord>, o: Options, f: Finding)
    ensures f in LedgerPart(ledger, ars, o) <==>
      exists k | 0 <= k < |ledger| :: f in FindingsFor(ledger[k], Lookup(ars, ledger[k].number), o)
  {
    if ledger != [] {
      InLedgerPart(ledger[..|ledger| - 1], ars, o, f);
    }
  }

  lemma {:induction false} InSystemPart(ars: seq<ArRecord>, ledger: seq<LedgerEntry>, f: Finding)
    ensures f in SystemPart(ars, ledger) <==>
      exists j | 0 <= j < |ars| :: f == OnlyInAr(ars[j]) && !InLedger(ledger, ars[j].number)
  {
    if ars != [] {
      InSystemPart(ars[..|ars| - 1], ledger, f);
    }
  }

  lemma {:induction false} ReportReports(ledger: seq<LedgerEntry>, ars: seq<ArRecord>, o: Options, f: Finding)
    requires DistinctAr(ars)
    ensures f in Report(ledger, ars, o) <==> Reports(f, ledger, ars, o)
  {
    InLedgerPart(ledger, ars, o, f);
    InSystemPart(ars, ledger, f);
    forall k | 0 <= k < |ledger|
      ensures Lookup(ars, ledger[k].number).None? <==> !InAr(ars, ledger[k].number)
      ensures Lookup(ars, ledger[k].number).Some? ==>
        exists j | 0 <= j < |ars| :: ars[j].number == ledger[k].number && Lookup(ars, ledger[k].number) == Some(ars[j])
    {
      LookupFinds(ars, ledger[k].number);
    }
    forall j | 0 <= j < |ars|
      ensures Lookup(ars, ars[j].number) == Some(ars[j])
    {
      LookupUnique(ars, j);
    }
  }

  /** `days` is the distance to the nearest whole number of days, with halves rounded upward. */
  ghost predicate NearestDays(ms: int, days: nat) {
    || (2 * days - 1) * 86_400_000 <= 2 * ms < (2 * days + 1) * 86_400_000
    || (-2 * days - 1) * 86_400_000 <= 2 * ms < (-2 * days + 1) * 86_400_000
  }

  lemma {:induction false} GapIsNearest(e: LedgerEntry, ar: ArRecord, days: nat)
    ensures GapDays(e, ar) == days <==> NearestDays(e.issuedAt - ar.billedOn * 86_400_000, days)
  {
    var ms := e.issuedAt - ar.billedOn * DAY;
    assert RoundedDays(ms) * (2 * DAY) <= 2 * ms + DAY < (RoundedDays(ms) + 1) * (2 * DAY);
  }

  /**
   With one receivable a number, the report holds exactly the findings of the outer join: each entry
   of the ledger without a receivable, each receivable without an entry, each pair whose amounts are
   further apart than the tolerance, and each pair whose dates are, to the nearest day, further apart
   than the threshold, with the data of both sides.
   */
  lemma {:induction false} ReportIsTheJoin(ledger: seq<LedgerEntry>, ars: seq<ArRecord>, o: Options, f: Finding)
    requires DistinctAr(ars)
    ensures f in Report(ledger, ars, o) <==>
      || (exists k | 0 <= k < |ledger| ::
            && f == Finding(LedgerOnly, Some(ledger[k].id), ledger[k].number, Some(ledger[k].amount), None,
                            Some(ledger[k].issuedAt / 86_400_000), None, None)
            && forall j | 0 <= j < |ars| :: ars[j].number != ledger[k].number)
      || (exists j | 0 <= j < |ars| ::
            && f == Finding(SystemOnly, None, ars[j].number, None, Some(ars[j].amount), None,
                            Some(ars[j].billedOn), None)
            && forall k | 0 <= k < |ledger| :: ledger[k].number != ars[j].number)
      || (exists k, j | 0 <= k < |ledger| && 0 <= j < |ars| && ledger[k].number == ars[j].number ::
            && f == Finding(AmountMismatch, Some(ledger[k].id), ledger[k].number, Some(ledger[k].amount),
                            Some(ars[j].amount), Some(ledger[k].issuedAt / 86_400_000), Some(ars[j].billedOn), None)
            && (|| 100.0 * (ledger[k].amount - ars[j].amount) > o.toleranceCents
                || 100.0 * (ars[j].amount - ledger[k].amount) > o.toleranceCents))
      || (f.gapDays.Some? && f.gapDays.value > o.gapThreshold
          && exists k, j | 0 <= k < |ledger| && 0 <= j < |ars| && ledger[k].number == ars[j].number ::
               && f == Finding(DateGap, Some(ledger[k].id), ledger[k].number, Some(ledger[k].amount),
                               Some(ars[j].amount), Some(ledger[k].issuedAt / 86_400_000), Some(ars[j].billedOn),
                               f.gapDays)
               && var ms, days := ledger[k].issuedAt - ars[j].billedOn * 86_400_000, f.gapDays.value;
               (|| (2 * days - 1) * 86_400_000 <= 2 * ms < (2 * days + 1) * 86_400_000
                || (-2 * days - 1) * 86_400_000 <= 2 * ms < (-2 * days + 1) * 86_400_000))
  {
    ReportReports(ledger, ars, o, f);
    match f.kind {
      case LedgerOnly =>
      case SystemOnly =>
      case AmountMismatch => MismatchOnFields(ledger, ars, o, f);
      case DateGap => GapOnFields(ledger, ars, o, f);
    }
  }

  lemma {:induction false} MismatchOnFields(ledger: seq<LedgerEntry>, ars: seq<ArRecord>, o: Options, f: Finding)
    requires f.kind == AmountMismatch
    ensures Reports(f, ledger, ars, o) <==>
      exists k, j | 0 <= k < |ledger| && 0 <= j < |ars| && ledger[k].number == ars[j].number ::
        && f == Finding(AmountMismatch, Some(ledger[k].id), ledger[k].number, Some(ledger[k].amount),
                        Some(ars[j].amount), Some(ledger[k].issuedAt / 86_400_000), Some(ars[j].billedOn), None)
        && (|| 100.0 * (ledger[k].amount - ars[j].amount) > o.toleranceCents
            || 100.0 * (ars[j].amount - ledger[k].amount) > o.toleranceCents)
  {
    forall k, j | 0 <= k < |ledger| && 0 <= j < |ars|
      ensures AmountsDiffer(ledger[k], ars[j], o) <==>
        || 100.0 * (ledger[k].amount - ars[j].amount) > o.toleranceCents
        || 100.0 * (ars[j].amount - ledger[k].amount) > o.toleranceCents
    {
      AmountThreshold(ledger[k], ars[j], o);
    }
  }

  lemma {:induction false} GapOnFields(ledger: seq<LedgerEntry>, ars: seq<ArRecord>, o: Options, f: Finding)
    requires f.kind == DateGap
    ensures Reports(f, ledger, ars, o) <==>
      && f.gapDays.Some? && f.gapDays.value > o.gapThreshold
      && exists k, j | 0 <= k < |ledger| && 0 <= j < |ars| && ledger[k].number == ars[j].number ::
           && f == Finding(DateGap, Some(ledger[k].id), ledger[k].number, Some(ledger[k].amount),
                           Some(ars[j].amount), Some(ledger[k].issuedAt / 86_400_000), Some(ars[j].billedOn),
                           f.gapDays)
           && NearestDays(ledger[k].issuedAt - ars[j].billedOn * 86_400_000, f.gapDays.value)
  {
    if f.gapDays.Some? {
      forall k, j | 0 <= k < |ledger| && 0 <= j < |ars|
        ensures GapDays(ledger[k], ars[j]) == f.gapDays.value <==>
          NearestDays(ledger[k].issuedAt - ars[j].billedOn * 86_400_000, f.gapDays.value)
      {
        GapIsNearest(ledger[k], ars[j], f.gapDays.value);
      }
    }
  }

  /** Each side has the other's numbers, and no pair is reported. */
  ghost predicate Agree(ledger: seq<LedgerEntry>, ars: seq<ArRecord>, o: Options) {
    && SameNumbers(ledger, ars)
    && (forall k, j | 0 <= k < |ledger| && 0 <= j < |ars| && ledger[k].number == ars[j].number ::
          !AmountsDiffer(ledger[k], ars[j], o) && !DatesDiffer(ledger[k], ars[j], o))
  }

  lemma {:induction false} NothingReported(ledger: seq<LedgerEntry>, ars: seq<ArRecord>, o: Options)
    requires forall f :: !Reports(f, ledger, ars, o)
    ensures Agree(ledger, ars, o)
  {
    forall k | 0 <= k < |ledger|
      ensures InAr(ars, ledger[k].number)
    {
      assert !Reports(OnlyInLedger(ledger[k]), ledger, ars, o);
    }
    forall j | 0 <= j < |ars|
      ensures InLedger(ledger, ars[j].number)
    {
      assert !Reports(OnlyInAr(ars[j]), ledger, ars, o);
    }
    forall k, j | 0 <= k < |ledger| && 0 <= j < |ars| && ledger[k].number == ars[j].number
      ensures !AmountsDiffer(ledger[k], ars[j], o) && !DatesDiffer(ledger[k], ars[j], o)
    {
      assert !Reports(Mismatch(ledger[k], ars[j]), ledger, ars, o);
      assert !Reports(Gap(ledger[k], ars[j]), ledger, ars, o);
    }
  }

  ghost predicate SameNumbers(ledger: seq<LedgerEntry>, ars: seq<ArRecord>) {
    && (forall k | 0 <= k < |ledger| :: InAr(ars, ledger[k].number))
    && (forall j | 0 <= j < |ars| :: InLedger(ledger, ars[j].number))
  }

  lemma {:induction false} SameNumbersOnFields(ledger: seq<LedgerEntry>, ars: seq<ArRecord>)
    ensures SameNumbers(ledger, ars) <==>
      (set k | 0 <= k < |ledger| :: ledger[k].number) == (set j | 0 <= j < |ars| :: ars[j].number)
  {
    var left, right := set k | 0 <= k < |ledger| :: ledger[k].number, set j | 0 <= j < |ars| :: ars[j].number;
    forall number
      ensures (number in left <==> InLedger(ledger, number)) && (number in right <==> InAr(ars, number))
    {
    }
    if left == right {
      assert forall k | 0 <= k < |ledger| :: ledger[k].number in left;
      assert forall j | 0 <= j < |ars| :: ars[j].number in right;
    } else if SameNumbers(ledger, ars) {
      assert forall number :: number in left <==> number in right;
    }
  }

  /** To agree: each side has the other's numbers, no pair of amounts and no pair of dates is too far apart. */
  lemma {:induction false} AgreementOnFields(ledger: seq<LedgerEntry>, ars: seq<ArRecord>, o: Options)
    ensures var half := (2 * o.gapThreshold + 1) * 86_400_000;
      Agree(ledger, ars, o) <==>
      && (set k | 0 <= k < |ledger| :: ledger[k].number) == (set j | 0 <= j < |ars| :: ars[j].number)
      && (forall k, j | 0 <= k < |ledger| && 0 <= j < |ars| && ledger[k].number == ars[j].number ::
            && -o.toleranceCents <= 100.0 * (ledger[k].amount - ars[j].amount) <= o.toleranceCents
            && o.gapThreshold >= 0
            && -half <= 2 * (ledger[k].issuedAt - ars[j].billedOn * 86_400_000) < half)
  {
    SameNumbersOnFields(ledger, ars);
    var half := (2 * o.gapThreshold + 1) * 86_400_000;
    forall k, j | 0 <= k < |ledger| && 0 <= j < |ars|
      ensures !AmountsDiffer(ledger[k], ars[j], o) && !DatesDiffer(ledger[k], ars[j], o) <==>
        && -o.toleranceCents <= 100.0 * (ledger[k].amount - ars[j].amount) <= o.toleranceCents
        && o.gapThreshold >= 0
        && -half <= 2 * (ledger[k].issuedAt - ars[j].billedOn * 86_400_000) < half
    {
      AmountThreshold(ledger[k], ars[j], o);
      GapThreshold(ledger[k], ars[j], o);
    }
  }

  /**
   With one receivable a number, the report is empty if and only if each side has the other's numbers
   and every pair is within the tolerance and the threshold.
   */
  lemma {:induction false} EmptyReportIff(ledger: seq<LedgerEntry>, ars: seq<ArRecord>, o: Options)
    requires DistinctAr(ars)
    ensures var half := (2 * o.gapThreshold + 1) * 86_400_000;
      Report(ledger, ars, o) == [] <==>
      && (set k | 0 <= k < |ledger| :: ledger[k].number) == (set j | 0 <= j < |ars| :: ars[j].number)
      && (forall k, j | 0 <= k < |ledger| && 0 <= j < |ars| && ledger[k].number == ars[j].number ::
            && -o.toleranceCents <= 100.0 * (ledger[k].amount - ars[j].amount) <= o.toleranceCents
            && o.gapThreshold >= 0
            && -half <= 2 * (ledger[k].issuedAt - ars[j].billedOn * 86_400_000) < half)
  {
    AgreementOnFields(ledger, ars, o);
    EmptyReportAgrees(ledger, ars, o);
  }

  lemma {:induction false} EmptyReportAgrees(ledger: seq<LedgerEntry>, ars: seq<ArRecord>, o: Options)
    requires DistinctAr(ars)
    ensures Report(ledger, ars, o) == [] <==> Agree(ledger, ars, o)
  {
    var report := Report(ledger, ars, o);
    if report == [] {
      forall f
        ensures !Reports(f, ledger, ars, o)
      {
        ReportReports(ledger, ars, o, f);
      }
      NothingReported(ledger, ars, o);
    } else if Agree(ledger, ars, o) {
      ReportReports(ledger, ars, o, report[0]);
    }
  }

  /**
   The exact threshold for dates, with `d` the milliseconds from the billed date to the issue: a whole
   half day past the threshold is reported after the billed date and not before it.
   */
  lemma {:induction false} GapThreshold(e: LedgerEntry, ar: ArRecord, o: Options)
    ensures var d, half := e.issuedAt - ar.billedOn * 86_400_000, (2 * o.gapThreshold + 1) * 86_400_000;
      DatesDiffer(e, ar, o) <==> o.gapThreshold < 0 || 2 * d >= half || 2 * d < -half
  {
    var d := e.issuedAt - ar.billedOn * DAY;
    var days := RoundedDays(d);
    assert days * (2 * DAY) <= 2 * d + DAY < (days + 1) * (2 * DAY);
    assert days > o.gapThreshold <==> 2 * d >= (2 * o.gapThreshold + 1) * DAY;
    assert days < -o.gapThreshold <==> 2 * d < -(2 * o.gapThreshold + 1) * DAY;
  }

  /** So exchanging the two sides can change the verdict. */
  lemma {:induction false} GapIsLopsided(threshold: nat)
    ensures var after, before, ar := LedgerEntry("", 0, 0.0, threshold * DAY + DAY / 2),
        LedgerEntry("", 0, 0.0, -(threshold * DAY + DAY / 2)), ArRecord("", 0.0, 0);
      DatesDiffer(after, ar, Options(threshold, 0.0)) && !DatesDiffer(before, ar, Options(threshold, 0.0))
  {
    GapThreshold(LedgerEntry("", 0, 0.0, threshold * DAY + DAY / 2), ArRecord("", 0.0, 0), Options(threshold, 0.0));
    GapThreshold(LedgerEntry("", 0, 0.0, -(threshold * DAY + DAY / 2)), ArRecord("", 0.0, 0), Options(threshold, 0.0));
  }

  /**
   The verdict does not depend on which side is later if and only if the gap is not exactly half a day past the
   threshold.
   */
  lemma {:induction false} GapIsSymmetricIff(e: LedgerEntry, mirrored: LedgerEntry, ar: ArRecord, o: Options)
    requires mirrored.issuedAt - ar.billedOn * DAY == -(e.issuedAt - ar.billedOn * DAY)
    ensures var d, half := e.issuedAt - ar.billedOn * DAY, (2 * o.gapThreshold + 1) * DAY;
      (DatesDiffer(e, ar, o) <==> DatesDiffer(mirrored, ar, o)) <==>
        o.gapThreshold < 0 || (2 * d != half && 2 * d != -half)
  {
    GapThreshold(e, ar, o);
    GapThreshold(mirrored, ar, o);
  }

  // ---------------------------------------------------------------- the table

  datatype Table = Table(rows: seq<Row>, nextId: nat)

  datatype Op =
    | Generate(org: nat, period: Period, report: seq<Finding>)
    | Acknowledge(org: nat, id: nat, actor: nat)

  predicate Stale(r: Row, org: nat, period: Period) {
    r.org == org && r.period == period && r.acknowledgedBy.None?
  }

  predicate Settled(r: Row, org: nat, period: Period) {
    r.org == org && r.period == period && r.acknowledgedBy.Some?
  }

  function Clear(rows: seq<Row>, org: nat, period: Period): seq<Row> {
    if rows == [] then []
    else
      var last := rows[|rows| - 1];
      Clear(rows[..|rows| - 1], org, period) + if Stale(last, org, period) then [] else [last]
  }

  /** The findings of a period nobody has acknowledged. */
  function Unacknowledged(rows: seq<Row>, org: nat, period: Period): seq<Finding> {
    if rows == [] then []
    else
      var last := rows[|rows| - 1];
      Unacknowledged(rows[..|rows| - 1], org, period) + if Stale(last, org, period) then [last.finding] else []
  }

  function Acknowledged(rows: seq<Row>, org: nat, period: Period): seq<Finding> {
    if rows == [] then []
    else
      var last := rows[|rows| - 1];
      Acknowledged(rows[..|rows| - 1], org, period) + if Settled(last, org, period) then [last.finding] else []
  }

  function RowsOf(id: nat, org: nat, period: Period, fs: seq<Finding>): seq<Row> {
    seq(|fs|, i requires 0 <= i < |fs| => Row(id + i, org, period, fs[i], None))
  }

  function Marked(rows: seq<Row>, org: nat, id: nat, actor: nat): seq<Row> {
    seq(|rows|, i requires 0 <= i < |rows| =>
      if rows[i].id == id && rows[i].org == org then rows[i].(acknowledgedBy := Some(actor)) else rows[i])
  }

  function Apply(t: Table, op: Op): Table {
    match op
    case Generate(org, period, report) =>
      Table(Clear(t.rows, org, period) + RowsOf(t.nextId, org, period, report), t.nextId + |report|)
    case Acknowledge(org, id, actor) => t.(rows := Marked(t.rows, org, id, actor))
  }

  function Run(t: Table, ops: seq<Op>): Table
    decreases |ops|
  {
    if ops == [] then t else Run(Apply(t, ops[0]), ops[1..])
  }

  lemma {:induction false} PartsAppend(a: seq<Row>, b: seq<Row>, org: nat, period: Period)
    ensures Unacknowledged(a + b, org, period) == Unacknowledged(a, org, period) + Unacknowledged(b, org, period)
    ensures Acknowledged(a + b, org, period) == Acknowledged(a, org, period) + Acknowledged(b, org, period)
  {
    if b == [] {
      assert a + b == a;
    } else {
      assert (a + b)[..|a + b| - 1] == a + b[..|b| - 1];
      PartsAppend(a, b[..|b| - 1], org, period);
    }
  }

  lemma {:induction false} RowsOfFront(id: nat, org: nat, period: Period, fs: seq<Finding>)
    requires fs != []
    ensures var n := |fs| - 1;
      RowsOf(id, org, period, fs)[..n] == RowsOf(id, org, period, fs[..n])
  {
  }

  lemma {:induction false} OpenOfNew(id: nat, o: nat, p: Period, fs: seq<Finding>, org: nat, period: Period)
    ensures Unacknowledged(RowsOf(id, o, p, fs), org, period) == if o == org && p == period then fs else []
  {
    if fs != [] {
      var n := |fs| - 1;
      RowsOfFront(id, o, p, fs);
      OpenOfNew(id, o, p, fs[..n], org, period);
      assert fs == fs[..n] + [fs[n]];
    }
  }

  lemma {:induction false} SettledOfNew(id: nat, o: nat, p: Period, fs: seq<Finding>, org: nat, period: Period)
    ensures Acknowledged(RowsOf(id, o, p, fs), org, period) == []
  {
    if fs != [] {
      RowsOfFront(id, o, p, fs);
      SettledOfNew(id, o, p, fs[..|fs| - 1], org, period);
    }
  }

  lemma {:induction false} PartsOfNew(id: nat, o: nat, p: Period, fs: seq<Finding>, org: nat, period: Period)
    ensures Unacknowledged(RowsOf(id, o, p, fs), org, period) == if o == org && p == period then fs else []
    ensures Acknowledged(RowsOf(id, o, p, fs), org, period) == []
  {
    OpenOfNew(id, o, p, fs, org, period);
    SettledOfNew(id, o, p, fs, org, period);
  }

  lemma {:induction false} PartsOfCleared(rows: seq<Row>, o: nat, p: Period, org: nat, period: Period)
    ensures Unacknowledged(Clear(rows, o, p), org, period) ==
      if o == org && p == period then [] else Unacknowledged(rows, org, period)
    ensures Acknowledged(Clear(rows, o, p), org, period) == Acknowledged(rows, org, period)
  {
    if rows != [] {
      var n := |rows| - 1;
      PartsOfCleared(rows[..n], o, p, org, period);
      var last := if Stale(rows[n], o, p) then [] else [rows[n]];
      PartsAppend(Clear(rows[..n], o, p), last, org, period);
      assert |last| == 1 ==> last[..0] == [];
    }
  }

  lemma {:induction false} ClearAppend(a: seq<Row>, b: seq<Row>, org: nat, period: Period)
    ensures Clear(a + b, org, period) == Clear(a, org, period) + Clear(b, org, period)
  {
    if b == [] {
      assert a + b == a;
    } else {
      assert (a + b)[..|a + b| - 1] == a + b[..|b| - 1];
      ClearAppend(a, b[..|b| - 1], org, period);
    }
  }

  lemma {:induction false} ClearOfKept(rows: seq<Row>, org: nat, period: Period)
    requires forall r | r in rows :: !Stale(r, org, period)
    ensures Clear(rows, org, period) == rows
  {
    if rows != [] {
      ClearOfKept(rows[..|rows| - 1], org, period);
      assert rows == rows[..|rows| - 1] + [rows[|rows| - 1]];
    }
  }

  lemma {:induction false} ClearOfStale(rows: seq<Row>, org: nat, period: Period)
    requires forall i | 0 <= i < |rows| :: Stale(rows[i], org, period)
    ensures Clear(rows, org, period) == []
  {
    if rows != [] {
      ClearOfStale(rows[..|rows| - 1], org, period);
    }
  }

  /** The rows a report keeps stay as they are, ids and acknowledgers included, and in their order. */
  lemma {:induction false} KeptRowsStay(t: Table, org: nat, period: Period, report: seq<Finding>)
    ensures var t' := Apply(t, Generate(org, period, report));
      && Clear(t'.rows, org, period) == Clear(t.rows, org, period)
      && (forall r | !Stale(r, org, period) :: r in t'.rows <==> r in t.rows)
  {
    var cleared, added := Clear(t.rows, org, period), RowsOf(t.nextId, org, period, report);
    ClearAppend(cleared, added, org, period);
    ClearKeeps(t.rows, org, period);
    ClearOfKept(cleared, org, period);
    ClearOfStale(added, org, period);
    assert cleared + [] == cleared;
    assert forall r | r in added :: Stale(r, org, period);
  }

  /**
   Whatever the table held: after a report the period has exactly the findings of the report as
   unacknowledged rows; its acknowledged rows, and all rows of other organisations and periods, stay.
   */
  lemma {:induction false} ReportReplaces(t: Table, org: nat, period: Period, report: seq<Finding>, org2: nat,
      period2: Period)
    ensures var t' := Apply(t, Generate(org, period, report));
      && Unacknowledged(t'.rows, org, period) == report
      && Acknowledged(t'.rows, org2, period2) == Acknowledged(t.rows, org2, period2)
      && ((org2, period2) != (org, period) ==>
        Unacknowledged(t'.rows, org2, period2) == Unacknowledged(t.rows, org2, period2))
      && Clear(t'.rows, org, period) == Clear(t.rows, org, period)
      && (forall r: Row | !(r.org == org && r.period == period && r.acknowledgedBy.None?) ::
            r in t'.rows <==> r in t.rows)
  {
    KeptRowsStay(t, org, period, report);
    var cleared, added := Clear(t.rows, org, period), RowsOf(t.nextId, org, period, report);
    PartsAppend(cleared, added, org, period);
    PartsAppend(cleared, added, org2, period2);
    PartsOfCleared(t.rows, org, period, org, period);
    PartsOfCleared(t.rows, org, period, org2, period2);
    PartsOfNew(t.nextId, org, period, report, org, period);
    PartsOfNew(t.nextId, org, period, report, org2, period2);
  }

  /**
   Running the report again on the same inputs gives the same unacknowledged findings, whatever was
   acknowledged or reported between.  So acknowledging never lowers the count that the gate sees after
   a re-run: it is zero exactly when the report is empty.
   */
  lemma {:induction false} RerunGivesTheSame(t: Table, org: nat, period: Period, report: seq<Finding>, between: seq<Op>)
    ensures var t1 := Apply(t, Generate(org, period, report));
      var t2 := Apply(Run(t1, between), Generate(org, period, report));
      && Unacknowledged(t2.rows, org, period) == Unacknowledged(t1.rows, org, period)
      && (|Unacknowledged(t2.rows, org, period)| == 0 <==> report == [])
  {
    var t1 := Apply(t, Generate(org, period, report));
    ReportReplaces(t, org, period, report, org, period);
    ReportReplaces(Run(t1, between), org, period, report, org, period);
  }

  /**
   After a re-run the gate counts nothing if and only if the two sides agree: what was acknowledged does not
   matter.
   */
  lemma {:induction false} GateOpensIff(
    t: Table, org: nat, period: Period, ledger: seq<LedgerEntry>, ars: seq<ArRecord>, o: Options, between: seq<Op>)
    requires DistinctAr(ars)
    ensures var generate := Generate(org, period, Report(ledger, ars, o));
      |Unacknowledged(Apply(Run(Apply(t, generate), between), generate).rows, org, period)| == 0 <==>
        Agree(ledger, ars, o)
  {
    RerunGivesTheSame(t, org, period, Report(ledger, ars, o), between);
    EmptyReportAgrees(ledger, ars, o);
  }

  // ---------------------------------------------------------------- acknowledgement

  ghost predicate Valid(t: Table) {
    && (forall i | 0 <= i < |t.rows| :: t.rows[i].id < t.nextId)
    && (forall i, j | 0 <= i < j < |t.rows| :: t.rows[i].id != t.rows[j].id)
  }

  lemma {:induction false} ClearKeeps(rows: seq<Row>, org: nat, period: Period)
    ensures forall r :: r in Clear(rows, org, period) <==> r in rows && !Stale(r, org, period)
    ensures (forall i, j | 0 <= i < j < |rows| :: rows[i].id != rows[j].id) ==>
      forall i, j | 0 <= i < j < |Clear(rows, org, period)| ::
        Clear(rows, org, period)[i].id != Clear(rows, org, period)[j].id
  {
    if rows != [] {
      var n := |rows| - 1;
      ClearKeeps(rows[..n], org, period);
      var rest := Clear(rows[..n], org, period);
      assert rows == rows[..n] + [rows[n]];
      assert forall i | 0 <= i < |rest| :: rest[i] in rest;
    }
  }

  lemma {:induction false} StepKeeps(t: Table, op: Op)
    requires Valid(t)
    ensures Valid(Apply(t, op))
  {
    if op.Generate? {
      ClearKeeps(t.rows, op.org, op.period);
      var rest := Clear(t.rows, op.org, op.period);
      assert forall i | 0 <= i < |rest| :: rest[i] in rest;
    }
  }

  lemma {:induction false} RunKeeps(t: Table, ops: seq<Op>)
    requires Valid(t)
    ensures Valid(Run(t, ops))
    decreases |ops|
  {
    if ops != [] {
      StepKeeps(t, ops[0]);
      RunKeeps(Apply(t, ops[0]), ops[1..]);
    }
  }

  /** An acknowledged row stays in the table through every later run, with the same finding. */
  lemma {:induction false} AcknowledgedForever(t: Table, ops: seq<Op>, r: Row)
    requires r in t.rows && r.acknowledgedBy.Some?
    ensures exists r' ::
      r' in Run(t, ops).rows && r'.acknowledgedBy.Some? && r'.(acknowledgedBy := r.acknowledgedBy) == r
    decreases |ops|
  {
    if ops == [] {
      assert r in Run(t, ops).rows;
    } else {
      var t' := Apply(t, ops[0]);
      var i :| 0 <= i < |t.rows| && t.rows[i] == r;
      var next := if ops[0].Acknowledge? then t'.rows[i] else r;
      if ops[0].Generate? {
        ClearKeeps(t.rows, ops[0].org, ops[0].period);
      }
      assert next in t'.rows;
      AcknowledgedForever(t', ops[1..], next);
    }
  }

  lemma {:induction false} MarkMoves(rows: seq<Row>, org: nat, id: nat, actor: nat, period: Period, i: nat)
    requires i < |rows| && rows[i].id == id && Stale(rows[i], org, period)
    requires forall j | 0 <= j < |rows| && j != i :: rows[j].id != id
    ensures multiset(Acknowledged(Marked(rows, org, id, actor), org, period)) ==
      multiset(Acknowledged(rows, org, period)) + multiset{rows[i].finding}
  {
    var before, after, row := rows[..i], rows[i + 1..], rows[i].(acknowledgedBy := Some(actor));
    assert rows == before + ([rows[i]] + after);
    assert Marked(rows, org, id, actor) == before + ([row] + after);
    SettledAround(before, rows[i], after, org, period);
    SettledAround(before, row, after, org, period);
  }

  lemma {:induction false} OpenAround(before: seq<Row>, row: Row, after: seq<Row>, org: nat, period: Period)
    ensures Unacknowledged(before + ([row] + after), org, period) ==
      Unacknowledged(before, org, period)
      + (if Stale(row, org, period) then [row.finding] else []) + Unacknowledged(after, org, period)
  {
    PartsAppend(before, [row] + after, org, period);
    PartsAppend([row], after, org, period);
    assert [row][..0] == [];
  }

  lemma {:induction false} SettledAround(before: seq<Row>, row: Row, after: seq<Row>, org: nat, period: Period)
    ensures Acknowledged(before + ([row] + after), org, period) ==
      Acknowledged(before, org, period)
      + (if Settled(row, org, period) then [row.finding] else []) + Acknowledged(after, org, period)
  {
    PartsAppend(before, [row] + after, org, period);
    PartsAppend([row], after, org, period);
    assert [row][..0] == [];
  }

  lemma {:induction false} OpenMember(rows: seq<Row>, org: nat, period: Period, i: nat)
    requires i < |rows| && Stale(rows[i], org, period)
    ensures rows[i].finding in Unacknowledged(rows, org, period)
  {
    assert rows == rows[..i] + ([rows[i]] + rows[i + 1..]);
    OpenAround(rows[..i], rows[i], rows[i + 1..], org, period);
  }

  /**
   An acknowledged finding comes back: if it is acknowledged and the report is run again on the same
   inputs, the finding is stored one more time, acknowledged and not.
   */
  lemma {:induction false} AcknowledgedComesBack(t: Table, org: nat, period: Period, report: seq<Finding>, i: nat,
      actor: nat)
    requires Valid(t)
    requires i < |Apply(t, Generate(org, period, report)).rows|
    requires var r := Apply(t, Generate(org, period, report)).rows[i];
      r.org == org && r.period == period && r.acknowledgedBy.None?
    ensures var t1 := Apply(t, Generate(org, period, report));
      var t2 := Apply(Apply(t1, Acknowledge(org, t1.rows[i].id, actor)), Generate(org, period, report));
      && Unacknowledged(t2.rows, org, period) == report
      && t1.rows[i].finding in report
      && multiset(Acknowledged(t2.rows, org, period)) ==
         multiset(Acknowledged(t1.rows, org, period)) + multiset{t1.rows[i].finding}
  {
    var t1 := Apply(t, Generate(org, period, report));
    StepKeeps(t, Generate(org, period, report));
    MarkMoves(t1.rows, org, t1.rows[i].id, actor, period, i);
    ReportReplaces(t, org, period, report, org, period);
    ReportReplaces(Apply(t1, Acknowledge(org, t1.rows[i].id, actor)), org, period, report, org, period);
    OpenMember(t1.rows, org, period, i);
  }

  // ---------------------------------------------------------------- the calls

  lemma {:induction false} RowsOfMore(id: nat, org: nat, period: Period, fs: seq<Finding>, f: Finding)
    ensures RowsOf(id, org, period, fs + [f]) == RowsOf(id, org, period, fs) + [Row(id + |fs|, org, period, f, None)]
  {
  }

  /** The open findings of a period, counted on the rows. */
  lemma {:induction false} OpenRowsCount(rows: seq<Row>, org: nat, period: Period)
    ensures |Unacknowledged(rows, org, period)| == |set i: nat | i < |rows| && rows[i].org == org
                                                               && rows[i].period == period
                                                               && rows[i].acknowledgedBy.None?|
  {
    if rows != [] {
      var n := |rows| - 1;
      OpenRowsCount(rows[..n], org, period);
      var isOpen := (i: nat) => i < |rows| && rows[i].org == org && rows[i].period == period
                                && rows[i].acknowledgedBy.None?;
      CountNext(isOpen, n);
      assert (set i: nat | i < n && isOpen(i)) ==
        set i: nat | i < n && rows[..n][i].org == org && rows[..n][i].period == period
                     && rows[..n][i].acknowledgedBy.None?;
      assert (set i: nat | i < n + 1 && isOpen(i)) ==
        set i: nat | i < |rows| && rows[i].org == org && rows[i].period == period && rows[i].acknowledgedBy.None?;
    }
  }

  /** Clearing drops the unacknowledged rows of the period and keeps every other row as often as it was there. */
  lemma {:induction false} ClearKeepsOthers(rows: seq<Row>, org: nat, period: Period, r: Row)
    ensures multiset(Clear(rows, org, period))[r] ==
      if r.org == org && r.period == period && r.acknowledgedBy.None? then 0 else multiset(rows)[r]
  {
    if rows != [] {
      var n := |rows| - 1;
      ClearKeepsOthers(rows[..n], org, period, r);
      assert rows == rows[..n] + [rows[n]];
    }
  }

  lemma {:induction false} OtherRowsStay(t: Table, org: nat, period: Period, report: seq<Finding>, r: Row)
    requires !(r.org == org && r.period == period && r.acknowledgedBy.None?)
    ensures r in Apply(t, Generate(org, period, report)).rows <==> r in t.rows
  {
    assert !Stale(r, org, period);
    KeptRowsStay(t, org, period, report);
  }

  lemma {:induction false} OpenAfterReport(t: Table, org: nat, period: Period, report: seq<Finding>)
    ensures Unacknowledged(Apply(t, Generate(org, period, report)).rows, org, period) == report
  {
    ReportReplaces(t, org, period, report, org, period);
  }

  lemma {:induction false} ReportStored(t: Table, org: nat, period: Period, report: seq<Finding>)
    ensures var t' := Apply(t, Generate(org, period, report));
      && Unacknowledged(t'.rows, org, period) == report
      && forall r: Row | !(r.org == org && r.period == period && r.acknowledgedBy.None?) ::
           r in t'.rows <==> r in t.rows
  {
    OpenAfterReport(t, org, period, report);
    forall r: Row | !(r.org == org && r.period == period && r.acknowledgedBy.None?)
      ensures r in Apply(t, Generate(org, period, report)).rows <==> r in t.rows
    {
      OtherRowsStay(t, org, period, report, r);
    }
  }

  class DiscrepancyTable {
    var rows: seq<Row>
    var nextId: nat

    constructor ()
      ensures Snapshot() == Table([], 0) && Valid(Snapshot())
    {
      rows, nextId := [], 0;
    }

    function Snapshot(): Table
      reads this
    {
      Table(rows, nextId)
    }

    method ClearUnacknowledged(org: nat, period: Period) returns (count: nat)
      modifies this`rows
      ensures rows == Clear(old(rows), org, period) && count == |old(rows)| - |rows|
      ensures forall r: Row ::
        r in rows <==> r in old(rows) && !(r.org == org && r.period == period && r.acknowledgedBy.None?)
    {
      var kept: seq<Row> := [];
      count := 0;
      for i := 0 to |rows|
        invariant kept == Clear(rows[..i], org, period) && count == i - |kept|
      {
        assert rows[..i + 1][..i] == rows[..i];
        if Stale(rows[i], org, period) {
          count := count + 1;
        } else {
          kept := kept + [rows[i]];
        }
      }
      assert rows[..|rows|] == rows;
      ClearKeeps(rows, org, period);
      rows := kept;
    }

    /** A plain insert: nothing looks for a row with the same finding. */
    method CreateDiscrepancy(org: nat, period: Period, f: Finding) returns (row: Row)
      modifies this
      ensures row == Row(old(nextId), org, period, f, None)
      ensures rows == old(rows) + [row] && nextId == old(nextId) + 1
    {
      row := Row(nextId, org, period, f, None);
      rows, nextId := rows + [row], nextId + 1;
    }

    method AcknowledgeDiscrepancy(org: nat, id: nat, actor: nat) returns (found: bool)
      modifies this`rows
      ensures found <==> exists i | 0 <= i < |old(rows)| :: old(rows)[i].id == id && old(rows)[i].org == org
      ensures |rows| == |old(rows)|
      ensures forall i | 0 <= i < |rows| ::
        var r := old(rows)[i];
        rows[i] == if r.id == id && r.org == org then r.(acknowledgedBy := Some(actor)) else r
      ensures Snapshot() == Apply(old(Snapshot()), Acknowledge(org, id, actor))
    {
      found := exists i | 0 <= i < |rows| :: rows[i].id == id && rows[i].org == org;
      rows := Marked(rows, org, id, actor);
    }

    method CountUnacknowledged(org: nat, period: Period) returns (count: nat)
      ensures count == |Unacknowledged(rows, org, period)|
      ensures count == |set i: nat | i < |rows| && rows[i].org == org && rows[i].period == period
                                     && rows[i].acknowledgedBy.None?|
    {
      count := 0;
      for i := 0 to |rows|
        invariant count == |Unacknowledged(rows[..i], org, period)|
      {
        assert rows[..i + 1][..i] == rows[..i];
        if Stale(rows[i], org, period) {
          count := count + 1;
        }
      }
      assert rows[..|rows|] == rows;
      OpenRowsCount(rows, org, period);
    }

    /** The results are the rows of the findings, added to what was kept. */
    ghost predicate Stored(org: nat, period: Period, kept: seq<Row>, start: nat, found: seq<Finding>, results: seq<Row>)
      reads this
    {
      results == RowsOf(start, org, period, found) && rows == kept + results && nextId == start + |results|
    }

    /** Stores a finding and adds it to the results. */
    method Push(org: nat, period: Period, f: Finding, results: seq<Row>,
                ghost kept: seq<Row>, ghost start: nat, ghost found: seq<Finding>) returns (more: seq<Row>)
      requires Stored(org, period, kept, start, found, results)
      modifies this
      ensures Stored(org, period, kept, start, found + [f], more)
    {
      RowsOfMore(start, org, period, found, f);
      var d := CreateDiscrepancy(org, period, f);
      more := results + [d];
      assert kept + results + [d] == kept + more;
    }

    method IndexByNumber(arRecords: seq<ArRecord>) returns (arByNumber: map<string, ArRecord>)
      ensures forall number: string ::
        Lookup(arRecords, number) == if number in arByNumber then Some(arByNumber[number]) else None
    {
      arByNumber := map[];
      for i := 0 to |arRecords|
        invariant forall number: string ::
          Lookup(arRecords[..i], number) == if number in arByNumber then Some(arByNumber[number]) else None
      {
        assert arRecords[..i + 1][..i] == arRecords[..i];
        arByNumber := arByNumber[arRecords[i].number := arRecords[i]];
      }
      assert arRecords[..|arRecords|] == arRecords;
    }

    /** One entry of the ledger against its receivable, if there is one. */
    method Compare(
      org: nat, period: Period, ledger: LedgerEntry, found: Option<ArRecord>, options: Options, results: seq<Row>,
      ghost kept: seq<Row>, ghost start: nat, ghost reported: seq<Finding>) returns (more: seq<Row>)
      requires Stored(org, period, kept, start, reported, results)
      modifies this
      ensures Stored(org, period, kept, start, reported + FindingsFor(ledger, found, options), more)
    {
      more := results;
      ghost var now := reported;
      if found.None? {
        more := Push(org, period, OnlyInLedger(ledger), more, kept, start, now);
        return;
      }
      var ar := found.value;
      if Distance(ledger.amount, ar.amount) > options.toleranceCents / 100.0 {
        more := Push(org, period, Mismatch(ledger, ar), more, kept, start, now);
        now := now + [Mismatch(ledger, ar)];
      }
      assert now == reported + When(AmountsDiffer(ledger, ar, options), Mismatch(ledger, ar));
      if GapDays(ledger, ar) > options.gapThreshold {
        more := Push(org, period, Gap(ledger, ar), more, kept, start, now);
        now := now + [Gap(ledger, ar)];
      }
      assert now == reported + FindingsFor(ledger, found, options);
    }

    method CompareLedger(
      org: nat, period: Period, ledgerAmounts: seq<LedgerEntry>, arRecords: seq<ArRecord>, options: Options,
      ghost kept: seq<Row>, ghost start: nat) returns (results: seq<Row>)
      requires Stored(org, period, kept, start, [], [])
      modifies this
      ensures Stored(org, period, kept, start, LedgerPart(ledgerAmounts, arRecords, options), results)
    {
      var arByNumber := IndexByNumber(arRecords);
      results := [];
      for i := 0 to |ledgerAmounts|
        invariant Stored(org, period, kept, start, LedgerPart(ledgerAmounts[..i], arRecords, options), results)
      {
        var ledger := ledgerAmounts[i];
        var ar := if ledger.number in arByNumber then Some(arByNumber[ledger.number]) else None;
        LedgerPartNext(ledgerAmounts, arRecords, options, i);
        results := Compare(org, period, ledger, ar, options, results, kept, start,
                           LedgerPart(ledgerAmounts[..i], arRecords, options));
      }
      assert ledgerAmounts[..|ledgerAmounts|] == ledgerAmounts;
    }

    method AddSystemOnly(
      org: nat, period: Period, ledgerAmounts: seq<LedgerEntry>, arRecords: seq<ArRecord>, results: seq<Row>,
      ghost kept: seq<Row>, ghost start: nat, ghost first: seq<Finding>) returns (more: seq<Row>)
      requires Stored(org, period, kept, start, first, results)
      modifies this
      ensures Stored(org, period, kept, start, first + SystemPart(arRecords, ledgerAmounts), more)
    {
      more := results;
      assert first + SystemPart(arRecords[..0], ledgerAmounts) == first;
      for i := 0 to |arRecords|
        invariant Stored(org, period, kept, start, first + SystemPart(arRecords[..i], ledgerAmounts), more)
      {
        var ar := arRecords[i];
        SystemPartNext(arRecords, ledgerAmounts, i, first);
        if !InLedger(ledgerAmounts, ar.number) {
          more := Push(org, period, OnlyInAr(ar), more, kept, start, first + SystemPart(arRecords[..i], ledgerAmounts));
        }
      }
      assert arRecords[..|arRecords|] == arRecords;
    }

    /** The dates are compared with 5 days and the amounts with no tolerance unless the caller says otherwise. */
    method GenerateReconciliationReport(
      org: nat, period: Period, ledgerAmounts: seq<LedgerEntry>, arRecords: seq<ArRecord>,
      dateGapThresholdDays: Option<int>, amountToleranceCents: Option<real>)
      returns (results: seq<Row>)
      modifies this
      ensures var report := Report(ledgerAmounts, arRecords, Options(
                  if dateGapThresholdDays.Some? then dateGapThresholdDays.value else 5,
                  if amountToleranceCents.Some? then amountToleranceCents.value else 0.0));
        && Snapshot() == Apply(old(Snapshot()), Generate(org, period, report))
        && Unacknowledged(rows, org, period) == report
        && |results| == |report|
        && forall i | 0 <= i < |results| :: results[i] == Row(old(nextId) + i, org, period, report[i], None)
      ensures rows == Clear(old(rows), org, period) + results
      ensures forall r: Row | !(r.org == org && r.period == period && r.acknowledgedBy.None?) ::
        r in rows <==> r in old(rows)
    {
      ghost var before := Snapshot();
      var options := Options(if dateGapThresholdDays.Some? then dateGapThresholdDays.value else 5,
                             if amountToleranceCents.Some? then amountToleranceCents.value else 0.0);
      var cleared := ClearUnacknowledged(org, period);
      ghost var kept, start := rows, nextId;
      results := CompareLedger(org, period, ledgerAmounts, arRecords, options, kept, start);
      results := AddSystemOnly(org, period, ledgerAmounts, arRecords, results, kept, start,
                               LedgerPart(ledgerAmounts, arRecords, options));
      ReportStored(before, org, period, Report(ledgerAmounts, arRecords, options));
    }
  }

  lemma {:induction false} LedgerPartNext(ledger: seq<LedgerEntry>, ars: seq<ArRecord>, o: Options, i: nat)
    requires i < |ledger|
    ensures LedgerPart(ledger[..i + 1], ars, o) ==
      LedgerPart(ledger[..i], ars, o) + FindingsFor(ledger[i], Lookup(ars, ledger[i].number), o)
  {
    assert ledger[..i + 1][..i] == ledger[..i];
  }

  lemma {:induction false} SystemPartNext(ars: seq<ArRecord>, ledger: seq<LedgerEntry>, i: nat, first: seq<Finding>)
    requires i < |ars|
    ensures first + SystemPart(ars[..i + 1], ledger) ==
      first + SystemPart(ars[..i], ledger) + if InLedger(ledger, ars[i].number) then [] else [OnlyInAr(ars[i])]
  {
    assert ars[..i + 1][..i] == ars[..i];
  }
}
