/**
 The life of commission records across the modules that update them: calculation
 (apps/server/src/api/calculate.ts, apps/server/src/api/billing-phases.ts), collection gate
 (packages/db/src/invoices.ts), phase gate with its journal (packages/db/src/billing-phases.ts),
 guarantee expiry (packages/db/src/guarantee-periods.ts), clawback (packages/db/src/clawback.ts)
 and commission runs (packages/db/src/commission-runs.ts).

 Rows are only ever added, so an id is a position in its table.  Each call is one step; the two
 handlers that use a transaction are one step each.
 */
module Ledger {
  import opened Prelude
  import opened Records
  import Engine

  datatype Record = Record(org: nat, placement: nat, phase: Option<nat>, status: Status, holdReason: Option<HoldReason>)

  datatype RunStatus = Open | RunApproved | Cancelled

  datatype Link = Link(record: nat, individuallyApproved: bool)

  datatype CommissionRun = CommissionRun(org: nat, status: RunStatus, links: seq<Link>)

  datatype PeriodStatus = Active | Triggered | ExpiredClean

  datatype Period = Period(org: nat, placement: nat, status: PeriodStatus)

  datatype JournalRow = JournalRow(org: nat, record: nat, phase: nat, from: Status, to: Status, invoice: nat)

  datatype Books = Books(records: seq<Record>, runs: seq<CommissionRun>, periods: seq<Period>, journal: seq<JournalRow>)

  datatype Op =
    | AddRecord(org: nat, placement: nat, billingPhase: Option<nat>, invoiceCollected: bool, insideWindow: bool)
    | AddPeriod(org: nat, placement: nat)
    | CreateRun(org: nat, ids: seq<nat>)
    | ApproveRecord(org: nat, run: nat, record: nat)
    | ApproveRun(org: nat, run: nat)
    | ReleaseCollection(org: nat, placement: nat)
    | ReleasePhase(org: nat, phase: nat, invoice: nat)
    | Expire(period: nat)
    | Trigger(period: nat)

  const EMPTY := Books([], [], [], [])

  // ---------------------------------------------------------------- what each call does to one row

  /** How a new record is stored: the collection gate, of the phase if there is one, goes before the guarantee. */
  function NewRecord(org: nat, placement: nat, phase: Option<nat>, invoiceCollected: bool, insideWindow: bool): Record {
    var reason :=
      if !invoiceCollected then Some(if phase.Some? then PhaseInvoice else CollectionGate)
      else if insideWindow then Some(GuaranteeHold)
      else None;
    Record(org, placement, phase, if reason.Some? then Held else Accrued, reason)
  }

  predicate HeldFor(r: Record, reason: HoldReason) {
    r.status == Held && r.holdReason == Some(reason)
  }

  predicate AwaitsPhase(r: Record, org: nat, phase: nat) {
    r.org == org && r.phase == Some(phase) && HeldFor(r, PhaseInvoice)
  }

  predicate Linked(run: CommissionRun, i: nat) {
    exists k | 0 <= k < |run.links| :: run.links[k].record == i
  }

  predicate IsRunOf(b: Books, org: nat, run: nat) {
    run < |b.runs| && b.runs[run].org == org
  }

  predicate ActivePeriodOf(b: Books, k: nat, r: Record) {
    && k < |b.periods| && b.periods[k].status == Active
    && b.periods[k].org == r.org && b.periods[k].placement == r.placement
  }

  function Freed(r: Record): Record {
    r.(status := Payable, holdReason := None)
  }

  /** The record at `i` after a call. */
  function Touched(b: Books, op: Op, i: nat): Record
    requires i < |b.records|
  {
    var r := b.records[i];
    match op
    case ApproveRecord(org, run, record) =>
      if i == record && r.org == org && r.status == Accrued && IsRunOf(b, org, run) && Linked(b.runs[run], i)
      then r.(status := PendingApproval) else r
    case ApproveRun(org, run) =>
      if IsRunOf(b, org, run) && b.runs[run].status == Open && Linked(b.runs[run], i)
         && r.org == org && r.status in {Accrued, PendingApproval}
      then r.(status := Approved) else r
    case ReleaseCollection(org, placement) =>
      if r.org == org && r.placement == placement && HeldFor(r, CollectionGate) then Freed(r) else r
    case ReleasePhase(org, phase, _) => if AwaitsPhase(r, org, phase) then Freed(r) else r
    case Expire(k) => if ActivePeriodOf(b, k, r) && HeldFor(r, GuaranteeHold) then Freed(r) else r
    case Trigger(k) =>
      if ActivePeriodOf(b, k, r) && r.status in {Held, Payable, Accrued, PendingApproval}
      then r.(status := ClawbackInitiated, holdReason := Some(ClawbackHold)) else r
    case _ => r
  }

  function TouchedAll(b: Books, op: Op): seq<Record> {
    seq(|b.records|, i requires 0 <= i < |b.records| => Touched(b, op, i))
  }

  /** The ids, in order, of the records that wait for the invoice of a phase. */
  function Awaiting(records: seq<Record>, org: nat, phase: nat): seq<nat> {
    if records == [] then [] else
      var n := |records| - 1;
      Awaiting(records[..n], org, phase) + if AwaitsPhase(records[n], org, phase) then [n] else []
  }

  function JournalOf(ids: seq<nat>, org: nat, phase: nat, invoice: nat): seq<JournalRow> {
    seq(|ids|, i requires 0 <= i < |ids| => JournalRow(org, ids[i], phase, Held, Payable, invoice))
  }

  /** The links of a new run: an id given twice is linked once, and a record that does not exist stops the loop. */
  function LinksFor(known: nat, ids: seq<nat>, links: seq<Link>): seq<Link> {
    if ids == [] || ids[0] >= known then links
    else LinksFor(known, ids[1..], WithLink(links, ids[0]))
  }

  function WithLink(links: seq<Link>, id: nat): seq<Link> {
    if exists k | 0 <= k < |links| :: links[k].record == id then links else links + [Link(id, false)]
  }

  function ApprovedLinks(links: seq<Link>, record: nat): seq<Link> {
    seq(|links|, k requires 0 <= k < |links| =>
      if links[k].record == record then links[k].(individuallyApproved := true) else links[k])
  }

  function Apply(b: Books, op: Op): Books {
    var b' := b.(records := TouchedAll(b, op));
    match op
    case AddRecord(org, placement, phase, collected, inside) =>
      b'.(records := b'.records + [NewRecord(org, placement, phase, collected, inside)])
    case AddPeriod(org, placement) => b'.(periods := b.periods + [Period(org, placement, Active)])
    case CreateRun(org, ids) => b'.(runs := b.runs + [CommissionRun(org, Open, LinksFor(|b.records|, ids, []))])
    case ApproveRecord(org, run, record) =>
      if !IsRunOf(b, org, run) then b'
      else b'.(runs := b.runs[run := b.runs[run].(links := ApprovedLinks(b.runs[run].links, record))])
    case ApproveRun(org, run) =>
      if !IsRunOf(b, org, run) || b.runs[run].status != Open then b'
      else b'.(runs := b.runs[run := b.runs[run].(status := RunApproved)])
    case ReleasePhase(org, phase, invoice) =>
      b'.(journal := b.journal + JournalOf(Awaiting(b.records, org, phase), org, phase, invoice))
    case Expire(k) => b'.(periods := Resolved(b.periods, k, ExpiredClean))
    case Trigger(k) => b'.(periods := Resolved(b.periods, k, Triggered))
    case _ => b'
  }

  function Resolved(periods: seq<Period>, k: nat, status: PeriodStatus): seq<Period> {
    if k < |periods| && periods[k].status == Active then periods[k := periods[k].(status := status)] else periods
  }

  function Run(b: Books, ops: seq<Op>): Books
    decreases |ops|
  {
    if ops == [] then b else Run(Apply(b, ops[0]), ops[1..])
  }

  // ---------------------------------------------------------------- the invariant

  ghost predicate ReasonFits(r: Record) {
    && (r.status == Held <==> r.holdReason in {Some(CollectionGate), Some(GuaranteeHold), Some(PhaseInvoice)})
    && (r.status == ClawbackInitiated <==> r.holdReason == Some(ClawbackHold))
    && (r.status !in {Held, ClawbackInitiated} <==> r.holdReason == None)
    && r.status !in {Paid, Recovered}
    && (r.holdReason == Some(PhaseInvoice) ==> r.phase.Some?)
  }

  /** The record is linked to an approved run of its organisation. */
  ghost predicate InApprovedRun(b: Books, i: nat)
    requires i < |b.records|
  {
    exists k | 0 <= k < |b.runs| ::
      b.runs[k].status == RunApproved && b.runs[k].org == b.records[i].org && Linked(b.runs[k], i)
  }

  /** The links of every run name records that exist. */
  ghost predicate LinksExist(b: Books) {
    forall k | 0 <= k < |b.runs| :: LinksWithin(b.runs[k].links, |b.records|)
  }

  ghost predicate LinksWithin(links: seq<Link>, known: nat) {
    forall j | 0 <= j < |links| :: links[j].record < known
  }

  ghost predicate RecordOk(b: Books, i: nat)
    requires i < |b.records|
  {
    && ReasonFits(b.records[i])
    && (b.records[i].status == Approved ==> InApprovedRun(b, i))
    && (b.records[i].status in {Accrued, PendingApproval} ==> !InApprovedRun(b, i))
  }

  ghost predicate Inv(b: Books) {
    LinksExist(b) && forall i | 0 <= i < |b.records| :: RecordOk(b, i)
  }

  lemma {:induction false} LinkedAfterApproval(links: seq<Link>, org: nat, status: RunStatus, record: nat, i: nat)
    ensures Linked(CommissionRun(org, status, ApprovedLinks(links, record)), i) ==
      Linked(CommissionRun(org, status, links), i)
  {
    var after := ApprovedLinks(links, record);
    assert forall k | 0 <= k < |links| :: after[k].record == links[k].record;
  }

  /** A step leaves the approved runs and what they link as they were, or approves one open run. */
  lemma {:induction false} ApprovedRunsAfter(b: Books, op: Op, i: nat)
    requires i < |b.records|
    ensures |Apply(b, op).records| >= |b.records| && Apply(b, op).records[i].org == b.records[i].org
    ensures InApprovedRun(Apply(b, op), i) <==>
      || InApprovedRun(b, i)
      || (op.ApproveRun? && IsRunOf(b, op.org, op.run) && b.runs[op.run].status == Open
          && op.org == b.records[i].org && Linked(b.runs[op.run], i))
  {
    var b' := Apply(b, op);
    assert b'.records[i].org == b.records[i].org;
    if op.ApproveRecord? && IsRunOf(b, op.org, op.run) {
      var run := b.runs[op.run];
      LinkedAfterApproval(run.links, run.org, run.status, op.record, i);
      assert b'.runs[op.run] == CommissionRun(run.org, run.status, ApprovedLinks(run.links, op.record));
    }
    if op.ApproveRun? && IsRunOf(b, op.org, op.run) && b.runs[op.run].status == Open {
      assert Linked(b'.runs[op.run], i) == Linked(b.runs[op.run], i);
    }
    forall k | 0 <= k < |b.runs|
      ensures k < |b'.runs| && b'.runs[k].org == b.runs[k].org && Linked(b'.runs[k], i) == Linked(b.runs[k], i)
      ensures b'.runs[k].status == b.runs[k].status || (op.ApproveRun? && k == op.run)
    {
    }
  }

  lemma {:induction false} NewLinksExist(known: nat, ids: seq<nat>, links: seq<Link>)
    requires LinksWithin(links, known)
    ensures LinksWithin(LinksFor(known, ids, links), known)
    decreases |ids|
  {
    if ids != [] && ids[0] < known {
      NewLinksExist(known, ids[1..], WithLink(links, ids[0]));
    }
  }

  lemma {:induction false} StepKeepsLinks(b: Books, op: Op)
    requires LinksExist(b)
    ensures LinksExist(Apply(b, op))
  {
    if op.CreateRun? {
      NewLinksExist(|b.records|, op.ids, []);
    }
    var b' := Apply(b, op);
    forall k | 0 <= k < |b'.runs|
      ensures LinksWithin(b'.runs[k].links, |b'.records|)
    {
      assert k < |b.runs| ==> LinksWithin(b.runs[k].links, |b.records|);
    }
  }

  lemma {:induction false} StepKeepsOld(b: Books, op: Op, i: nat)
    requires i < |b.records| && RecordOk(b, i)
    ensures i < |Apply(b, op).records| && Apply(b, op).records[i] == Touched(b, op, i)
    ensures RecordOk(Apply(b, op), i)
  {
    ApprovedRunsAfter(b, op, i);
  }

  lemma {:induction false} StepKeepsNew(b: Books, op: Op)
    requires LinksExist(b) && op.AddRecord?
    ensures |Apply(b, op).records| == |b.records| + 1 && RecordOk(Apply(b, op), |b.records|)
  {
    forall k | 0 <= k < |b.runs|
      ensures !Linked(b.runs[k], |b.records|)
    {
      assert LinksWithin(b.runs[k].links, |b.records|);
    }
  }

  lemma {:induction false} StepKeeps(b: Books, op: Op)
    requires Inv(b)
    ensures Inv(Apply(b, op))
  {
    StepKeepsLinks(b, op);
    if op.AddRecord? {
      StepKeepsNew(b, op);
    }
    forall i | 0 <= i < |Apply(b, op).records|
      ensures RecordOk(Apply(b, op), i)
    {
      if i < |b.records| {
        StepKeepsOld(b, op, i);
      }
    }
  }

  lemma {:induction false} RunKeeps(b: Books, ops: seq<Op>)
    requires Inv(b)
    ensures Inv(Run(b, ops))
    decreases |ops|
  {
    if ops != [] {
      StepKeeps(b, ops[0]);
      RunKeeps(Apply(b, ops[0]), ops[1..]);
    }
  }

  // ---------------------------------------------------------------- main results: status

  /** In every run the hold reason says exactly why a record is held or clawed back, and is null otherwise. */
  lemma {:induction false} ReasonsFit(ops: seq<Op>, i: nat)
    requires i < |Run(EMPTY, ops).records|
    ensures var r := Run(EMPTY, ops).records[i];
      && (r.status == Held <==> r.holdReason in {Some(CollectionGate), Some(GuaranteeHold), Some(PhaseInvoice)})
      && (r.status == ClawbackInitiated <==> r.holdReason == Some(ClawbackHold))
      && (r.status !in {Held, ClawbackInitiated} <==> r.holdReason == None)
      && (r.holdReason == Some(PhaseInvoice) ==> r.phase.Some?)
  {
    RunKeeps(EMPTY, ops);
    assert RecordOk(Run(EMPTY, ops), i);
  }

  /**
   In every run an approved record is in an approved run of its organisation, and no record of such a run
   still waits for approval.
   */
  lemma {:induction false} ApprovalFits(ops: seq<Op>, i: nat)
    requires i < |Run(EMPTY, ops).records|
    ensures var b := Run(EMPTY, ops);
      var inApprovedRun := exists k, j | 0 <= k < |b.runs| && 0 <= j < |b.runs[k].links| ::
        b.runs[k].status == RunApproved && b.runs[k].org == b.records[i].org && b.runs[k].links[j].record == i;
      && (b.records[i].status == Approved ==> inApprovedRun)
      && (inApprovedRun ==> b.records[i].status !in {Accrued, PendingApproval})
  {
    RunKeeps(EMPTY, ops);
    var b := Run(EMPTY, ops);
    assert RecordOk(b, i);
    if b.records[i].status == Approved {
      var k :| 0 <= k < |b.runs| && b.runs[k].status == RunApproved && b.runs[k].org == b.records[i].org
        && Linked(b.runs[k], i);
      var j :| 0 <= j < |b.runs[k].links| && b.runs[k].links[j].record == i;
    } else if b.records[i].status in {Accrued, PendingApproval} {
      forall k, j | 0 <= k < |b.runs| && 0 <= j < |b.runs[k].links| && b.runs[k].links[j].record == i
        ensures !(b.runs[k].status == RunApproved && b.runs[k].org == b.records[i].org)
      {
        assert Linked(b.runs[k], i);
      }
    }
  }

  /** Calls only add records and periods. */
  lemma {:induction false} StepOnlyAdds(b: Books, op: Op)
    ensures |b.records| <= |Apply(b, op).records|
    ensures forall i | 0 <= i < |b.records| :: Apply(b, op).records[i] == Touched(b, op, i)
    ensures |b.periods| <= |Apply(b, op).periods|
    ensures forall k | 0 <= k < |b.periods| && b.periods[k].status != Active :: Apply(b, op).periods[k] == b.periods[k]
  {
  }

  /** Whatever runs later, an approved or clawed-back record is never changed again. */
  lemma {:induction false} FinalForever(b: Books, ops: seq<Op>, i: nat)
    requires i < |b.records| && b.records[i].status in {Approved, ClawbackInitiated}
    ensures i < |Run(b, ops).records| && Run(b, ops).records[i] == b.records[i]
    decreases |ops|
  {
    if ops != [] {
      StepOnlyAdds(b, ops[0]);
      FinalForever(Apply(b, ops[0]), ops[1..], i);
    }
  }

  /** A guarantee period is resolved once: expired or triggered, it stays so. */
  lemma {:induction false} ResolvedForever(b: Books, ops: seq<Op>, k: nat)
    requires k < |b.periods| && b.periods[k].status != Active
    ensures k < |Run(b, ops).periods| && Run(b, ops).periods[k] == b.periods[k]
    decreases |ops|
  {
    if ops != [] {
      StepOnlyAdds(b, ops[0]);
      ResolvedForever(Apply(b, ops[0]), ops[1..], k);
    }
  }

  /** How many changes a status still has before it. */
  function Rank(s: Status): nat {
    match s
    case Accrued => 2
    case Held => 2
    case PendingApproval => 1
    case Payable => 1
    case _ => 0
  }

  /** How often the status of record `i` changes while `ops` run. */
  function Changes(b: Books, ops: seq<Op>, i: nat): nat
    requires i < |b.records|
    decreases |ops|
  {
    if ops == [] then 0
    else
      StepOnlyAdds(b, ops[0]);
      var b' := Apply(b, ops[0]);
      (if b'.records[i].status != b.records[i].status then 1 else 0) + Changes(b', ops[1..], i)
  }

  /** Every record changes its status at most twice. */
  lemma {:induction false} AtMostTwoChanges(b: Books, ops: seq<Op>, i: nat)
    requires i < |b.records|
    ensures Changes(b, ops, i) <= Rank(b.records[i].status) <= 2
    decreases |ops|
  {
    if ops != [] {
      StepOnlyAdds(b, ops[0]);
      AtMostTwoChanges(Apply(b, ops[0]), ops[1..], i);
    }
  }

  // ---------------------------------------------------------------- main results: the journal

  /** The step takes record `i` from waiting for its phase invoice to payable. */
  predicate FreedByPhase(b: Books, op: Op, i: nat)
    requires i < |b.records|
  {
    HeldFor(b.records[i], PhaseInvoice) && Touched(b, op, i).status == Payable
  }

  function TimesFreed(b: Books, ops: seq<Op>, i: nat): nat
    requires i < |b.records|
    decreases |ops|
  {
    if ops == [] then 0
    else
      StepOnlyAdds(b, ops[0]);
      (if FreedByPhase(b, ops[0], i) then 1 else 0) + TimesFreed(Apply(b, ops[0]), ops[1..], i)
  }

  function RowsFor(journal: seq<JournalRow>, i: nat): nat {
    if journal == [] then 0
    else RowsFor(journal[..|journal| - 1], i) + if journal[|journal| - 1].record == i then 1 else 0
  }

  function RowsOfPhase(journal: seq<JournalRow>, org: nat, phase: nat): nat {
    if journal == [] then 0
    else
      var last := journal[|journal| - 1];
      RowsOfPhase(journal[..|journal| - 1], org, phase) + if last.org == org && last.phase == phase then 1 else 0
  }

  lemma {:induction false} RowsForAppend(a: seq<JournalRow>, b: seq<JournalRow>, i: nat)
    ensures RowsFor(a + b, i) == RowsFor(a, i) + RowsFor(b, i)
  {
    if b == [] {
      assert a + b == a;
    } else {
      assert (a + b)[..|a + b| - 1] == a + b[..|b| - 1];
      RowsForAppend(a, b[..|b| - 1], i);
    }
  }

  lemma {:induction false} RowsOfPhaseAppend(a: seq<JournalRow>, b: seq<JournalRow>, org: nat, phase: nat)
    ensures RowsOfPhase(a + b, org, phase) == RowsOfPhase(a, org, phase) + RowsOfPhase(b, org, phase)
  {
    if b == [] {
      assert a + b == a;
    } else {
      assert (a + b)[..|a + b| - 1] == a + b[..|b| - 1];
      RowsOfPhaseAppend(a, b[..|b| - 1], org, phase);
    }
  }

  lemma {:induction false} JournalOfAwaiting(records: seq<Record>, org: nat, phase: nat, invoice: nat, i: nat)
    ensures RowsFor(JournalOf(Awaiting(records, org, phase), org, phase, invoice), i) ==
      if i < |records| && AwaitsPhase(records[i], org, phase) then 1 else 0
  {
    if records != [] {
      var n := |records| - 1;
      JournalOfAwaiting(records[..n], org, phase, invoice, i);
      var before := Awaiting(records[..n], org, phase);
      if AwaitsPhase(records[n], org, phase) {
        var row := JournalRow(org, n, phase, Held, Payable, invoice);
        assert JournalOf(before + [n], org, phase, invoice) == JournalOf(before, org, phase, invoice) + [row];
        RowsForAppend(JournalOf(before, org, phase, invoice), [row], i);
      } else {
        assert before + [] == before;
      }
    }
  }

  lemma {:induction false} AwaitingWithin(records: seq<Record>, org: nat, phase: nat)
    ensures forall k | 0 <= k < |Awaiting(records, org, phase)| :: Awaiting(records, org, phase)[k] < |records|
  {
    if records != [] {
      AwaitingWithin(records[..|records| - 1], org, phase);
    }
  }

  /** One call writes a row for a record exactly when it frees the record from its phase gate. */
  lemma {:induction false} StepJournals(b: Books, op: Op, i: nat)
    requires i < |b.records|
    ensures RowsFor(Apply(b, op).journal, i) == RowsFor(b.journal, i) + if FreedByPhase(b, op, i) then 1 else 0
  {
    if op.ReleasePhase? {
      JournalOfAwaiting(b.records, op.org, op.phase, op.invoice, i);
      RowsForAppend(b.journal, JournalOf(Awaiting(b.records, op.org, op.phase), op.org, op.phase, op.invoice), i);
    }
  }

  /** Over any calls the journal gains one row for a record each time it is freed, and that happens at most once. */
  lemma {:induction false} JournalMatchesReleases(b: Books, ops: seq<Op>, i: nat)
    requires i < |b.records|
    ensures RowsFor(Run(b, ops).journal, i) == RowsFor(b.journal, i) + TimesFreed(b, ops, i)
    ensures TimesFreed(b, ops, i) <= if HeldFor(b.records[i], PhaseInvoice) then 1 else 0
    decreases |ops|
  {
    if ops != [] {
      StepOnlyAdds(b, ops[0]);
      StepJournals(b, ops[0], i);
      JournalMatchesReleases(Apply(b, ops[0]), ops[1..], i);
    }
  }

  /** The journal never names a record that does not exist yet: a new record starts without rows. */
  ghost predicate JournalWithin(b: Books) {
    forall k | 0 <= k < |b.journal| :: b.journal[k].record < |b.records|
  }

  lemma {:induction false} RunJournalWithin(b: Books, ops: seq<Op>)
    requires JournalWithin(b)
    ensures JournalWithin(Run(b, ops))
    decreases |ops|
  {
    if ops != [] {
      StepOnlyAdds(b, ops[0]);
      if ops[0].ReleasePhase? {
        AwaitingWithin(b.records, ops[0].org, ops[0].phase);
      }
      RunJournalWithin(Apply(b, ops[0]), ops[1..]);
    }
  }

  lemma {:induction false} NoRows(journal: seq<JournalRow>, i: nat)
    requires forall k | 0 <= k < |journal| :: journal[k].record < i
    ensures RowsFor(journal, i) == 0
  {
    if journal != [] {
      NoRows(journal[..|journal| - 1], i);
    }
  }

  /**
   In every run, from the moment a record is stored: it has as many journal rows as it has left its
   phase gate for payable, which is once at most.
   */
  lemma {:induction false} OneJournalRowPerRelease(before: seq<Op>, add: Op, after: seq<Op>)
    requires add.AddRecord?
    ensures var b := Apply(Run(EMPTY, before), add);
      var i := |Run(EMPTY, before).records|;
      && i < |b.records|
      && RowsFor(Run(b, after).journal, i) == TimesFreed(b, after, i) <= 1
  {
    var b0 := Run(EMPTY, before);
    RunJournalWithin(EMPTY, before);
    NoRows(b0.journal, |b0.records|);
    JournalMatchesReleases(Apply(b0, add), after, |b0.records|);
  }

  /** What a call reports as released for a phase. */
  function Released(b: Books, op: Op, org: nat, phase: nat): nat {
    if op.ReleasePhase? && op.org == org && op.phase == phase then |Awaiting(b.records, org, phase)| else 0
  }

  function ReleasedSum(b: Books, ops: seq<Op>, org: nat, phase: nat): nat
    decreases |ops|
  {
    if ops == [] then 0 else Released(b, ops[0], org, phase) + ReleasedSum(Apply(b, ops[0]), ops[1..], org, phase)
  }

  lemma {:induction false} RowsOfPhaseAll(ids: seq<nat>, o: nat, p: nat, invoice: nat, org: nat, phase: nat)
    ensures RowsOfPhase(JournalOf(ids, o, p, invoice), org, phase) == if o == org && p == phase then |ids| else 0
  {
    if ids != [] {
      var n := |ids| - 1;
      assert JournalOf(ids, o, p, invoice)[..n] == JournalOf(ids[..n], o, p, invoice);
      RowsOfPhaseAll(ids[..n], o, p, invoice, org, phase);
    }
  }

  /** Over any calls the counts returned for a phase sum to the journal rows written for it. */
  lemma {:induction false} CountsMatchJournal(b: Books, ops: seq<Op>, org: nat, phase: nat)
    ensures RowsOfPhase(Run(b, ops).journal, org, phase) ==
      RowsOfPhase(b.journal, org, phase) + ReleasedSum(b, ops, org, phase)
    decreases |ops|
  {
    if ops != [] {
      var op := ops[0];
      if op.ReleasePhase? {
        var ids := Awaiting(b.records, op.org, op.phase);
        RowsOfPhaseAll(ids, op.org, op.phase, op.invoice, org, phase);
        RowsOfPhaseAppend(b.journal, JournalOf(ids, op.org, op.phase, op.invoice), org, phase);
      }
      CountsMatchJournal(Apply(b, op), ops[1..], org, phase);
    }
  }

  ghost predicate NoneAwait(b: Books, org: nat, phase: nat) {
    forall i | 0 <= i < |b.records| :: !AwaitsPhase(b.records[i], org, phase)
  }

  lemma {:induction false} NoneAwaiting(records: seq<Record>, org: nat, phase: nat)
    requires forall i | 0 <= i < |records| :: !AwaitsPhase(records[i], org, phase)
    ensures Awaiting(records, org, phase) == []
  {
    if records != [] {
      NoneAwaiting(records[..|records| - 1], org, phase);
    }
  }

  lemma {:induction false} NoneAwaitLater(b: Books, ops: seq<Op>, org: nat, phase: nat)
    requires NoneAwait(b, org, phase)
    requires forall k | 0 <= k < |ops| ::
      !(ops[k].AddRecord? && ops[k].org == org && ops[k].billingPhase == Some(phase))
    ensures NoneAwait(Run(b, ops), org, phase)
    decreases |ops|
  {
    if ops != [] {
      StepOnlyAdds(b, ops[0]);
      assert !(ops[0].AddRecord? && ops[0].org == org && ops[0].billingPhase == Some(phase));
      NoneAwaitLater(Apply(b, ops[0]), ops[1..], org, phase);
    }
  }

  /**
   After a release of a phase, a second one reports nothing, whatever ran between, unless a record was added to
   the phase.
   */
  lemma {:induction false} SecondReleaseIsEmpty(b: Books, org: nat, phase: nat, invoice: nat, between: seq<Op>)
    requires forall k | 0 <= k < |between| ::
      !(between[k].AddRecord? && between[k].org == org && between[k].billingPhase == Some(phase))
    ensures Awaiting(Run(Apply(b, ReleasePhase(org, phase, invoice)), between).records, org, phase) == []
  {
    var b1 := Apply(b, ReleasePhase(org, phase, invoice));
    NoneAwaitLater(b1, between, org, phase);
    NoneAwaiting(Run(b1, between).records, org, phase);
  }

  /** The three gates open only their own records, and none opens a record that another holds. */
  lemma {:induction false} GatesAreSeparate(b: Books, op: Op, i: nat)
    requires i < |b.records| && b.records[i].status == Held
    requires i < |Apply(b, op).records| && Apply(b, op).records[i].status == Payable
    ensures b.records[i].holdReason.Some?
    ensures match b.records[i].holdReason.value
      case CollectionGate =>
        op.ReleaseCollection? && op.org == b.records[i].org && op.placement == b.records[i].placement
      case PhaseInvoice => op.ReleasePhase? && op.org == b.records[i].org && b.records[i].phase == Some(op.phase)
      case GuaranteeHold =>
        && op.Expire? && op.period < |b.periods| && b.periods[op.period].status == Active
        && b.periods[op.period].org == b.records[i].org && b.periods[op.period].placement == b.records[i].placement
      case ClawbackHold => false
  {
    assert Apply(b, op).records[i] == Touched(b, op, i);
  }

  lemma {:induction false} OtherPlacementStays(b: Books, op: Op, i: nat)
    requires i < |b.records|
    requires (op.Expire? || op.Trigger?) && op.period < |b.periods|
    requires b.periods[op.period].org != b.records[i].org || b.periods[op.period].placement != b.records[i].placement
    ensures i < |Apply(b, op).records| && Apply(b, op).records[i] == b.records[i]
  {
  }

  /**
   Calls for other organisations, placements and phases leave a record alone, in any number and order: no
   expiry or clawback of another placement's period reaches it, and no release or approval does.
   */
  lemma {:induction false} OthersLeaveAlone(b: Books, ops: seq<Op>, i: nat)
    requires i < |b.records|
    requires forall n | 0 <= n < |ops| && (ops[n].Expire? || ops[n].Trigger?) ::
      ops[n].period < |b.periods| && (b.periods[ops[n].period].org != b.records[i].org
                                      || b.periods[ops[n].period].placement != b.records[i].placement)
    requires forall n | 0 <= n < |ops| && ops[n].ReleaseCollection? ::
      ops[n].org != b.records[i].org || ops[n].placement != b.records[i].placement
    requires forall n | 0 <= n < |ops| && ops[n].ReleasePhase? ::
      ops[n].org != b.records[i].org || Some(ops[n].phase) != b.records[i].phase
    requires forall n | 0 <= n < |ops| && ops[n].ApproveRecord? :: ops[n].org != b.records[i].org || ops[n].record != i
    requires forall n | 0 <= n < |ops| && ops[n].ApproveRun? :: ops[n].org != b.records[i].org
    ensures i < |Run(b, ops).records| && Run(b, ops).records[i] == b.records[i]
    decreases |ops|
  {
    if ops != [] {
      var op := ops[0];
      var b' := Apply(b, op);
      if op.Expire? || op.Trigger? {
        OtherPlacementStays(b, op, i);
      }
      PeriodsKeepPlacement(b, op);
      assert b'.records[i] == b.records[i];
      assert forall n | 0 <= n < |ops[1..]| :: ops[1..][n] == ops[n + 1];
      OthersLeaveAlone(b', ops[1..], i);
    }
  }

  lemma {:induction false} PeriodsKeepPlacement(b: Books, op: Op)
    ensures |b.periods| <= |Apply(b, op).periods|
    ensures forall k | 0 <= k < |b.periods| ::
      Apply(b, op).periods[k].org == b.periods[k].org && Apply(b, op).periods[k].placement == b.periods[k].placement
  {
  }

  /** The record has the state of the calculated row; under a phase the collection gate has the phase's own name. */
  lemma {:induction false} StoredAsCalculated(p: Engine.Placement, c: Engine.Contributor, collected: bool, inside: bool,
                           org: nat, placement: nat, phase: Option<nat>)
    requires Engine.RowFor(p, c, collected, inside).Ok?
    ensures var row := Engine.RowFor(p, c, collected, inside).value;
      NewRecord(org, placement, phase, collected, inside) == Record(org, placement, phase, row.status,
        if phase.Some? && row.holdReason == Some(CollectionGate) then Some(PhaseInvoice) else row.holdReason)
  {
  }

  function Additions(n: nat, org: nat, placement: nat, phase: Option<nat>, collected: bool, inside: bool): seq<Op> {
    if n == 0 then []
    else
      [AddRecord(org, placement, phase, collected, inside)]
      + Additions(n - 1, org, placement, phase, collected, inside)
  }

  lemma {:induction false} AdditionsAppend(
    b: Books, n: nat, org: nat, placement: nat, phase: Option<nat>, collected: bool, inside: bool)
    ensures var b' := Run(b, Additions(n, org, placement, phase, collected, inside));
      && b'.records == b.records + seq(n, _ => NewRecord(org, placement, phase, collected, inside))
      && b'.runs == b.runs && b'.periods == b.periods && b'.journal == b.journal
    decreases n
  {
    var r := NewRecord(org, placement, phase, collected, inside);
    if n == 0 {
      assert b.records + seq(0, _ => r) == b.records;
    } else {
      var op := AddRecord(org, placement, phase, collected, inside);
      assert TouchedAll(b, op) == b.records;
      AdditionsAppend(Apply(b, op), n - 1, org, placement, phase, collected, inside);
      assert Additions(n, org, placement, phase, collected, inside)[1..] ==
        Additions(n - 1, org, placement, phase, collected, inside);
      assert [r] + seq(n - 1, _ => r) == seq(n, _ => r);
      assert b.records + [r] + seq(n - 1, _ => r) == b.records + ([r] + seq(n - 1, _ => r));
    }
  }

  /** The rows that the calculation of a placement stores are records added one by one, in the calculated states. */
  lemma {:induction false} CalculationFillsLedger(
    b: Books, p: Engine.Placement, cs: seq<Engine.Contributor>, rows: seq<Engine.Row>,
    collected: bool, inside: bool, org: nat, placement: nat, phase: Option<nat>)
    requires |rows| <= |cs| && forall k | 0 <= k < |rows| :: Engine.RowFor(p, cs[k], collected, inside) == Ok(rows[k])
    ensures var b' := Run(b, Additions(|rows|, org, placement, phase, collected, inside));
      && |b'.records| == |b.records| + |rows| && b'.records[..|b.records|] == b.records
      && forall k | 0 <= k < |rows| ::
           b'.records[|b.records| + k] == Record(org, placement, phase, rows[k].status,
             if phase.Some? && rows[k].holdReason == Some(CollectionGate) then Some(PhaseInvoice)
             else rows[k].holdReason)
  {
    AdditionsAppend(b, |rows|, org, placement, phase, collected, inside);
    forall k | 0 <= k < |rows|
      ensures NewRecord(org, placement, phase, collected, inside) == Record(org, placement, phase, rows[k].status,
        if phase.Some? && rows[k].holdReason == Some(CollectionGate) then Some(PhaseInvoice) else rows[k].holdReason)
    {
      StoredAsCalculated(p, cs[k], collected, inside, org, placement, phase);
    }
  }

  // ---------------------------------------------------------------- the tables

  lemma {:induction false} AwaitingMembers(records: seq<Record>, org: nat, phase: nat)
    ensures forall i ::
      i in Awaiting(records, org, phase) <==> 0 <= i < |records| && AwaitsPhase(records[i], org, phase)
  {
    if records != [] {
      AwaitingMembers(records[..|records| - 1], org, phase);
    }
  }

  lemma {:induction false} AwaitingAscends(records: seq<Record>, org: nat, phase: nat, j: nat, k: nat)
    requires j < k < |Awaiting(records, org, phase)|
    ensures Awaiting(records, org, phase)[j] < Awaiting(records, org, phase)[k]
  {
    var n := |records| - 1;
    var front := Awaiting(records[..n], org, phase);
    AwaitingWithin(records[..n], org, phase);
    assert front[j] < n;
    if k < |front| {
      AwaitingAscends(records[..n], org, phase, j, k);
    }
  }

  lemma {:induction false} JournalNext(ids: seq<nat>, k: nat, org: nat, phase: nat, invoice: nat)
    requires k < |ids|
    ensures JournalOf(ids[..k + 1], org, phase, invoice) ==
      JournalOf(ids[..k], org, phase, invoice) + [JournalRow(org, ids[k], phase, Held, Payable, invoice)]
  {
  }

  /** The update of the listed rows. */
  function FreedAll(records: seq<Record>, org: nat, ids: seq<nat>): seq<Record> {
    seq(|records|, i requires 0 <= i < |records| =>
      if i in ids && records[i].org == org then Freed(records[i]) else records[i])
  }

  lemma {:induction false} FreedAre(b: Books, org: nat, phase: nat, invoice: nat)
    ensures FreedAll(b.records, org, Awaiting(b.records, org, phase)) ==
      TouchedAll(b, ReleasePhase(org, phase, invoice))
    ensures Awaiting(b.records, org, phase) == [] ==> TouchedAll(b, ReleasePhase(org, phase, invoice)) == b.records
  {
    AwaitingMembers(b.records, org, phase);
    var ids := Awaiting(b.records, org, phase);
    forall i | 0 <= i < |b.records|
      ensures FreedAll(b.records, org, ids)[i] == Touched(b, ReleasePhase(org, phase, invoice), i)
    {
      assert i in ids <==> AwaitsPhase(b.records[i], org, phase);
    }
  }

  /** A release frees exactly the records that wait for the phase and writes one row for each. */
  lemma {:induction false} ReleaseOnFields(b: Books, org: nat, phase: nat, invoice: nat)
    ensures var b' := Apply(b, ReleasePhase(org, phase, invoice));
      && |b'.records| == |b.records| && b.journal <= b'.journal
      && (forall i | 0 <= i < |b.records| ::
            var r := b.records[i];
            b'.records[i] ==
              if r.org == org && r.phase == Some(phase) && r.status == Held && r.holdReason == Some(PhaseInvoice)
              then r.(status := Payable, holdReason := None) else r)
      && (forall n | |b.journal| <= n < |b'.journal| ::
            && b'.journal[n].record < |b.records|
            && b'.records[b'.journal[n].record] != b.records[b'.journal[n].record]
            && b'.journal[n] == JournalRow(org, b'.journal[n].record, phase, Held, Payable, invoice))
      && (forall m, n | |b.journal| <= m < n < |b'.journal| :: b'.journal[m].record != b'.journal[n].record)
      && (forall i | 0 <= i < |b.records| && b'.records[i] != b.records[i] ::
            exists n | |b.journal| <= n < |b'.journal| :: b'.journal[n].record == i)
  {
    var b' := Apply(b, ReleasePhase(org, phase, invoice));
    var ids := Awaiting(b.records, org, phase);
    AwaitingMembers(b.records, org, phase);
    assert forall n | |b.journal| <= n < |b'.journal| :: b'.journal[n].record == ids[n - |b.journal|];
    forall m, n | |b.journal| <= m < n < |b'.journal|
      ensures b'.journal[m].record != b'.journal[n].record
    {
      AwaitingAscends(b.records, org, phase, m - |b.journal|, n - |b.journal|);
    }
    forall n | |b.journal| <= n < |b'.journal|
      ensures b'.journal[n].record < |b.records|
      ensures b'.records[b'.journal[n].record] != b.records[b'.journal[n].record]
    {
      assert ids[n - |b.journal|] in ids;
    }
    forall i | 0 <= i < |b.records| && b'.records[i] != b.records[i]
      ensures exists n | |b.journal| <= n < |b'.journal| :: b'.journal[n].record == i
    {
      var m :| 0 <= m < |ids| && ids[m] == i;
      assert b'.journal[|b.journal| + m].record == i;
    }
  }

  /** No record is linked twice, and none is approved one by one yet. */
  ghost predicate LinksFresh(links: seq<Link>) {
    && (forall j, k | 0 <= j < k < |links| :: links[j].record != links[k].record)
    && forall k | 0 <= k < |links| :: !links[k].individuallyApproved
  }

  /** The links of a new run: the records up to the first id without one, each once. */
  lemma {:induction false} LinksInOrder(known: nat, ids: seq<nat>, links: seq<Link>, org: nat) returns (n: nat)
    requires LinksFresh(links)
    ensures n <= |ids| && (forall j | 0 <= j < n :: ids[j] < known) && (n < |ids| ==> ids[n] >= known)
    ensures LinksFresh(LinksFor(known, ids, links))
    ensures forall i: nat :: Linked(CommissionRun(org, Open, LinksFor(known, ids, links)), i) <==>
      i in ids[..n] || Linked(CommissionRun(org, Open, links), i)
    decreases |ids|
  {
    n := 0;
    if ids != [] && ids[0] < known {
      LinkedWith(links, ids[0], org);
      var m := LinksInOrder(known, ids[1..], WithLink(links, ids[0]), org);
      n := m + 1;
      assert ids[..n] == [ids[0]] + ids[1..][..m];
      assert forall j | 1 <= j < n :: ids[j] == ids[1..][j - 1];
    }
  }

  class LedgerTables {
    var records: seq<Record>
    var runs: seq<CommissionRun>
    var periods: seq<Period>
    var journal: seq<JournalRow>

    constructor ()
      ensures Snapshot() == EMPTY
    {
      records, runs, periods, journal := [], [], [], [];
    }

    function Snapshot(): Books
      reads this
    {
      Books(records, runs, periods, journal)
    }

    method CreateCommissionRecord(org: nat, placement: nat, phase: Option<nat>,
                                  invoiceCollected: bool, insideWindow: bool)
      returns (id: nat)
      modifies this`records
      ensures id == |old(records)|
      ensures records == old(records) + [Record(org, placement, phase,
        if invoiceCollected && !insideWindow then Accrued else Held,
        if !invoiceCollected then Some(if phase.Some? then PhaseInvoice else CollectionGate)
        else if insideWindow then Some(GuaranteeHold)
        else None)]
      ensures Snapshot() == Apply(old(Snapshot()), AddRecord(org, placement, phase, invoiceCollected, insideWindow))
    {
      id := |records|;
      assert TouchedAll(Snapshot(), AddRecord(org, placement, phase, invoiceCollected, insideWindow)) == records;
      records := records + [NewRecord(org, placement, phase, invoiceCollected, insideWindow)];
    }

    method CreateGuaranteePeriod(org: nat, placement: nat) returns (id: nat)
      modifies this`periods
      ensures id == |old(periods)| && periods == old(periods) + [Period(org, placement, Active)]
      ensures Snapshot() == Apply(old(Snapshot()), AddPeriod(org, placement))
    {
      id := |periods|;
      periods := periods + [Period(org, placement, Active)];
      assert TouchedAll(old(Snapshot()), AddPeriod(org, placement)) == records;
    }

    /** Links the records one by one.  An id without a record stops the loop with what was linked before it kept. */
    method CreateCommissionRun(org: nat, ids: seq<nat>) returns (run: nat, missing: Option<nat>)
      modifies this`runs
      ensures run == |old(runs)| && |runs| == run + 1 && runs[..run] == old(runs)
      ensures runs[run].org == org && runs[run].status == Open
      ensures missing.None? <==> forall k | 0 <= k < |ids| :: ids[k] < |records|
      ensures exists n | 0 <= n <= |ids| ::
        && (forall j | 0 <= j < n :: ids[j] < |records|)
        && (if n == |ids| then missing.None? else ids[n] >= |records| && missing == Some(ids[n]))
        && forall i: nat :: (exists k | 0 <= k < |runs[run].links| :: runs[run].links[k].record == i) <==> i in ids[..n]
      ensures forall j, k | 0 <= j < k < |runs[run].links| :: runs[run].links[j].record != runs[run].links[k].record
      ensures forall k | 0 <= k < |runs[run].links| :: !runs[run].links[k].individuallyApproved
      ensures Snapshot() == Apply(old(Snapshot()), CreateRun(org, ids))
    {
      run, missing := |runs|, None;
      runs := runs + [CommissionRun(org, Open, [])];
      var k := 0;
      while k < |ids|
        invariant 0 <= k <= |ids|
        invariant |runs| == run + 1 && runs[..run] == old(runs)
        invariant runs[run].org == org && runs[run].status == Open && missing.None?
        invariant LinksFor(|records|, ids[k..], runs[run].links) == LinksFor(|records|, ids, [])
        invariant forall j | 0 <= j < k :: ids[j] < |records|
      {
        if ids[k] >= |records| {
          missing := Some(ids[k]);
          break;
        }
        runs := runs[run := CommissionRun(org, Open, WithLink(runs[run].links, ids[k]))];
        k := k + 1;
      }
      var n := LinksInOrder(|records|, ids, [], org);
      assert TouchedAll(old(Snapshot()), CreateRun(org, ids)) == records;
    }

    /** Marks the link, then moves the record on if it is still accrued. */
    method ApproveRunRecord(org: nat, run: nat, record: nat) returns (found: bool)
      modifies this`runs, this`records
      ensures found <==>
        && run < |old(runs)| && old(runs)[run].org == org
        && exists k | 0 <= k < |old(runs)[run].links| :: old(runs)[run].links[k].record == record
      ensures found ==>
        && |runs| == |old(runs)|
        && runs == old(runs)[run := old(runs)[run].(links := runs[run].links)]
        && |runs[run].links| == |old(runs)[run].links|
        && forall k | 0 <= k < |runs[run].links| ::
             var l := old(runs)[run].links[k];
             runs[run].links[k] == if l.record == record then Link(record, true) else l
      ensures !found ==> Snapshot() == old(Snapshot())
      ensures Snapshot() == Apply(old(Snapshot()), ApproveRecord(org, run, record))
      ensures |records| == |old(records)|
      ensures forall i | 0 <= i < |records| ::
        var r := old(records)[i];
        records[i] ==
          if found && i == record && r.org == org && r.status == Accrued then r.(status := PendingApproval) else r
    {
      ghost var op := ApproveRecord(org, run, record);
      ghost var target := TouchedAll(Snapshot(), op);
      found := run < |runs| && runs[run].org == org && Linked(runs[run], record);
      if !found {
        assert target == records;
        if run < |runs| && runs[run].org == org {
          assert ApprovedLinks(runs[run].links, record) == runs[run].links;
          assert runs[run := runs[run].(links := ApprovedLinks(runs[run].links, record))] == runs;
        }
        return;
      }
      runs := runs[run := runs[run].(links := ApprovedLinks(runs[run].links, record))];
      if record < |records| && records[record].org == org && records[record].status == Accrued {
        records := records[record := records[record].(status := PendingApproval)];
      }
      assert records == target;
    }

    /** Closes the run, then approves its records that still wait. */
    method ApproveCommissionRun(org: nat, run: nat) returns (approved: bool)
      modifies this`runs, this`records
      ensures approved <==> run < |old(runs)| && old(runs)[run].org == org && old(runs)[run].status == Open
      ensures !approved ==> Snapshot() == old(Snapshot())
      ensures Snapshot() == Apply(old(Snapshot()), ApproveRun(org, run))
      ensures |records| == |old(records)|
      ensures approved ==> runs == old(runs)[run := old(runs)[run].(status := RunApproved)]
      ensures forall i | 0 <= i < |records| ::
        var r := old(records)[i];
        records[i] ==
          if approved && r.org == org && r.status in {Accrued, PendingApproval}
             && exists k | 0 <= k < |old(runs)[run].links| :: old(runs)[run].links[k].record == i
          then r.(status := Approved) else r
    {
      ghost var op := ApproveRun(org, run);
      ghost var target := TouchedAll(Snapshot(), op);
      approved := run < |runs| && runs[run].org == org && runs[run].status == Open;
      if !approved {
        assert target == records;
        return;
      }
      var closed := runs[run];
      runs := runs[run := closed.(status := RunApproved)];
      var before := records;
      records := seq(|before|, i requires 0 <= i < |before| =>
        if Linked(closed, i) && before[i].org == org && before[i].status in {Accrued, PendingApproval}
        then before[i].(status := Approved) else before[i]);
      assert records == target;
    }

    /** Whether some approved run of the organisation holds the record: then it must not be changed. */
    method IsCommissionRecordInApprovedRun(org: nat, record: nat) returns (held: bool)
      ensures held <==> exists k, j | 0 <= k < |runs| && 0 <= j < |runs[k].links| ::
        runs[k].status == RunApproved && runs[k].org == org && runs[k].links[j].record == record
      ensures Inv(Snapshot()) && record < |records| && records[record].org == org ==>
        records[record].status == Approved ==> held
    {
      held := exists k | 0 <= k < |runs| ::
        runs[k].status == RunApproved && runs[k].org == org && Linked(runs[k], record);
      assert forall k, j | 0 <= k < |runs| && 0 <= j < |runs[k].links| && runs[k].links[j].record == record ::
        Linked(runs[k], record);
      if record < |records| && records[record].org == org {
        assert held <==> InApprovedRun(Snapshot(), record);
        assert Inv(Snapshot()) ==> RecordOk(Snapshot(), record);
      }
    }

    method ReleaseCollectionGate(org: nat, placement: nat) returns (count: nat)
      modifies this`records
      ensures Snapshot() == Apply(old(Snapshot()), ReleaseCollection(org, placement))
      ensures |records| == |old(records)|
      ensures forall i | 0 <= i < |records| ::
        var r := old(records)[i];
        records[i] ==
          if r.org == org && r.placement == placement && r.status == Held && r.holdReason == Some(CollectionGate)
          then r.(status := Payable, holdReason := None) else r
      ensures count == |set i: nat | i < |records| && records[i] != old(records)[i]|
    {
      ghost var target := TouchedAll(Snapshot(), ReleaseCollection(org, placement));
      var before := records;
      records := seq(|before|, i requires 0 <= i < |before| =>
        if before[i].org == org && before[i].placement == placement && HeldFor(before[i], CollectionGate)
        then Freed(before[i]) else before[i]);
      count := |set i: nat | i < |records| && records[i] != before[i]|;
      assert records == target;
    }

    /** Selects the waiting records, frees them, and then writes the journal one row at a time. */
    method ReleasePhaseCollectionGate(org: nat, phase: nat, invoice: nat) returns (count: nat)
      modifies this`records, this`journal
      ensures Snapshot() == Apply(old(Snapshot()), ReleasePhase(org, phase, invoice))
      ensures |records| == |old(records)|
      ensures forall i | 0 <= i < |records| ::
        var r := old(records)[i];
        records[i] ==
          if r.org == org && r.phase == Some(phase) && r.status == Held && r.holdReason == Some(PhaseInvoice)
          then r.(status := Payable, holdReason := None) else r
      ensures old(journal) <= journal && count == |journal| - |old(journal)|
      ensures forall n | |old(journal)| <= n < |journal| ::
        && journal[n].record < |records| && records[journal[n].record] != old(records)[journal[n].record]
        && journal[n] == JournalRow(org, journal[n].record, phase, Held, Payable, invoice)
      ensures forall m, n | |old(journal)| <= m < n < |journal| :: journal[m].record != journal[n].record
      ensures forall i | 0 <= i < |records| && records[i] != old(records)[i] ::
        exists n | |old(journal)| <= n < |journal| :: journal[n].record == i
    {
      ghost var op := ReleasePhase(org, phase, invoice);
      ghost var target := TouchedAll(Snapshot(), op);
      var before := records;
      var ids := Awaiting(before, org, phase);
      FreedAre(Snapshot(), org, phase, invoice);
      if ids == [] {
        assert journal + [] == journal;
        ReleaseOnFields(Snapshot(), org, phase, invoice);
        return 0;
      }
      records := FreedAll(before, org, ids);
      var k := 0;
      while k < |ids|
        invariant 0 <= k <= |ids|
        invariant records == target
        invariant journal == old(journal) + JournalOf(ids[..k], org, phase, invoice)
      {
        JournalNext(ids, k, org, phase, invoice);
        journal := journal + [JournalRow(org, ids[k], phase, Held, Payable, invoice)];
        k := k + 1;
      }
      assert ids[..k] == ids;
      count := |ids|;
      ReleaseOnFields(old(Snapshot()), org, phase, invoice);
    }

    /** One transaction: unless the period is active, everything is rolled back. */
    method ExpireGuaranteePeriod(period: nat) returns (done: bool, count: nat)
      modifies this`records, this`periods
      ensures done <==> period < |old(periods)| && old(periods)[period].status == Active
      ensures !done ==> Snapshot() == old(Snapshot())
      ensures done ==> periods == old(periods)[period := old(periods)[period].(status := ExpiredClean)]
      ensures Snapshot() == Apply(old(Snapshot()), Expire(period))
      ensures |records| == |old(records)|
      ensures forall i | 0 <= i < |records| ::
        var r := old(records)[i];
        records[i] ==
          if done && r.org == old(periods)[period].org && r.placement == old(periods)[period].placement
             && r.status == Held && r.holdReason == Some(GuaranteeHold)
          then r.(status := Payable, holdReason := None) else r
      ensures count == |set i: nat | i < |records| && records[i] != old(records)[i]|
    {
      ghost var target := TouchedAll(Snapshot(), Expire(period));
      var before := records;
      done, count := period < |periods| && periods[period].status == Active, 0;
      if !done {
        assert target == records;
        assert (set i: nat | i < |records| && records[i] != before[i]) == {};
        return;
      }
      var p := periods[period];
      periods := periods[period := p.(status := ExpiredClean)];
      records := seq(|before|, i requires 0 <= i < |before| =>
        if before[i].org == p.org && before[i].placement == p.placement && HeldFor(before[i], GuaranteeHold)
        then Freed(before[i]) else before[i]);
      count := |set i: nat | i < |records| && records[i] != before[i]|;
      assert records == target;
    }

    /** One transaction: unless the period is active, everything is rolled back. */
    method TriggerClawback(period: nat) returns (done: bool, count: nat)
      modifies this`records, this`periods
      ensures done <==> period < |old(periods)| && old(periods)[period].status == Active
      ensures !done ==> Snapshot() == old(Snapshot())
      ensures done ==> periods == old(periods)[period := old(periods)[period].(status := Triggered)]
      ensures Snapshot() == Apply(old(Snapshot()), Trigger(period))
      ensures |records| == |old(records)|
      ensures forall i | 0 <= i < |records| ::
        var r := old(records)[i];
        records[i] ==
          if done && r.org == old(periods)[period].org && r.placement == old(periods)[period].placement
             && r.status in {Held, Payable, Accrued, PendingApproval}
          then r.(status := ClawbackInitiated, holdReason := Some(ClawbackHold)) else r
      ensures count == |set i: nat | i < |records| && records[i] != old(records)[i]|
    {
      ghost var target := TouchedAll(Snapshot(), Trigger(period));
      var before := records;
      done, count := period < |periods| && periods[period].status == Active, 0;
      if !done {
        assert target == records;
        assert (set i: nat | i < |records| && records[i] != before[i]) == {};
        return;
      }
      var p := periods[period];
      periods := periods[period := p.(status := Triggered)];
      records := seq(|before|, i requires 0 <= i < |before| =>
        if before[i].org == p.org && before[i].placement == p.placement
           && before[i].status in {Held, Payable, Accrued, PendingApproval}
        then before[i].(status := ClawbackInitiated, holdReason := Some(ClawbackHold)) else before[i]);
      count := |set i: nat | i < |records| && records[i] != before[i]|;
      assert records == target;
    }
  }

  lemma {:induction false} LinkedWith(links: seq<Link>, id: nat, org: nat)
    ensures forall i: nat :: Linked(CommissionRun(org, Open, WithLink(links, id)), i) <==>
      i == id || Linked(CommissionRun(org, Open, links), i)
  {
    var after := WithLink(links, id);
    assert forall k | 0 <= k < |links| :: after[k] == links[k];
    if |after| > |links| {
      assert after[|links|].record == id;
    }
  }
}
