/**
 Approved runs and records of other organisations.  A run may be created with any record's id
 (packages/db/src/commission-runs.ts), and its approval leaves the records of other organisations out.
 */
module ApprovedRuns {
  import opened Prelude
  import opened Records
  import opened Ledger

  predicate Waits(r: Record) {
    r.status in {Accrued, PendingApproval}
  }

  /** No record that an approved run links still waits for approval. */
  ghost predicate NoneWaits(b: Books) {
    forall k, i | 0 <= k < |b.runs| && 0 <= i < |b.records| && Linked(b.runs[k], i) ::
      b.runs[k].status == RunApproved ==> !Waits(b.records[i])
  }

  /** A waiting record is linked by runs of its own organisation only, cancelled ones aside. */
  ghost predicate OwnRunsOnly(b: Books) {
    forall k, i | 0 <= k < |b.runs| && 0 <= i < |b.records| && Linked(b.runs[k], i) ::
      b.runs[k].status != Cancelled && Waits(b.records[i]) ==> b.runs[k].org == b.records[i].org
  }

  /** A run is created with records of its own organisation: the caller has to see to it. */
  ghost predicate NamesOwn(b: Books, op: Op) {
    op.CreateRun? ==> forall i | i in op.ids && i < |b.records| :: b.records[i].org == op.org
  }

  ghost predicate AllNameOwn(b: Books, ops: seq<Op>)
    decreases |ops|
  {
    ops == [] || (NamesOwn(b, ops[0]) && AllNameOwn(Apply(b, ops[0]), ops[1..]))
  }

  // ---------------------------------------------------------------- what a step does to the runs

  lemma {:induction false} NewLinks(known: nat, ids: seq<nat>, links: seq<Link>, org: nat, i: nat)
    requires Linked(CommissionRun(org, Open, LinksFor(known, ids, links)), i)
    ensures i in ids || Linked(CommissionRun(org, Open, links), i)
    decreases |ids|
  {
    if ids != [] && ids[0] < known {
      NewLinks(known, ids[1..], WithLink(links, ids[0]), org, i);
      LinkedWith(links, ids[0], org);
    }
  }

  /** A run keeps its organisation and what it links, and its status unless it is the run approved. */
  lemma {:induction false} RunAfter(b: Books, op: Op, k: nat, i: nat)
    requires k < |b.runs|
    ensures var b' := Apply(b, op);
      && k < |b'.runs| && b'.runs[k].org == b.runs[k].org
      && Linked(b'.runs[k], i) == Linked(b.runs[k], i)
      && (b.runs[k].status == Cancelled ==> b'.runs[k].status == Cancelled)
  {
    if op.ApproveRecord? && IsRunOf(b, op.org, op.run) && k == op.run {
      LinkedAfterApproval(b.runs[k].links, b.runs[k].org, b.runs[k].status, op.record, i);
      assert Apply(b, op).runs[k] == b.runs[k].(links := ApprovedLinks(b.runs[k].links, op.record));
    }
  }

  /** A record keeps its organisation, and none begins to wait. */
  lemma {:induction false} RecordAfter(b: Books, op: Op, i: nat)
    requires i < |b.records|
    ensures var b' := Apply(b, op);
      && i < |b'.records| && b'.records[i].org == b.records[i].org
      && (Waits(b'.records[i]) ==> Waits(b.records[i]))
  {
  }

  /** A run that the step adds names records of its own organisation. */
  lemma {:induction false} AddedRunIsOwn(b: Books, op: Op, i: nat)
    requires op.CreateRun? && NamesOwn(b, op) && i < |b.records| && Linked(Apply(b, op).runs[|b.runs|], i)
    ensures b.records[i].org == op.org
  {
    NewLinks(|b.records|, op.ids, [], op.org, i);
  }

  lemma {:induction false} StepKeepsOwnRuns(b: Books, op: Op)
    requires LinksExist(b) && OwnRunsOnly(b) && NamesOwn(b, op)
    ensures OwnRunsOnly(Apply(b, op))
  {
    var b' := Apply(b, op);
    StepKeepsLinks(b, op);
    forall k, i | 0 <= k < |b'.runs| && 0 <= i < |b'.records| && Linked(b'.runs[k], i)
      ensures b'.runs[k].status != Cancelled && Waits(b'.records[i]) ==> b'.runs[k].org == b'.records[i].org
    {
      if k == |b.runs| {
        assert LinksWithin(b'.runs[k].links, |b'.records|);
        RecordAfter(b, op, i);
        AddedRunIsOwn(b, op, i);
      } else {
        RunAfter(b, op, k, i);
        assert LinksWithin(b.runs[k].links, |b.records|);
        RecordAfter(b, op, i);
      }
    }
  }

  lemma {:induction false} OwnRunsNoneWait(b: Books)
    requires Inv(b) && OwnRunsOnly(b)
    ensures NoneWaits(b)
  {
    forall k, i | 0 <= k < |b.runs| && 0 <= i < |b.records| && Linked(b.runs[k], i)
      ensures b.runs[k].status == RunApproved ==> !Waits(b.records[i])
    {
      assert RecordOk(b, i);
      if b.runs[k].status == RunApproved && Waits(b.records[i]) {
        assert b.runs[k].org == b.records[i].org;
        assert InApprovedRun(b, i);
      }
    }
  }

  lemma {:induction false} RunKeepsOwnRuns(b: Books, ops: seq<Op>)
    requires Inv(b) && OwnRunsOnly(b) && AllNameOwn(b, ops)
    ensures NoneWaits(Run(b, ops))
    decreases |ops|
  {
    if ops == [] {
      OwnRunsNoneWait(b);
    } else {
      StepKeeps(b, ops[0]);
      StepKeepsOwnRuns(b, ops[0]);
      RunKeepsOwnRuns(Apply(b, ops[0]), ops[1..]);
    }
  }

  // ---------------------------------------------------------------- main results

  /** When every run is created with records of its own organisation, no record of an approved run ever waits. */
  lemma {:induction false} ApprovedRunsAreDone(ops: seq<Op>)
    requires AllNameOwn(EMPTY, ops)
    ensures NoneWaits(Run(EMPTY, ops))
  {
    RunKeepsOwnRuns(EMPTY, ops);
  }

  lemma {:induction false} RunsFirst(b: Books, op: Op, rest: seq<Op>)
    ensures Run(b, [op] + rest) == Run(Apply(b, op), rest)
  {
    assert ([op] + rest)[1..] == rest;
  }

  /** Without that, a run of one organisation is approved while it links a waiting record of another. */
  lemma {:induction false} ForeignRecordWaits()
    ensures var ops := [AddRecord(1, 0, None, true, false)] + ([CreateRun(0, [0])] + ([ApproveRun(0, 0)] + []));
      var b := Run(EMPTY, ops);
      && b.records == [Record(1, 0, None, Accrued, None)]
      && b.runs == [CommissionRun(0, RunApproved, [Link(0, false)])]
      && Linked(b.runs[0], 0) && !NoneWaits(b)
  {
    var add, create, approve := AddRecord(1, 0, None, true, false), CreateRun(0, [0]), ApproveRun(0, 0);
    var r := Record(1, 0, None, Accrued, None);
    var b1 := Apply(EMPTY, add);
    assert b1 == Books([r], [], [], []);
    var b2 := Apply(b1, create);
    assert [0][1..] == [] && WithLink([], 0) == [Link(0, false)];
    assert LinksFor(1, [0], []) == [Link(0, false)];
    assert b2 == Books([r], [CommissionRun(0, Open, [Link(0, false)])], [], []);
    var b3 := Apply(b2, approve);
    assert b3 == Books([r], [CommissionRun(0, RunApproved, [Link(0, false)])], [], []);
    RunsFirst(EMPTY, add, [create] + ([approve] + []));
    RunsFirst(b1, create, [approve] + []);
    RunsFirst(b2, approve, []);
    StillWaits(b3, 0, 0);
  }

  lemma {:induction false} StillWaits(b: Books, k: nat, i: nat)
    requires k < |b.runs| && i < |b.records| && b.runs[k].status == RunApproved && Waits(b.records[i])
    requires b.runs[k].links != [] && b.runs[k].links[0].record == i
    ensures Linked(b.runs[k], i) && !NoneWaits(b)
  {
    assert Linked(b.runs[k], i);
  }

  /** Approving an open run with a waiting record of another organisation leaves that record waiting. */
  lemma {:induction false} ApprovalLeavesForeign(b: Books, k: nat, i: nat)
    requires k < |b.runs| && i < |b.records| && Linked(b.runs[k], i) && Waits(b.records[i])
    requires b.runs[k].status == Open && b.runs[k].org != b.records[i].org
    ensures !NoneWaits(Run(b, [ApproveRun(b.runs[k].org, k)]))
  {
    var op := ApproveRun(b.runs[k].org, k);
    RunsFirst(b, op, []);
    assert [op] + [] == [op];
    RunAfter(b, op, k, i);
    var b' := Apply(b, op);
    assert b'.records[i] == b.records[i] && b'.runs[k].status == RunApproved && Linked(b'.runs[k], i);
  }

  /**
   From reachable books: whatever follows, if new runs are created with records of their own
   organisation, no record of an approved run waits, if and only if no run that is not cancelled
   links a waiting record of another organisation now.
   */
  lemma {:induction false} ApprovedRunsAreDoneIff(b: Books)
    requires Inv(b)
    ensures (forall ops | AllNameOwn(b, ops) :: NoneWaits(Run(b, ops))) <==> OwnRunsOnly(b)
  {
    if OwnRunsOnly(b) {
      forall ops | AllNameOwn(b, ops)
        ensures NoneWaits(Run(b, ops))
      {
        RunKeepsOwnRuns(b, ops);
      }
    } else {
      var k, i :| 0 <= k < |b.runs| && 0 <= i < |b.records| && Linked(b.runs[k], i)
        && b.runs[k].status != Cancelled && Waits(b.records[i]) && b.runs[k].org != b.records[i].org;
      if b.runs[k].status == RunApproved {
        assert AllNameOwn(b, []) && !NoneWaits(Run(b, []));
      } else {
        ApprovalLeavesForeign(b, k, i);
        assert AllNameOwn(b, [ApproveRun(b.runs[k].org, k)]);
      }
    }
  }
}
