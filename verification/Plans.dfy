/**
 Commission plans and their versions (packages/db/src/plans.ts).  A version's id is its position in
 the table; a plan's id is the number of plans before it.  Each call is one step.
 */
module Plans {
  import opened Prelude
  import opened Tiers

  datatype State = Draft | Active | Superseded

  datatype Version = Version(org: nat, plan: nat, num: nat, state: State, tiers: seq<Tier>)

  datatype Store = Store(plans: nat, versions: seq<Version>)

  datatype Op =
    | CreatePlan(org: nat, tiers: seq<Tier>)
    | CreateVersion(org: nat, plan: nat, tiers: seq<Tier>)
    | Activate(org: nat, plan: nat, id: nat)

  const EMPTY := Store(0, [])

  // ---------------------------------------------------------------- statements

  /** `COALESCE(MAX(version_num), 0)` over the versions of a plan. */
  function MaxNum(versions: seq<Version>, plan: nat): nat {
    if versions == [] then 0 else
      var last := versions[|versions| - 1];
      var m := MaxNum(versions[..|versions| - 1], plan);
      if last.plan == plan && last.num > m then last.num else m
  }

  /** What the activation of version `id` does to the row at `i`: both updates see the table as it was. */
  function Activated(v: Version, i: nat, org: nat, plan: nat, id: nat): Version {
    if v.org != org || v.plan != plan then v
    else if v.state == Active then v.(state := Superseded)
    else if i == id && v.state == Draft then v.(state := Active)
    else v
  }

  function ActivatedAll(versions: seq<Version>, org: nat, plan: nat, id: nat): seq<Version> {
    seq(|versions|, i requires 0 <= i < |versions| => Activated(versions[i], i, org, plan, id))
  }

  predicate IsDraftOf(versions: seq<Version>, org: nat, plan: nat, id: nat) {
    id < |versions| && versions[id].org == org && versions[id].plan == plan && versions[id].state == Draft
  }

  /** A call that is refused changes nothing, except that a failed activation still supersedes. */
  ghost function Apply(s: Store, op: Op): Store {
    match op
    case CreatePlan(org, tiers) =>
      if !Ascending(tiers) then s
      else Store(s.plans + 1, s.versions + [Version(org, s.plans, 1, Draft, tiers)])
    case CreateVersion(org, plan, tiers) =>
      if !Ascending(tiers) || plan >= s.plans then s
      else s.(versions := s.versions + [Version(org, plan, MaxNum(s.versions, plan) + 1, Draft, tiers)])
    case Activate(org, plan, id) => s.(versions := ActivatedAll(s.versions, org, plan, id))
  }

  ghost function Run(ops: seq<Op>): Store {
    if ops == [] then EMPTY else Apply(Run(ops[..|ops| - 1]), ops[|ops| - 1])
  }

  // ---------------------------------------------------------------- the invariant

  function CountOf(versions: seq<Version>, plan: nat): nat {
    if versions == [] then 0 else
      CountOf(versions[..|versions| - 1], plan) + if versions[|versions| - 1].plan == plan then 1 else 0
  }

  lemma {:induction false} CountIsSize(versions: seq<Version>, plan: nat)
    ensures CountOf(versions, plan) == |set i: nat | i < |versions| && versions[i].plan == plan|
  {
    if versions != [] {
      var n := |versions| - 1;
      CountIsSize(versions[..n], plan);
      var ofPlan := (i: nat) => i < |versions| && versions[i].plan == plan;
      CountNext(ofPlan, n);
      assert (set i: nat | i < n && ofPlan(i)) == set i: nat | i < n && versions[..n][i].plan == plan;
      assert (set i: nat | i < n + 1 && ofPlan(i)) == set i: nat | i < |versions| && versions[i].plan == plan;
    }
  }

  ghost predicate Numbered(versions: seq<Version>) {
    forall i | 0 <= i < |versions| :: versions[i].num == CountOf(versions[..i], versions[i].plan) + 1
  }

  /** Of the versions that one organisation has of one plan, at most one is active. */
  ghost predicate OneActive(versions: seq<Version>) {
    forall i, j | 0 <= i < j < |versions|
                  && versions[i].org == versions[j].org && versions[i].plan == versions[j].plan ::
      versions[i].state != Active || versions[j].state != Active
  }

  ghost predicate Inv(s: Store) {
    && Numbered(s.versions)
    && OneActive(s.versions)
    && (forall i | 0 <= i < |s.versions| :: Ascending(s.versions[i].tiers) && s.versions[i].plan < s.plans)
  }

  lemma {:induction false} MaxIsCount(versions: seq<Version>, plan: nat)
    requires Numbered(versions)
    ensures MaxNum(versions, plan) == CountOf(versions, plan)
  {
    if versions != [] {
      var front := versions[..|versions| - 1];
      assert forall i | 0 <= i < |front| :: front[..i] == versions[..i];
      MaxIsCount(front, plan);
    }
  }

  lemma {:induction false} CountSame(versions: seq<Version>, versions': seq<Version>, plan: nat)
    requires |versions| == |versions'|
    requires forall i | 0 <= i < |versions| :: versions[i].plan == versions'[i].plan
    ensures CountOf(versions, plan) == CountOf(versions', plan)
  {
    if versions != [] {
      CountSame(versions[..|versions| - 1], versions'[..|versions| - 1], plan);
    }
  }

  lemma {:induction false} CountNone(versions: seq<Version>, plan: nat)
    requires forall i | 0 <= i < |versions| :: versions[i].plan < plan
    ensures CountOf(versions, plan) == 0
  {
    if versions != [] {
      CountNone(versions[..|versions| - 1], plan);
    }
  }

  lemma {:induction false} AppendKeepsNumbers(versions: seq<Version>, v: Version)
    requires Numbered(versions) && v.num == CountOf(versions, v.plan) + 1
    ensures Numbered(versions + [v])
  {
    var all := versions + [v];
    forall i | 0 <= i < |all|
      ensures all[i].num == CountOf(all[..i], all[i].plan) + 1
    {
      assert all[..i] == versions[..i];
      assert i == |versions| ==> versions[..i] == versions;
    }
  }

  lemma {:induction false} ActivationKeepsNumbers(versions: seq<Version>, org: nat, plan: nat, id: nat)
    requires Numbered(versions)
    ensures Numbered(ActivatedAll(versions, org, plan, id))
  {
    var all := ActivatedAll(versions, org, plan, id);
    forall i | 0 <= i < |all|
      ensures all[i].num == CountOf(all[..i], all[i].plan) + 1
    {
      CountSame(versions[..i], all[..i], all[i].plan);
    }
  }

  lemma {:induction false} ActivationKeepsOne(versions: seq<Version>, org: nat, plan: nat, id: nat)
    requires OneActive(versions)
    ensures OneActive(ActivatedAll(versions, org, plan, id))
  {
    var all := ActivatedAll(versions, org, plan, id);
    forall i, j | 0 <= i < j < |all| && all[i].org == all[j].org && all[i].plan == all[j].plan
      ensures all[i].state != Active || all[j].state != Active
    {
      assert versions[i].state != Active || versions[j].state != Active;
    }
  }

  lemma {:induction false} AppendKeeps(s: Store, v: Version, plans: nat)
    requires Inv(s) && v.state == Draft && v.num == CountOf(s.versions, v.plan) + 1
    requires Ascending(v.tiers) && v.plan < plans && s.plans <= plans
    ensures Inv(Store(plans, s.versions + [v]))
  {
    AppendKeepsNumbers(s.versions, v);
    assert OneActive(s.versions + [v]);
  }

  lemma {:induction false} StepKeeps(s: Store, op: Op)
    requires Inv(s)
    ensures Inv(Apply(s, op))
  {
    match op
    case CreatePlan(org, tiers) => CreatePlanKeeps(s, org, tiers);
    case CreateVersion(org, plan, tiers) => CreateVersionKeeps(s, org, plan, tiers);
    case Activate(org, plan, id) => ActivateKeeps(s, org, plan, id);
  }

  lemma {:induction false} CreatePlanKeeps(s: Store, org: nat, tiers: seq<Tier>)
    requires Inv(s)
    ensures Inv(Apply(s, CreatePlan(org, tiers)))
  {
    if Ascending(tiers) {
      CountNone(s.versions, s.plans);
      AppendKeeps(s, Version(org, s.plans, 1, Draft, tiers), s.plans + 1);
    }
  }

  lemma {:induction false} CreateVersionKeeps(s: Store, org: nat, plan: nat, tiers: seq<Tier>)
    requires Inv(s)
    ensures Inv(Apply(s, CreateVersion(org, plan, tiers)))
  {
    if Ascending(tiers) && plan < s.plans {
      MaxIsCount(s.versions, plan);
      AppendKeeps(s, Version(org, plan, MaxNum(s.versions, plan) + 1, Draft, tiers), s.plans);
    }
  }

  lemma {:induction false} ActivateKeeps(s: Store, org: nat, plan: nat, id: nat)
    requires Inv(s)
    ensures Inv(Apply(s, Activate(org, plan, id)))
  {
    ActivationKeepsNumbers(s.versions, org, plan, id);
    ActivationKeepsOne(s.versions, org, plan, id);
  }

  lemma {:induction false} RunKeeps(ops: seq<Op>)
    ensures Inv(Run(ops))
  {
    if ops != [] {
      RunKeeps(ops[..|ops| - 1]);
      StepKeeps(Run(ops[..|ops| - 1]), ops[|ops| - 1]);
    }
  }

  // ---------------------------------------------------------------- main results

  /** `n` is the number of some version of the plan, and of no other version. */
  ghost predicate TakenOnce(versions: seq<Version>, plan: nat, n: nat) {
    && (exists i | 0 <= i < |versions| :: versions[i].plan == plan && versions[i].num == n)
    && (forall i, j | 0 <= i < |versions| && 0 <= j < |versions| && versions[i].plan == plan == versions[j].plan
                      && versions[i].num == n == versions[j].num :: i == j)
  }

  lemma {:induction false} CountRises(versions: seq<Version>, i: nat, j: nat, plan: nat)
    requires i < j <= |versions|
    ensures CountOf(versions[..j], plan) >= CountOf(versions[..i], plan) + if versions[i].plan == plan then 1 else 0
    decreases j
  {
    assert versions[..j][..j - 1] == versions[..j - 1];
    if i < j - 1 {
      CountRises(versions, i, j - 1, plan);
    }
  }

  lemma {:induction false} NumberFound(versions: seq<Version>, plan: nat, n: nat) returns (i: nat)
    requires Numbered(versions) && 1 <= n <= CountOf(versions, plan)
    ensures i < |versions| && versions[i].plan == plan && versions[i].num == n
  {
    i := |versions| - 1;
    var front := versions[..i];
    assert forall k | 0 <= k < |front| :: front[..k] == versions[..k];
    if n <= CountOf(front, plan) {
      i := NumberFound(front, plan, n);
    }
  }

  lemma {:induction false} NumbersTaken(versions: seq<Version>, plan: nat, n: nat)
    requires Numbered(versions)
    ensures 1 <= n <= CountOf(versions, plan) ==> TakenOnce(versions, plan, n)
    ensures forall i | 0 <= i < |versions| && versions[i].plan == plan ::
      1 <= versions[i].num <= CountOf(versions, plan)
  {
    assert versions[..|versions|] == versions;
    forall i, j | 0 <= i < j <= |versions| && versions[i].plan == plan
      ensures versions[i].num <= CountOf(versions[..j], plan)
    {
      CountRises(versions, i, j, plan);
    }
    if 1 <= n <= CountOf(versions, plan) {
      var i := NumberFound(versions, plan, n);
    }
  }

  /**
   In every run: the version numbers of a plan are exactly 1 to the number of its versions, each
   once; an organisation has at most one active version of a plan; every stored snapshot has
   ascending thresholds.
   */
  lemma {:induction false} VersionsInOrder(ops: seq<Op>, plan: nat, n: nat)
    ensures var versions := Run(ops).versions;
      && (1 <= n <= |set i: nat | i < |versions| && versions[i].plan == plan| <==>
            exists i | 0 <= i < |versions| :: versions[i].plan == plan && versions[i].num == n)
      && (forall i, j | 0 <= i < |versions| && 0 <= j < |versions| && versions[i].plan == plan == versions[j].plan
                        && versions[i].num == n == versions[j].num :: i == j)
      && (forall i, j | 0 <= i < j < |versions| && versions[i].org == versions[j].org
                        && versions[i].plan == versions[j].plan ::
            versions[i].state != Active || versions[j].state != Active)
      && forall i, j, k | 0 <= i < |versions| && 0 <= j < k < |versions[i].tiers| ::
           versions[i].tiers[j].threshold < versions[i].tiers[k].threshold
  {
    RunKeeps(ops);
    CountIsSize(Run(ops).versions, plan);
    NumbersTaken(Run(ops).versions, plan, n);
  }

  // ---------------------------------------------------------------- one active version for a whole plan

  ghost predicate OneActiveOfPlan(versions: seq<Version>) {
    forall i, j | 0 <= i < j < |versions| && versions[i].plan == versions[j].plan ::
      versions[i].state != Active || versions[j].state != Active
  }

  ghost predicate SameOrganisation(versions: seq<Version>) {
    forall i, j | 0 <= i < |versions| && 0 <= j < |versions| && versions[i].plan == versions[j].plan ::
      versions[i].org == versions[j].org
  }

  /** A new version is asked for by the organisation that has the plan: the caller has to check it. */
  ghost predicate Checked(s: Store, op: Op) {
    op.CreateVersion? ==> forall i | 0 <= i < |s.versions| && s.versions[i].plan == op.plan ::
      s.versions[i].org == op.org
  }

  lemma {:induction false} RunKeepsOrganisation(ops: seq<Op>)
    requires forall k | 0 <= k < |ops| :: Checked(Run(ops[..k]), ops[k])
    ensures SameOrganisation(Run(ops).versions)
  {
    if ops != [] {
      var front := ops[..|ops| - 1];
      assert forall k | 0 <= k < |front| :: front[..k] == ops[..k];
      RunKeepsOrganisation(front);
      RunKeeps(front);
      StepKeepsOrganisation(Run(front), ops[|ops| - 1]);
    }
  }

  lemma {:induction false} StepKeepsOrganisation(s: Store, op: Op)
    requires Inv(s) && SameOrganisation(s.versions) && Checked(s, op)
    ensures SameOrganisation(Apply(s, op).versions)
  {
  }

  /** When every new version is checked, a plan has at most one active version in every run. */
  lemma {:induction false} OneActivePerPlan(ops: seq<Op>)
    requires forall k | 0 <= k < |ops| :: Checked(Run(ops[..k]), ops[k])
    ensures OneActiveOfPlan(Run(ops).versions)
  {
    RunKeeps(ops);
    RunKeepsOrganisation(ops);
  }

  lemma {:induction false} RunNext(ops: seq<Op>, op: Op)
    ensures Run(ops + [op]) == Apply(Run(ops), op)
  {
    assert (ops + [op])[..|ops|] == ops;
  }

  /** One plan with a version by each of two organisations. */
  const SHARED := [] + [CreatePlan(0, [])] + [CreateVersion(1, 0, [])]

  lemma {:induction false} AfterShared()
    ensures Run(SHARED) == Store(1, [Version(0, 0, 1, Draft, []), Version(1, 0, 2, Draft, [])])
  {
    RunNext([], CreatePlan(0, []));
    RunNext([] + [CreatePlan(0, [])], CreateVersion(1, 0, []));
    assert [Version(0, 0, 1, Draft, [])][..0] == [];
  }

  /** Without the check two organisations activate a version of one plan each. */
  lemma {:induction false} TwoOrganisationsTwoActive()
    ensures Run(SHARED + [Activate(0, 0, 0)] + [Activate(1, 0, 1)]).versions ==
      [Version(0, 0, 1, Active, []), Version(1, 0, 2, Active, [])]
    ensures !OneActiveOfPlan([Version(0, 0, 1, Active, []), Version(1, 0, 2, Active, [])])
  {
    AfterShared();
    RunNext(SHARED, Activate(0, 0, 0));
    RunNext(SHARED + [Activate(0, 0, 0)], Activate(1, 0, 1));
    var versions := [Version(0, 0, 1, Active, []), Version(1, 0, 2, Active, [])];
    assert versions[0].plan == versions[1].plan && versions[0].state == Active == versions[1].state;
  }

  /** Two versions of one plan, of different organisations, that are both still to be superseded. */
  ghost predicate Rivals(versions: seq<Version>, i: nat, j: nat)
    requires i < |versions| && j < |versions|
  {
    && versions[i].plan == versions[j].plan && versions[i].org != versions[j].org
    && versions[i].state != Superseded && versions[j].state != Superseded
  }

  ghost predicate NoRivals(versions: seq<Version>) {
    forall i, j | 0 <= i < |versions| && 0 <= j < |versions| :: !Rivals(versions, i, j)
  }

  ghost predicate Activations(ops: seq<Op>) {
    forall k | 0 <= k < |ops| :: ops[k].Activate?
  }

  lemma {:induction false} ActivationsKeepOne(s: Store, ops: seq<Op>)
    requires OneActive(s.versions) && NoRivals(s.versions) && Activations(ops)
    ensures OneActiveOfPlan(RunFrom(s, ops).versions)
    decreases |ops|
  {
    if ops == [] {
      forall i, j | 0 <= i < j < |s.versions| && s.versions[i].plan == s.versions[j].plan
        ensures s.versions[i].state != Active || s.versions[j].state != Active
      {
        assert !Rivals(s.versions, i, j);
      }
    } else {
      var s' := Apply(s, ops[0]);
      ActivationKeepsOne(s.versions, ops[0].org, ops[0].plan, ops[0].id);
      forall i, j | 0 <= i < |s'.versions| && 0 <= j < |s'.versions|
        ensures !Rivals(s'.versions, i, j)
      {
        assert !Rivals(s.versions, i, j);
      }
      ActivationsKeepOne(s', ops[1..]);
    }
  }

  /** Activating version `i`, if it is a draft, makes it active and leaves other organisations alone. */
  lemma {:induction false} ActivateDraft(s: Store, i: nat) returns (ops: seq<Op>)
    requires i < |s.versions| && s.versions[i].state != Superseded
    ensures Activations(ops) && |ops| <= 1
    ensures var versions := RunFrom(s, ops).versions;
      && |versions| == |s.versions| && versions[i] == s.versions[i].(state := Active)
      && forall j | 0 <= j < |versions| && s.versions[j].org != s.versions[i].org :: versions[j] == s.versions[j]
  {
    var v := s.versions[i];
    ops := if v.state == Active then [] else [Activate(v.org, v.plan, i)];
    if v.state != Active {
      assert ops[1..] == [];
      assert RunFrom(s, ops) == Apply(s, ops[0]);
    }
  }

  lemma {:induction false} RunFromAppend(s: Store, a: seq<Op>, b: seq<Op>)
    ensures RunFrom(s, a + b) == RunFrom(RunFrom(s, a), b)
    decreases |a|
  {
    if a == [] {
      assert a + b == b;
    } else {
      assert (a + b)[1..] == a[1..] + b;
      RunFromAppend(Apply(s, a[0]), a[1..], b);
    }
  }

  /**
   From a reachable table, activations keep one active version to a plan if and only if no two organisations
   have rivals.
   */
  lemma {:induction false} OneActivePerPlanIff(s: Store)
    requires Inv(s)
    ensures (forall ops | Activations(ops) :: OneActiveOfPlan(RunFrom(s, ops).versions)) <==> NoRivals(s.versions)
  {
    if NoRivals(s.versions) {
      forall ops | Activations(ops)
        ensures OneActiveOfPlan(RunFrom(s, ops).versions)
      {
        ActivationsKeepOne(s, ops);
      }
    } else {
      var i, j :| 0 <= i < |s.versions| && 0 <= j < |s.versions| && Rivals(s.versions, i, j);
      var first := ActivateDraft(s, i);
      var second := ActivateDraft(RunFrom(s, first), j);
      RunFromAppend(s, first, second);
      var versions := RunFrom(s, first + second).versions;
      assert versions[i].state == Active && versions[j].state == Active && versions[i].plan == versions[j].plan;
      assert i < j || j < i;
      assert Activations(first + second) && !OneActiveOfPlan(versions);
    }
  }

  function Rank(state: State): nat {
    match state case Draft => 0 case Active => 1 case Superseded => 2
  }

  /** In any continuation a version keeps its number and snapshot, and moves only from draft to active to superseded. */
  lemma {:induction false} StatesMoveForward(s: Store, ops: seq<Op>, i: nat) returns (s': Store)
    requires i < |s.versions|
    ensures s' == RunFrom(s, ops) && i < |s'.versions|
    ensures s'.versions[i] == s.versions[i].(state := s'.versions[i].state)
    ensures Rank(s.versions[i].state) <= Rank(s'.versions[i].state)
    decreases |ops|
  {
    if ops == [] {
      s' := s;
    } else {
      s' := StatesMoveForward(Apply(s, ops[0]), ops[1..], i);
    }
  }

  ghost function RunFrom(s: Store, ops: seq<Op>): Store
    decreases |ops|
  {
    if ops == [] then s else RunFrom(Apply(s, ops[0]), ops[1..])
  }

  /** After an activation the plan has an active version if and only if the version named was a draft of it. */
  lemma {:induction false} ActiveAfterIff(s: Store, org: nat, plan: nat, id: nat)
    ensures var versions := Apply(s, Activate(org, plan, id)).versions;
      (exists i | 0 <= i < |versions| ::
        versions[i].org == org && versions[i].plan == plan && versions[i].state == Active)
      <==>
      && id < |s.versions| && s.versions[id].org == org && s.versions[id].plan == plan
      && s.versions[id].state == Draft
  {
    var versions := Apply(s, Activate(org, plan, id)).versions;
    if IsDraftOf(s.versions, org, plan, id) {
      assert versions[id].state == Active;
    }
  }

  /** Activating the active version a second time leaves the plan with none. */
  lemma {:induction false} ReactivationLosesActive(v: Version)
    requires v.state == Draft
    ensures var s1 := Apply(Store(v.plan + 1, [v]), Activate(v.org, v.plan, 0));
      && s1.versions == [v.(state := Active)]
      && Apply(s1, Activate(v.org, v.plan, 0)).versions == [v.(state := Superseded)]
  {
  }

  // ---------------------------------------------------------------- the tables

  class PlanTables {
    var plans: nat
    var versions: seq<Version>

    constructor ()
      ensures Snapshot() == EMPTY
    {
      plans, versions := 0, [];
    }

    ghost function Snapshot(): Store
      reads this
    {
      Store(plans, versions)
    }

    method CreatePlan(org: nat, tiers: seq<Tier>) returns (r: Result<nat, ()>)
      modifies this
      ensures r.Ok? <==> forall j, k | 0 <= j < k < |tiers| :: tiers[j].threshold < tiers[k].threshold
      ensures r.Ok? ==>
        && r.value == |old(versions)| && versions == old(versions) + [Version(org, old(plans), 1, Draft, tiers)]
        && plans == old(plans) + 1
      ensures r.Err? ==> Snapshot() == old(Snapshot())
      ensures Snapshot() == Apply(old(Snapshot()), Op.CreatePlan(org, tiers))
    {
      var check := ValidateTiers(tiers);
      if check.Err? {
        return Err(());
      }
      r := Ok(|versions|);
      versions := versions + [Version(org, plans, 1, Draft, tiers)];
      plans := plans + 1;
    }

    method CreatePlanVersion(org: nat, plan: nat, tiers: seq<Tier>) returns (r: Result<nat, ()>)
      requires Inv(Snapshot())
      modifies this
      ensures r.Ok? <==>
        plan < plans && forall j, k | 0 <= j < k < |tiers| :: tiers[j].threshold < tiers[k].threshold
      ensures r.Ok? ==>
        var earlier := set i: nat | i < |old(versions)| && old(versions)[i].plan == plan;
        && r.value == |old(versions)| && plans == old(plans)
        && versions == old(versions) + [Version(org, plan, |earlier| + 1, Draft, tiers)]
      ensures r.Err? ==> Snapshot() == old(Snapshot())
      ensures Snapshot() == Apply(old(Snapshot()), CreateVersion(org, plan, tiers))
    {
      var check := ValidateTiers(tiers);
      if check.Err? || plan >= plans {
        return Err(());
      }
      MaxIsCount(versions, plan);
      CountIsSize(versions, plan);
      r := Ok(|versions|);
      versions := versions + [Version(org, plan, MaxNum(versions, plan) + 1, Draft, tiers)];
    }

    /** Whatever was active for the plan is superseded, also when the version named cannot be activated. */
    method ActivatePlanVersion(org: nat, plan: nat, id: nat) returns (r: Result<Version, ()>)
      modifies this`versions
      ensures r.Ok? <==>
        && id < |old(versions)| && old(versions)[id].org == org && old(versions)[id].plan == plan
        && old(versions)[id].state == Draft
      ensures r.Ok? ==> id < |versions| && r.value == versions[id]
      ensures |versions| == |old(versions)|
      ensures forall i | 0 <= i < |versions| ::
        var v := old(versions)[i];
        versions[i] ==
          if v.org == org && v.plan == plan && v.state == Active then v.(state := Superseded)
          else if r.Ok? && i == id then v.(state := Active)
          else v
      ensures Snapshot() == Apply(old(Snapshot()), Activate(org, plan, id))
    {
      var found := IsDraftOf(versions, org, plan, id);
      versions := ActivatedAll(versions, org, plan, id);
      r := if found then Ok(versions[id]) else Err(());
    }
  }
}
