/**
 The leased task queue (packages/db/task-queue.ts).

 A claim is one SQL statement with two moments that other sessions can come between: the
 sub-select locks a row (`FOR UPDATE SKIP LOCKED`), the outer UPDATE rewrites it.  The transition
 system below keeps the two apart.  `NOW()` is the start of the statement, so both moments of a
 claim use the time at which the row was locked.  Times are integer microseconds.

 A task's id is its position in the table: rows are only ever added.
 */
module TaskQueue {
  import opened Prelude

  const SECOND := 1_000_000

  datatype Status = Pending | Claimed | Running | Submitting | Completed | Failed | Dead

  datatype Task = Task(
    key: string, agentType: string, status: Status,
    claimedBy: Option<string>, claimExpiresAt: Option<int>, delegatedToken: Option<string>,
    result: Option<string>, attempt: nat, maxAttempts: int, nextRetryAt: Option<int>,
    priority: int, createdAt: int)

  /** A row lock taken by a claim whose UPDATE has not happened yet. */
  datatype Hold = Hold(task: nat, worker: string, token: Option<string>, ttl: int, at: int)

  datatype Queue = Queue(rows: seq<Task>, holds: map<nat, Hold>)

  /** One successful claim: who got which attempt, when, and for how long. */
  datatype Claim = Claim(task: nat, attempt: nat, worker: string, at: int, ttl: int)

  datatype World = World(q: Queue, log: seq<Claim>)

  datatype Op =
    | Enqueue(key: string, agentType: string, priority: int, maxAttempts: int, now: int)
    | Lock(session: nat, task: nat, agentType: string, worker: string, token: Option<string>, ttl: int, now: int)
    | Commit(session: nat)
    | Abort(session: nat)
    | Submit(task: nat, result: string)
    | Recover(now: int)

  const EMPTY := World(Queue([], map[]), [])

  // ---------------------------------------------------------------- statements

  predicate Locked(q: Queue, i: nat) {
    exists s | s in q.holds :: q.holds[s].task == i
  }

  predicate Due(t: Task, now: int) {
    t.nextRetryAt.None? || t.nextRetryAt.value <= now
  }

  predicate Eligible(t: Task, agentType: string, now: int) {
    t.agentType == agentType && t.status == Pending && Due(t, now)
  }

  predicate Free(q: Queue, agentType: string, now: int, i: nat) {
    i < |q.rows| && Eligible(q.rows[i], agentType, now) && !Locked(q, i)
  }

  predicate NoLater(a: Task, b: Task) {
    a.priority < b.priority || (a.priority == b.priority && a.createdAt <= b.createdAt)
  }

  /** Row `i` is a first row in claim order among those that are due and not locked. */
  predicate IsNext(q: Queue, agentType: string, now: int, i: nat) {
    && Free(q, agentType, now, i)
    && forall j: nat | j < |q.rows| && Free(q, agentType, now, j) :: NoLater(q.rows[i], q.rows[j])
  }

  function NewTask(key: string, agentType: string, priority: int, maxAttempts: int, now: int): Task {
    Task(key, agentType, Pending, None, None, None, None, 0, maxAttempts, None, priority, now)
  }

  predicate HasKey(rows: seq<Task>, key: string) {
    exists i | 0 <= i < |rows| :: rows[i].key == key
  }

  function ClaimedRow(t: Task, h: Hold): Task {
    t.(status := Claimed, claimedBy := Some(h.worker), claimExpiresAt := Some(h.at + h.ttl),
       delegatedToken := h.token, attempt := t.attempt + 1)
  }

  predicate Stale(t: Task, now: int) {
    t.status == Claimed && t.claimExpiresAt.Some? && t.claimExpiresAt.value < now
  }

  function RecoveredRow(t: Task, now: int): Task {
    if !Stale(t, now) then t else
      var cleared := t.(claimedBy := None, claimExpiresAt := None, delegatedToken := None);
      if t.attempt >= t.maxAttempts then cleared.(status := Dead, nextRetryAt := None)
      else cleared.(status := Pending, nextRetryAt := Some(now + Pow2(t.attempt) * SECOND))
  }

  function RecoveredRows(rows: seq<Task>, now: int): seq<Task> {
    seq(|rows|, i requires 0 <= i < |rows| => RecoveredRow(rows[i], now))
  }

  // ---------------------------------------------------------------- runs

  /** A statement on a locked row waits, so a submit is possible only on an unlocked one. */
  predicate Enabled(w: World, op: Op) {
    match op
    case Lock(s, i, agentType, _, _, _, now) => s !in w.q.holds && IsNext(w.q, agentType, now, i)
    case Commit(s) => s in w.q.holds && w.q.holds[s].task < |w.q.rows|
    case Submit(i, _) => i < |w.q.rows| && !Locked(w.q, i)
    case _ => true
  }

  function Apply(w: World, op: Op): World
    requires Enabled(w, op)
  {
    match op
    case Enqueue(key, agentType, priority, maxAttempts, now) =>
      if HasKey(w.q.rows, key) then w
      else w.(q := w.q.(rows := w.q.rows + [NewTask(key, agentType, priority, maxAttempts, now)]))
    case Lock(s, i, _, worker, token, ttl, now) =>
      w.(q := w.q.(holds := w.q.holds[s := Hold(i, worker, token, ttl, now)]))
    case Commit(s) =>
      var h := w.q.holds[s];
      var t := w.q.rows[h.task];
      World(Queue(w.q.rows[h.task := ClaimedRow(t, h)], w.q.holds - {s}),
            w.log + [Claim(h.task, t.attempt + 1, h.worker, h.at, h.ttl)])
    case Abort(s) => w.(q := w.q.(holds := w.q.holds - {s}))
    case Submit(i, result) =>
      w.(q := w.q.(rows := w.q.rows[i := w.q.rows[i].(status := Completed, result := Some(result))]))
    case Recover(now) => w.(q := w.q.(rows := RecoveredRows(w.q.rows, now)))
  }

  /** The world after `ops` from an empty table, if every one of them was possible. */
  function Run(ops: seq<Op>): Option<World> {
    if ops == [] then Some(EMPTY) else
      var before := Run(ops[..|ops| - 1]);
      if before.Some? && Enabled(before.value, ops[|ops| - 1])
      then Some(Apply(before.value, ops[|ops| - 1])) else None
  }

  // ---------------------------------------------------------------- the invariant

  /** The claims of one task, in order. */
  function History(log: seq<Claim>, i: nat): seq<Claim> {
    if log == [] then [] else
      var last := log[|log| - 1];
      History(log[..|log| - 1], i) + if last.task == i then [last] else []
  }

  /** How often a task may be claimed: once even when `max_attempts` is not positive. */
  function Cap(maxAttempts: int): nat {
    if maxAttempts < 1 then 1 else maxAttempts
  }

  /** When the attempt that `c` started can at the earliest be followed by another. */
  function NotBefore(c: Claim): int {
    c.at + c.ttl + Pow2(c.attempt) * SECOND
  }

  ghost predicate Spaced(h: seq<Claim>) {
    && (forall k | 0 <= k < |h| :: h[k].attempt == k + 1)
    && (forall k | 0 < k < |h| :: h[k].at > NotBefore(h[k - 1]))
  }

  ghost predicate RowOk(t: Task, h: seq<Claim>) {
    && Spaced(h)
    && t.attempt == |h| <= Cap(t.maxAttempts)
    && (t.status == Pending ==>
          && (t.attempt == 0 || t.attempt < t.maxAttempts)
          && (if h == [] then t.nextRetryAt.None?
              else t.nextRetryAt.Some? && t.nextRetryAt.value > NotBefore(h[|h| - 1])))
    && (t.status == Claimed ==>
          && h != []
          && t.claimedBy == Some(h[|h| - 1].worker)
          && t.claimExpiresAt == Some(h[|h| - 1].at + h[|h| - 1].ttl))
    && (t.status in {Pending, Dead} ==>
          t.claimedBy.None? && t.claimExpiresAt.None? && t.delegatedToken.None?)
  }

  ghost predicate HoldsOk(q: Queue) {
    && (forall s | s in q.holds ::
          && q.holds[s].task < |q.rows|
          && q.rows[q.holds[s].task].status == Pending
          && Due(q.rows[q.holds[s].task], q.holds[s].at))
    && (forall s, s' | s in q.holds && s' in q.holds && q.holds[s].task == q.holds[s'].task :: s == s')
  }

  ghost predicate LogOk(w: World) {
    && (forall k | 0 <= k < |w.log| ::
          w.log[k].task < |w.q.rows| && w.log[k].attempt <= w.q.rows[w.log[k].task].attempt)
    && (forall j, k | 0 <= j < k < |w.log| ::
          w.log[j].task != w.log[k].task || w.log[j].attempt < w.log[k].attempt)
    && |w.log| == TotalAttempts(w.q.rows)
  }

  ghost predicate KeysUnique(rows: seq<Task>) {
    forall i, j | 0 <= i < j < |rows| :: rows[i].key != rows[j].key
  }

  ghost predicate RowsOk(w: World) {
    forall i | 0 <= i < |w.q.rows| :: RowOk(w.q.rows[i], History(w.log, i))
  }

  ghost predicate Inv(w: World) {
    && RowsOk(w)
    && HoldsOk(w.q)
    && LogOk(w)
    && KeysUnique(w.q.rows)
  }

  function TotalAttempts(rows: seq<Task>): nat {
    if rows == [] then 0 else TotalAttempts(rows[..|rows| - 1]) + rows[|rows| - 1].attempt
  }

  function TotalCaps(rows: seq<Task>): nat {
    if rows == [] then 0 else TotalCaps(rows[..|rows| - 1]) + Cap(rows[|rows| - 1].maxAttempts)
  }

  /** One more row adds its attempts to the one sum and its maximum, at least 1, to the other. */
  lemma {:induction false} TotalsAdd(rows: seq<Task>, t: Task)
    ensures TotalAttempts([]) == TotalCaps([]) == 0
    ensures TotalAttempts(rows + [t]) == TotalAttempts(rows) + t.attempt
    ensures TotalCaps(rows + [t]) == TotalCaps(rows) + if t.maxAttempts < 1 then 1 else t.maxAttempts
  {
    assert (rows + [t])[..|rows|] == rows;
  }

  // ---------------------------------------------------------------- every step keeps it

  lemma {:induction false} HistoryGrows(log: seq<Claim>, c: Claim, i: nat)
    ensures History(log + [c], i) == History(log, i) + if c.task == i then [c] else []
  {
    assert (log + [c])[..|log|] == log;
  }

  lemma {:induction false} NoHistory(log: seq<Claim>, i: nat)
    requires forall k | 0 <= k < |log| :: log[k].task != i
    ensures History(log, i) == []
  {
    if log != [] {
      NoHistory(log[..|log| - 1], i);
    }
  }

  lemma {:induction false} TotalAfter(rows: seq<Task>, i: nat, t: Task)
    requires i < |rows|
    ensures TotalAttempts(rows[i := t]) == TotalAttempts(rows) - rows[i].attempt + t.attempt
  {
    var n := |rows| - 1;
    if i == n {
      assert rows[i := t][..n] == rows[..n];
    } else {
      assert rows[i := t][..n] == rows[..n][i := t];
      TotalAfter(rows[..n], i, t);
    }
  }

  lemma {:induction false} TotalSame(rows: seq<Task>, rows': seq<Task>)
    requires |rows| == |rows'|
    requires forall i | 0 <= i < |rows| :: rows[i].attempt == rows'[i].attempt
    ensures TotalAttempts(rows) == TotalAttempts(rows')
  {
    if rows != [] {
      TotalSame(rows[..|rows| - 1], rows'[..|rows| - 1]);
    }
  }

  lemma {:induction false} TotalWithinCaps(rows: seq<Task>)
    requires forall i | 0 <= i < |rows| :: rows[i].attempt <= Cap(rows[i].maxAttempts)
    ensures TotalAttempts(rows) <= TotalCaps(rows)
  {
    if rows != [] {
      TotalWithinCaps(rows[..|rows| - 1]);
    }
  }

  lemma {:induction false} ClaimKeepsRow(t: Task, h: seq<Claim>, hold: Hold)
    requires RowOk(t, h) && t.status == Pending && Due(t, hold.at)
    ensures RowOk(ClaimedRow(t, hold), h + [Claim(hold.task, t.attempt + 1, hold.worker, hold.at, hold.ttl)])
  {
  }

  lemma {:induction false} RecoveryKeepsRow(t: Task, h: seq<Claim>, now: int)
    requires RowOk(t, h)
    ensures RowOk(RecoveredRow(t, now), h)
  {
  }

  ghost predicate KeysFrom(rows: seq<Task>, rows': seq<Task>) {
    |rows| == |rows'| && forall i | 0 <= i < |rows| :: rows[i].key == rows'[i].key
  }

  lemma {:induction false} SameKeysUnique(rows: seq<Task>, rows': seq<Task>)
    requires KeysUnique(rows) && KeysFrom(rows, rows')
    ensures KeysUnique(rows')
  {
  }

  lemma {:induction false} EnqueueKeepsRows(w: World, t: Task)
    requires RowsOk(w) && LogOk(w) && t == NewTask(t.key, t.agentType, t.priority, t.maxAttempts, t.createdAt)
    ensures RowsOk(w.(q := w.q.(rows := w.q.rows + [t])))
  {
    var rows' := w.q.rows + [t];
    forall i | 0 <= i < |rows'|
      ensures RowOk(rows'[i], History(w.log, i))
    {
      if i == |w.q.rows| {
        NoHistory(w.log, i);
      } else {
        assert RowOk(w.q.rows[i], History(w.log, i));
      }
    }
  }

  lemma {:induction false} EnqueueKeepsLog(w: World, t: Task)
    requires LogOk(w) && t.attempt == 0
    ensures LogOk(w.(q := w.q.(rows := w.q.rows + [t])))
  {
    assert (w.q.rows + [t])[..|w.q.rows|] == w.q.rows;
  }

  lemma {:induction false} EnqueueKeeps(w: World, t: Task)
    requires Inv(w) && !HasKey(w.q.rows, t.key)
    requires t == NewTask(t.key, t.agentType, t.priority, t.maxAttempts, t.createdAt)
    ensures Inv(w.(q := w.q.(rows := w.q.rows + [t])))
  {
    EnqueueKeepsRows(w, t);
    EnqueueKeepsLog(w, t);
    EnqueueKeepsHolds(w.q, t);
    EnqueueKeepsKeys(w.q.rows, t);
  }

  lemma {:induction false} EnqueueKeepsHolds(q: Queue, t: Task)
    requires HoldsOk(q)
    ensures HoldsOk(q.(rows := q.rows + [t]))
  {
  }

  lemma {:induction false} EnqueueKeepsKeys(rows: seq<Task>, t: Task)
    requires KeysUnique(rows) && !HasKey(rows, t.key)
    ensures KeysUnique(rows + [t])
  {
  }

  lemma {:induction false} CommitKeepsRows(w: World, s: nat)
    requires Inv(w) && Enabled(w, Commit(s))
    ensures RowsOk(Apply(w, Commit(s)))
  {
    var h := w.q.holds[s];
    var t := w.q.rows[h.task];
    var w' := Apply(w, Commit(s));
    forall i | 0 <= i < |w'.q.rows|
      ensures RowOk(w'.q.rows[i], History(w'.log, i))
    {
      HistoryGrows(w.log, Claim(h.task, t.attempt + 1, h.worker, h.at, h.ttl), i);
      assert RowOk(w.q.rows[i], History(w.log, i));
      if i == h.task {
        ClaimKeepsRow(t, History(w.log, i), h);
      } else {
        assert History(w'.log, i) == History(w.log, i);
      }
    }
  }

  lemma {:induction false} CommitKeepsLog(w: World, s: nat)
    requires LogOk(w) && Enabled(w, Commit(s))
    ensures LogOk(Apply(w, Commit(s)))
  {
    var h := w.q.holds[s];
    TotalAfter(w.q.rows, h.task, ClaimedRow(w.q.rows[h.task], h));
    var w' := Apply(w, Commit(s));
    forall j, k | 0 <= j < k < |w'.log|
      ensures w'.log[j].task != w'.log[k].task || w'.log[j].attempt < w'.log[k].attempt
    {
      assert w'.log[j] == w.log[j];
    }
  }

  lemma {:induction false} CommitKeepsHolds(w: World, s: nat)
    requires HoldsOk(w.q) && Enabled(w, Commit(s))
    ensures HoldsOk(Apply(w, Commit(s)).q)
  {
    var q' := Apply(w, Commit(s)).q;
    forall r | r in q'.holds
      ensures q'.rows[q'.holds[r].task] == w.q.rows[w.q.holds[r].task]
    {
      assert w.q.holds[r].task != w.q.holds[s].task;
    }
  }

  lemma {:induction false} CommitKeepsKeys(w: World, s: nat)
    requires KeysUnique(w.q.rows) && Enabled(w, Commit(s))
    ensures KeysUnique(Apply(w, Commit(s)).q.rows)
  {
    SameKeysUnique(w.q.rows, Apply(w, Commit(s)).q.rows);
  }

  lemma {:induction false} CommitKeeps(w: World, s: nat)
    requires Inv(w) && Enabled(w, Commit(s))
    ensures Inv(Apply(w, Commit(s)))
  {
    CommitKeepsRows(w, s);
    CommitKeepsLog(w, s);
    CommitKeepsHolds(w, s);
    CommitKeepsKeys(w, s);
  }

  /** A step that rewrites rows one by one, keeping key and attempt and the state of locked rows. */
  lemma {:induction false} RewriteKeeps(w: World, rows': seq<Task>)
    requires Inv(w) && |rows'| == |w.q.rows|
    requires forall i | 0 <= i < |rows'| ::
      rows'[i].key == w.q.rows[i].key && rows'[i].attempt == w.q.rows[i].attempt
    requires RowsOk(w.(q := w.q.(rows := rows')))
    requires forall s | s in w.q.holds :: rows'[w.q.holds[s].task] == w.q.rows[w.q.holds[s].task]
    ensures Inv(w.(q := w.q.(rows := rows')))
  {
    TotalSame(w.q.rows, rows');
    var w' := w.(q := w.q.(rows := rows'));
    assert RowsOk(w') && HoldsOk(w'.q) && LogOk(w');
    assert KeysUnique(rows');
  }

  lemma {:induction false} StepKeeps(w: World, op: Op)
    requires Inv(w) && Enabled(w, op)
    ensures Inv(Apply(w, op))
  {
    match op
    case Enqueue(key, agentType, priority, maxAttempts, now) =>
      if !HasKey(w.q.rows, key) {
        EnqueueKeeps(w, NewTask(key, agentType, priority, maxAttempts, now));
      }
    case Commit(s) => CommitKeeps(w, s);
    case Recover(now) => RecoverKeeps(w, now);
    case Submit(i, result) => SubmitKeeps(w, i, result);
    case Lock(_, _, _, _, _, _, _) => LockKeeps(w, op);
    case Abort(_) =>
  }

  lemma {:induction false} LockKeeps(w: World, op: Op)
    requires Inv(w) && op.Lock? && Enabled(w, op)
    ensures Inv(Apply(w, op))
  {
    assert forall r | r in w.q.holds :: w.q.holds[r].task != op.task;
  }

  lemma {:induction false} RecoverKeeps(w: World, now: int)
    requires Inv(w) && Enabled(w, Recover(now))
    ensures Inv(Apply(w, Recover(now)))
  {
    forall i | 0 <= i < |w.q.rows|
      ensures RowOk(RecoveredRows(w.q.rows, now)[i], History(w.log, i))
    {
      RecoveryKeepsRow(w.q.rows[i], History(w.log, i), now);
    }
    RewriteKeeps(w, RecoveredRows(w.q.rows, now));
  }

  lemma {:induction false} SubmitKeeps(w: World, i: nat, result: string)
    requires Inv(w) && Enabled(w, Submit(i, result))
    ensures Inv(Apply(w, Submit(i, result)))
  {
    var rows' := w.q.rows[i := w.q.rows[i].(status := Completed, result := Some(result))];
    SubmitKeepsRows(w, i, result);
    assert forall s | s in w.q.holds :: w.q.holds[s].task != i;
    RewriteKeeps(w, rows');
  }

  lemma {:induction false} SubmitKeepsRows(w: World, i: nat, result: string)
    requires RowsOk(w) && i < |w.q.rows|
    ensures RowsOk(w.(q := w.q.(rows := w.q.rows[i := w.q.rows[i].(status := Completed, result := Some(result))])))
  {
    var rows' := w.q.rows[i := w.q.rows[i].(status := Completed, result := Some(result))];
    forall j | 0 <= j < |rows'|
      ensures RowOk(rows'[j], History(w.log, j))
    {
      assert RowOk(w.q.rows[j], History(w.log, j));
    }
  }

  lemma {:induction false} RunKeeps(ops: seq<Op>)
    requires Run(ops).Some?
    ensures Inv(Run(ops).value)
  {
    if ops != [] {
      RunKeeps(ops[..|ops| - 1]);
      StepKeeps(Run(ops[..|ops| - 1]).value, ops[|ops| - 1]);
    }
  }

  // ---------------------------------------------------------------- main results

  /** In every run: attempts are bounded, a waiting task has one left, and what it was leased is gone. */
  lemma {:induction false} AttemptsBounded(ops: seq<Op>, i: nat)
    requires Run(ops).Some? && i < |Run(ops).value.q.rows|
    ensures var t := Run(ops).value.q.rows[i];
      && (t.attempt <= 1 || t.attempt <= t.maxAttempts)
      && (t.maxAttempts >= 1 && t.status == Pending ==> t.attempt < t.maxAttempts)
      && (t.status in {Pending, Dead} ==> t.claimedBy.None? && t.delegatedToken.None?)
  {
    RunKeeps(ops);
    assert RowOk(Run(ops).value.q.rows[i], History(Run(ops).value.log, i));
  }

  /** In every run, however the claimers interleave, each attempt of a task has exactly one winner. */
  lemma {:induction false} OneWinnerPerAttempt(ops: seq<Op>, i: nat, a: nat)
    requires Run(ops).Some? && i < |Run(ops).value.q.rows|
    ensures var w := Run(ops).value;
      && (forall j, k | 0 <= j < |w.log| && 0 <= k < |w.log| && w.log[j].task == i == w.log[k].task
                        && w.log[j].attempt == a == w.log[k].attempt :: j == k)
      && (1 <= a <= w.q.rows[i].attempt ==>
            exists k | 0 <= k < |w.log| :: w.log[k].task == i && w.log[k].attempt == a)
  {
    var w := Run(ops).value;
    RunKeeps(ops);
    forall j, k | 0 <= j < |w.log| && 0 <= k < |w.log| && w.log[j].task == i == w.log[k].task
                  && w.log[j].attempt == a == w.log[k].attempt
      ensures j == k
    {
      assert forall m, n | 0 <= m < n < |w.log| && w.log[m].task == w.log[n].task ::
        w.log[m].attempt < w.log[n].attempt;
    }
    if 1 <= a <= w.q.rows[i].attempt {
      assert RowOk(w.q.rows[i], History(w.log, i));
      HistoryFromLog(w.log, i, a - 1);
    }
  }

  lemma {:induction false} HistoryFromLog(log: seq<Claim>, i: nat, k: nat)
    requires k < |History(log, i)|
    ensures exists j | 0 <= j < |log| :: log[j] == History(log, i)[k] && log[j].task == i
  {
    var n := |log| - 1;
    if k < |History(log[..n], i)| {
      HistoryFromLog(log[..n], i, k);
      var j :| 0 <= j < n && log[..n][j] == History(log[..n], i)[k] && log[..n][j].task == i;
      assert log[j] == History(log, i)[k];
    } else {
      assert log[n] == History(log, i)[k];
    }
  }

  /** In every run the number of claims is the sum of the attempts, so at most the sum of the caps. */
  lemma {:induction false} ClaimsBounded(ops: seq<Op>)
    requires Run(ops).Some?
    ensures |Run(ops).value.log| == TotalAttempts(Run(ops).value.q.rows) <= TotalCaps(Run(ops).value.q.rows)
  {
    RunKeeps(ops);
    var w := Run(ops).value;
    forall i | 0 <= i < |w.q.rows|
      ensures w.q.rows[i].attempt <= Cap(w.q.rows[i].maxAttempts)
    {
      assert RowOk(w.q.rows[i], History(w.log, i));
    }
    TotalWithinCaps(w.q.rows);
  }

  function LeaseSum(h: seq<Claim>, k: nat): int
    requires k <= |h|
  {
    if k == 0 then 0 else LeaseSum(h, k - 1) + h[k - 1].ttl
  }

  lemma {:induction false} SpacedAdds(h: seq<Claim>, k: nat)
    requires Spaced(h) && 1 <= k <= |h|
    ensures h[k - 1].at >= h[0].at + LeaseSum(h, k - 1) + (Pow2(k) - 2) * SECOND
  {
    if k > 1 {
      SpacedAdds(h, k - 1);
      assert h[k - 1].at > NotBefore(h[k - 2]);
    }
  }

  /**
   In every run the k-th claim of a task comes no earlier than its first claim, plus the leases
   of the claims between, plus 2^k - 2 seconds.  No assumption on the clock is needed.
   */
  lemma {:induction false} BackoffBetweenClaims(ops: seq<Op>, i: nat, k: nat)
    requires Run(ops).Some? && i < |Run(ops).value.q.rows|
    requires 1 <= k <= |History(Run(ops).value.log, i)|
    ensures var h := History(Run(ops).value.log, i);
      h[k - 1].at >= h[0].at + LeaseSum(h, k - 1) + (Pow2(k) - 2) * SECOND
  {
    RunKeeps(ops);
    assert RowOk(Run(ops).value.q.rows[i], History(Run(ops).value.log, i));
    SpacedAdds(History(Run(ops).value.log, i), k);
  }

  predicate Submits(op: Op, i: nat) {
    op.Submit? && op.task == i
  }

  lemma {:induction false} SpacedApart(h: seq<Claim>, j: nat, k: nat)
    requires Spaced(h) && j < k < |h| && forall m | 0 <= m < |h| :: h[m].ttl >= 0
    ensures h[k].at > h[j].at + h[j].ttl
  {
    assert h[k].at > NotBefore(h[k - 1]);
    if j < k - 1 {
      SpacedApart(h, j, k - 1);
    }
  }

  lemma {:induction false} LogInHistory(log: seq<Claim>, j: nat) returns (k: nat)
    requires j < |log|
    ensures k < |History(log, log[j].task)| && History(log, log[j].task)[k] == log[j]
  {
    var n := |log| - 1;
    if j == n {
      k := |History(log, log[j].task)| - 1;
    } else {
      k := LogInHistory(log[..n], j);
    }
  }

  /** In every run each claim of a task is later than the end of the lease before it, by more than the delay. */
  lemma {:induction false} ClaimsFollowLeases(ops: seq<Op>, i: nat, k: nat)
    requires Run(ops).Some? && i < |Run(ops).value.q.rows|
    requires 1 <= k < |History(Run(ops).value.log, i)|
    ensures var h := History(Run(ops).value.log, i);
      h[k].at > h[k - 1].at + h[k - 1].ttl + Pow2(k) * 1_000_000
  {
    HistorySpaced(ops, i);
    SpacedNext(History(Run(ops).value.log, i), k);
  }

  lemma {:induction false} HistorySpaced(ops: seq<Op>, i: nat)
    requires Run(ops).Some? && i < |Run(ops).value.q.rows|
    ensures Spaced(History(Run(ops).value.log, i))
  {
    RunKeeps(ops);
    assert RowOk(Run(ops).value.q.rows[i], History(Run(ops).value.log, i));
  }

  lemma {:induction false} SpacedNext(h: seq<Claim>, k: nat)
    requires Spaced(h) && 1 <= k < |h|
    ensures h[k].at > h[k - 1].at + h[k - 1].ttl + Pow2(k) * SECOND
  {
    assert h[k].at > NotBefore(h[k - 1]);
  }

  /** In every run with leases that are not negative, no two leases of a task are ever live together. */
  lemma {:induction false} LeasesNeverOverlap(ops: seq<Op>, j: nat, k: nat)
    requires Run(ops).Some? && j < k < |Run(ops).value.log|
    requires Run(ops).value.log[j].task == Run(ops).value.log[k].task
    requires forall m | 0 <= m < |Run(ops).value.log| :: Run(ops).value.log[m].ttl >= 0
    ensures Run(ops).value.log[k].at > Run(ops).value.log[j].at + Run(ops).value.log[j].ttl
  {
    var w := Run(ops).value;
    RunKeeps(ops);
    var i := w.log[j].task;
    var h := History(w.log, i);
    assert RowOk(w.q.rows[i], h);
    var a := LogInHistory(w.log, j);
    var b := LogInHistory(w.log, k);
    assert w.log[j].attempt < w.log[k].attempt;
    forall m | 0 <= m < |h|
      ensures h[m].ttl >= 0
    {
      HistoryFromLog(w.log, i, m);
    }
    SpacedApart(h, a, b);
  }

  /** A dead task comes back exactly when a late result is submitted for it: submitting has no guard. */
  lemma {:induction false} DeadUnlessSubmitted(w: World, op: Op, i: nat)
    requires Inv(w) && Enabled(w, op) && i < |w.q.rows| && w.q.rows[i].status == Dead
    ensures i < |Apply(w, op).q.rows|
    ensures Apply(w, op).q.rows[i].status != Dead <==> Submits(op, i)
  {
  }

  /** A completed task is never claimed again. */
  lemma {:induction false} CompletedIsFinal(w: World, op: Op, i: nat)
    requires Inv(w) && Enabled(w, op) && i < |w.q.rows| && w.q.rows[i].status == Completed
    ensures i < |Apply(w, op).q.rows|
    ensures Apply(w, op).q.rows[i].status == Completed
    ensures History(Apply(w, op).log, i) == History(w.log, i)
  {
    if op.Commit? {
      HistoryGrows(w.log, Apply(w, op).log[|w.log|], i);
    }
  }

  /** No result is submitted for the task from the `n`-th step on. */
  predicate NoneSubmitted(ops: seq<Op>, n: nat, i: nat) {
    forall k | n <= k < |ops| :: !Submits(ops[k], i)
  }

  lemma {:induction false} NoneSubmittedNext(ops: seq<Op>, n: nat, i: nat)
    requires n < |ops|
    ensures NoneSubmitted(ops, n, i) <==> NoneSubmitted(ops[..|ops| - 1], n, i) && !Submits(ops[|ops| - 1], i)
  {
  }

  lemma {:induction false} AfterDeath(w: World, op: Op, i: nat)
    requires Inv(w) && Enabled(w, op) && i < |w.q.rows| && w.q.rows[i].status in {Dead, Completed}
    ensures i < |Apply(w, op).q.rows| && Apply(w, op).q.rows[i].status in {Dead, Completed}
    ensures Apply(w, op).q.rows[i].status == Dead <==> w.q.rows[i].status == Dead && !Submits(op, i)
  {
    if w.q.rows[i].status == Dead {
      DeadUnlessSubmitted(w, op, i);
    } else {
      CompletedIsFinal(w, op, i);
    }
  }

  lemma {:induction false} LastStep(ops: seq<Op>)
    requires ops != [] && Run(ops).Some?
    ensures var front, last := ops[..|ops| - 1], ops[|ops| - 1];
      && Run(front).Some? && Inv(Run(front).value) && Enabled(Run(front).value, last)
      && Run(ops).value == Apply(Run(front).value, last)
  {
    RunKeeps(ops[..|ops| - 1]);
  }

  /**
   From the moment a task is dead, in every run: it is dead at the end if and only if no result was
   submitted for it since, and otherwise it is completed.
   */
  lemma {:induction false} DeadUntilSubmitted(ops: seq<Op>, n: nat, i: nat)
    requires Run(ops).Some? && n <= |ops| && Run(ops[..n]).Some?
    requires i < |Run(ops[..n]).value.q.rows| && Run(ops[..n]).value.q.rows[i].status == Dead
    ensures i < |Run(ops).value.q.rows| && Run(ops).value.q.rows[i].status in {Dead, Completed}
    ensures Run(ops).value.q.rows[i].status == Dead <==> NoneSubmitted(ops, n, i)
    decreases |ops|
  {
    if n == |ops| {
      assert ops[..n] == ops;
    } else {
      LastStep(ops);
      var front, last := ops[..|ops| - 1], ops[|ops| - 1];
      assert front[..n] == ops[..n];
      DeadUntilSubmitted(front, n, i);
      AfterDeath(Run(front).value, last, i);
      NoneSubmittedNext(ops, n, i);
    }
  }

  const WAITING := NewTask("k", "a", 0, 1, 0)
  const LEASE := Hold(0, "w", None, 5, 0)
  const CLAIM := Claim(0, 1, "w", 0, 5)
  const LEASED := World(Queue([ClaimedRow(WAITING, LEASE)], map[]), [CLAIM])

  /** A task with one attempt is added and leased until time 5. */
  const ONE_LEASE := [] + [Enqueue("k", "a", 0, 1, 0)] + [Lock(0, 0, "a", "w", None, 5, 0)] + [Commit(0)]

  lemma {:induction false} AfterEnqueue(ops: seq<Op>)
    requires Run(ops) == Some(EMPTY)
    ensures Run(ops + [Enqueue("k", "a", 0, 1, 0)]) == Some(World(Queue([WAITING], map[]), []))
  {
    RunsOn(ops, EMPTY, Enqueue("k", "a", 0, 1, 0));
    assert [] + [WAITING] == [WAITING];
  }

  lemma {:induction false} AfterLock(ops: seq<Op>)
    requires Run(ops) == Some(World(Queue([WAITING], map[]), []))
    ensures Run(ops + [Lock(0, 0, "a", "w", None, 5, 0)]) == Some(World(Queue([WAITING], map[0 := LEASE]), []))
  {
    var w := World(Queue([WAITING], map[]), []);
    assert IsNext(w.q, "a", 0, 0);
    RunsOn(ops, w, Lock(0, 0, "a", "w", None, 5, 0));
  }

  lemma {:induction false} AfterCommit(ops: seq<Op>)
    requires Run(ops) == Some(World(Queue([WAITING], map[0 := LEASE]), []))
    ensures Run(ops + [Commit(0)]) == Some(LEASED)
  {
    var w := World(Queue([WAITING], map[0 := LEASE]), []);
    RunsOn(ops, w, Commit(0));
    assert [WAITING][0 := ClaimedRow(WAITING, LEASE)] == [ClaimedRow(WAITING, LEASE)];
    assert map[0 := LEASE] - {0} == map[] && [] + [CLAIM] == [CLAIM];
  }

  lemma {:induction false} AfterExpiry(ops: seq<Op>)
    requires Run(ops) == Some(LEASED)
    ensures var dead := Run(ops + [Recover(6)]);
      && dead.Some? && dead.value.q.holds == map[]
      && |dead.value.q.rows| == 1 && dead.value.q.rows[0].status == Dead
  {
    RunsOn(ops, LEASED, Recover(6));
    assert RecoveredRow(ClaimedRow(WAITING, LEASE), 6).status == Dead;
  }

  lemma {:induction false} AfterLateResult(ops: seq<Op>)
    requires Run(ops).Some? && Run(ops).value.q.holds == map[] && |Run(ops).value.q.rows| == 1
    ensures var after := Run(ops + [Submit(0, "r")]);
      after.Some? && |after.value.q.rows| == 1 && after.value.q.rows[0].status == Completed
  {
    RunsOn(ops, Run(ops).value, Submit(0, "r"));
  }

  /** A result that comes after the only lease has run out completes the dead task. */
  lemma {:induction false} LateResultRevives()
    ensures var dead := Run(ONE_LEASE + [Recover(6)]);
      dead.Some? && |dead.value.q.rows| == 1 && dead.value.q.rows[0].status == Dead
    ensures var after := Run(ONE_LEASE + [Recover(6)] + [Submit(0, "r")]);
      after.Some? && |after.value.q.rows| == 1 && after.value.q.rows[0].status == Completed
  {
    var enqueued := [] + [Enqueue("k", "a", 0, 1, 0)];
    AfterEnqueue([]);
    AfterLock(enqueued);
    AfterCommit(enqueued + [Lock(0, 0, "a", "w", None, 5, 0)]);
    AfterExpiry(ONE_LEASE);
    AfterLateResult(ONE_LEASE + [Recover(6)]);
  }

  lemma {:induction false} RunsOn(ops: seq<Op>, w: World, op: Op)
    ensures Run(ops) == Some(w) && Enabled(w, op) ==> Run(ops + [op]) == Some(Apply(w, op))
  {
    assert (ops + [op])[..|ops|] == ops;
  }

  /** From the moment a task is completed, in every run: it stays so and is never claimed again. */
  lemma {:induction false} CompletedForever(ops: seq<Op>, n: nat, i: nat)
    requires Run(ops).Some? && n <= |ops| && Run(ops[..n]).Some?
    requires i < |Run(ops[..n]).value.q.rows| && Run(ops[..n]).value.q.rows[i].status == Completed
    ensures i < |Run(ops).value.q.rows| && Run(ops).value.q.rows[i].status == Completed
    ensures History(Run(ops).value.log, i) == History(Run(ops[..n]).value.log, i)
    decreases |ops|
  {
    if n == |ops| {
      assert ops[..n] == ops;
    } else {
      LastStep(ops);
      var front := ops[..|ops| - 1];
      assert front[..n] == ops[..n];
      CompletedForever(front, n, i);
      CompletedIsFinal(Run(front).value, ops[|ops| - 1], i);
    }
  }

  // ---------------------------------------------------------------- a recovered task comes back

  /** Row `i` is `t`, waits, and no claim has locked it. */
  predicate WaitsAs(w: World, i: nat, t: Task) {
    i < |w.q.rows| && w.q.rows[i] == t && t.status == Pending && !Locked(w.q, i)
  }

  predicate LeavesAlone(op: Op, i: nat) {
    !(op.Lock? && op.task == i) && !(op.Submit? && op.task == i)
  }

  lemma {:induction false} StepLeavesWaiting(w: World, op: Op, i: nat, t: Task)
    requires Enabled(w, op) && WaitsAs(w, i, t) && LeavesAlone(op, i)
    ensures WaitsAs(Apply(w, op), i, t)
  {
    var w' := Apply(w, op);
    forall s | s in w'.q.holds
      ensures w'.q.holds[s].task != i
    {
      assert s in w.q.holds ==> w.q.holds[s].task != i;
    }
    if op.Commit? {
      assert w.q.holds[op.session].task != i;
    }
  }

  lemma {:induction false} RunLeavesWaiting(before: seq<Op>, after: seq<Op>, i: nat, t: Task)
    requires Run(before).Some? && WaitsAs(Run(before).value, i, t) && Run(before + after).Some?
    requires forall k | 0 <= k < |after| :: LeavesAlone(after[k], i)
    ensures WaitsAs(Run(before + after).value, i, t)
    decreases |after|
  {
    if after == [] {
      assert before + after == before;
    } else {
      var front := after[..|after| - 1];
      assert (before + after)[..|before + after| - 1] == before + front;
      LastStep(before + after);
      RunLeavesWaiting(before, front, i, t);
      StepLeavesWaiting(Run(before + front).value, after[|after| - 1], i, t);
    }
  }

  lemma {:induction false} RecoveryWaits(w: World, i: nat, now: int)
    requires Inv(w) && i < |w.q.rows|
    requires var t := w.q.rows[i];
      t.status == Claimed && t.claimExpiresAt.Some? && t.claimExpiresAt.value < now && t.attempt < t.maxAttempts
    ensures var t := w.q.rows[i];
      WaitsAs(Apply(w, Recover(now)), i, t.(status := Pending, claimedBy := None, claimExpiresAt := None,
        delegatedToken := None, nextRetryAt := Some(now + Pow2(t.attempt) * 1_000_000)))
  {
    assert !Locked(w.q, i);
    assert Stale(w.q.rows[i], now);
  }

  lemma {:induction false} OnlyOneFree(q: Queue, i: nat, now: int)
    requires i < |q.rows| && Free(q, q.rows[i].agentType, now, i)
    requires forall j | 0 <= j < |q.rows| && j != i && q.rows[j].agentType == q.rows[i].agentType
                        && q.rows[j].status == Pending
                        && (q.rows[j].nextRetryAt.None? || q.rows[j].nextRetryAt.value <= now) ::
               exists s | s in q.holds :: q.holds[s].task == j
    ensures IsNext(q, q.rows[i].agentType, now, i)
  {
    forall j: nat | j < |q.rows| && Free(q, q.rows[i].agentType, now, j)
      ensures j == i
    {
      assert !Locked(q, j);
    }
  }

  /**
   In every run a task that is recovered at `t` with an attempt left, and that no claim has locked and
   no result was submitted for since, can be claimed at any time from `t` plus 2^attempt seconds on,
   unless another row of its type could be: the run goes on with a claim that leases it.
   */
  lemma {:induction false} RecoveredTaskIsClaimed(before: seq<Op>, t: int, after: seq<Op>, i: nat, s: nat,
                                                  worker: string, token: Option<string>, ttl: int, now: int)
    requires Run(before).Some? && i < |Run(before).value.q.rows|
    requires var task := Run(before).value.q.rows[i];
      && task.status == Claimed && task.claimExpiresAt.Some? && task.claimExpiresAt.value < t
      && task.attempt < task.maxAttempts
      && now >= t + Pow2(task.attempt) * 1_000_000
    requires forall k | 0 <= k < |after| ::
      !(after[k].Lock? && after[k].task == i) && !(after[k].Submit? && after[k].task == i)
    requires Run(before + [Recover(t)] + after).Some? && s !in Run(before + [Recover(t)] + after).value.q.holds
    requires var q := Run(before + [Recover(t)] + after).value.q;
      forall j | 0 <= j < |q.rows| && j != i && q.rows[j].agentType == Run(before).value.q.rows[i].agentType
                 && q.rows[j].status == Pending
                 && (q.rows[j].nextRetryAt.None? || q.rows[j].nextRetryAt.value <= now) ::
        exists r | r in q.holds :: q.holds[r].task == j
    ensures var task := Run(before).value.q.rows[i];
      var claimed := Run(before + [Recover(t)] + after
                         + [Lock(s, i, task.agentType, worker, token, ttl, now)] + [Commit(s)]);
      && claimed.Some? && i < |claimed.value.q.rows|
      && claimed.value.q.rows[i].status == Claimed
      && claimed.value.q.rows[i].claimedBy == Some(worker)
      && claimed.value.q.rows[i].attempt == task.attempt + 1
  {
    var task := Run(before).value.q.rows[i];
    var waiting := task.(status := Pending, claimedBy := None, claimExpiresAt := None, delegatedToken := None,
                         nextRetryAt := Some(t + Pow2(task.attempt) * 1_000_000));
    RunKeeps(before);
    RecoveryWaits(Run(before).value, i, t);
    RunsOn(before, Run(before).value, Recover(t));
    RunLeavesWaiting(before + [Recover(t)], after, i, waiting);
    var ops := before + [Recover(t)] + after;
    OnlyOneFree(Run(ops).value.q, i, now);
    ClaimRuns(ops, Lock(s, i, task.agentType, worker, token, ttl, now));
  }

  lemma {:induction false} ClaimRuns(ops: seq<Op>, op: Op)
    requires Run(ops).Some? && op.Lock? && Enabled(Run(ops).value, op)
    ensures var claimed := Run(ops + [op] + [Commit(op.session)]);
      && claimed.Some? && op.task < |claimed.value.q.rows|
      && claimed.value.q.rows[op.task].status == Claimed
      && claimed.value.q.rows[op.task].claimedBy == Some(op.worker)
      && claimed.value.q.rows[op.task].attempt == Run(ops).value.q.rows[op.task].attempt + 1
  {
    var w := Run(ops).value;
    RunsOn(ops, w, op);
    RunsOn(ops + [op], Apply(w, op), Commit(op.session));
  }

  /** The claim can return nothing only when no task is due and unlocked. */
  lemma {:induction false} NextExists(q: Queue, agentType: string, now: int)
    requires exists i: nat | i < |q.rows| :: Free(q, agentType, now, i)
    ensures exists i: nat | i < |q.rows| :: IsNext(q, agentType, now, i)
  {
    var i := FirstAmong(q, agentType, now, |q.rows|);
    assert IsNext(q, agentType, now, i);
  }

  lemma {:induction false} FirstAmong(q: Queue, agentType: string, now: int, n: nat) returns (i: nat)
    requires n <= |q.rows|
    requires exists i: nat | i < n :: Free(q, agentType, now, i)
    ensures i < n && Free(q, agentType, now, i)
    ensures forall j: nat | j < n && Free(q, agentType, now, j) :: NoLater(q.rows[i], q.rows[j])
  {
    i := n - 1;
    if exists j: nat | j < n - 1 :: Free(q, agentType, now, j) {
      var first := FirstAmong(q, agentType, now, n - 1);
      if !Free(q, agentType, now, i) || NoLater(q.rows[first], q.rows[i]) {
        i := first;
      }
    }
  }

  // ---------------------------------------------------------------- the table

  /** The functions of the module as methods on the table they update. */
  class TaskTable {
    var rows: seq<Task>
    var holds: map<nat, Hold>
    ghost var log: seq<Claim>

    constructor ()
      ensures Snapshot() == EMPTY
    {
      rows, holds, log := [], map[], [];
    }

    ghost function Snapshot(): World
      reads this
    {
      World(Queue(rows, holds), log)
    }

    /** Idempotent: a second enqueue under one key returns the first task and changes nothing. */
    method EnqueueTask(key: string, agentType: string, priority: int, maxAttempts: int, now: int)
      returns (id: nat)
      modifies this
      ensures id < |rows| && rows[id].key == key && holds == old(holds)
      ensures id < |old(rows)| ==> Snapshot() == old(Snapshot())
      ensures id >= |old(rows)| ==>
        && (forall i | 0 <= i < |old(rows)| :: old(rows)[i].key != key)
        && rows == old(rows) + [Task(key, agentType, Pending, None, None, None, None, 0, maxAttempts, None,
                                     priority, now)]
      ensures Snapshot() == Apply(old(Snapshot()), Enqueue(key, agentType, priority, maxAttempts, now))
    {
      if i: nat :| i < |rows| && rows[i].key == key {
        assert HasKey(rows, key);
        id := i;
      } else {
        assert !HasKey(rows, key);
        id := |rows|;
        rows := rows + [NewTask(key, agentType, priority, maxAttempts, now)];
      }
    }

    /**
     Nothing is returned exactly when no row of the type is pending, due and unlocked; otherwise one of
     least priority number, and among those of greatest age, is leased.
     */
    method ClaimNextTask(session: nat, agentType: string, worker: string, token: Option<string>, ttl: int, now: int)
      returns (claimed: Option<nat>)
      requires session !in holds
      modifies this
      ensures claimed.None? ==>
        && Snapshot() == old(Snapshot())
        && forall i | 0 <= i < |rows| && rows[i].agentType == agentType && rows[i].status == Pending
                      && (rows[i].nextRetryAt.None? || rows[i].nextRetryAt.value <= now) ::
             exists s | s in holds :: holds[s].task == i
      ensures claimed.Some? ==>
        && claimed.value < |old(rows)|
        && var t := old(rows)[claimed.value];
        && t.agentType == agentType && t.status == Pending
        && (t.nextRetryAt.None? || t.nextRetryAt.value <= now)
        && (forall s | s in old(holds) :: old(holds)[s].task != claimed.value)
        && rows == old(rows)[claimed.value := t.(status := Claimed, claimedBy := Some(worker),
             claimExpiresAt := Some(now + ttl), delegatedToken := token, attempt := t.attempt + 1)]
        && holds == old(holds)
      ensures claimed.Some? ==>
        var t := old(rows)[claimed.value];
        forall i | 0 <= i < |old(rows)| && old(rows)[i].agentType == agentType && old(rows)[i].status == Pending
                   && (old(rows)[i].nextRetryAt.None? || old(rows)[i].nextRetryAt.value <= now)
                   && (forall s | s in old(holds) :: old(holds)[s].task != i) ::
          t.priority < old(rows)[i].priority
          || (t.priority == old(rows)[i].priority && t.createdAt <= old(rows)[i].createdAt)
      ensures claimed.Some? ==>
        var op := Lock(session, claimed.value, agentType, worker, token, ttl, now);
        && Enabled(old(Snapshot()), op)
        && Enabled(Apply(old(Snapshot()), op), Commit(session))
        && Snapshot() == Apply(Apply(old(Snapshot()), op), Commit(session))
    {
      var q := Queue(rows, holds);
      if i: nat :| i < |rows| && IsNext(q, agentType, now, i) {
        var h := Hold(i, worker, token, ttl, now);
        log := log + [Claim(i, rows[i].attempt + 1, worker, now, ttl)];
        rows := rows[i := ClaimedRow(rows[i], h)];
        assert holds[session := h] - {session} == holds;
        claimed := Some(i);
      } else {
        if exists i: nat | i < |rows| :: Free(q, agentType, now, i) {
          NextExists(q, agentType, now);
        }
        forall i: nat | i < |rows| && Eligible(rows[i], agentType, now)
          ensures Locked(q, i)
        {
          assert !Free(q, agentType, now, i);
        }
        claimed := None;
      }
    }

    method SubmitTaskResult(id: nat, result: string) returns (found: bool)
      requires !Locked(Queue(rows, holds), id)
      modifies this
      ensures (found <==> id < |old(rows)|) && holds == old(holds)
      ensures !found ==> Snapshot() == old(Snapshot())
      ensures found ==> Snapshot() == Apply(old(Snapshot()), Submit(id, result))
      ensures found ==> rows == old(rows)[id := old(rows)[id].(status := Completed, result := Some(result))]
    {
      found := id < |rows|;
      if found {
        rows := rows[id := rows[id].(status := Completed, result := Some(result))];
      }
    }

    /** Returns the ids of the rows whose lease had run out; each is dead or waiting afterwards. */
    method RecoverStaleClaims(now: int) returns (recovered: set<nat>)
      modifies this
      ensures Snapshot() == Apply(old(Snapshot()), Recover(now))
      ensures |rows| == |old(rows)| && (forall i | i in recovered :: i < |rows|) && holds == old(holds)
      ensures forall i | 0 <= i < |rows| ::
        var t := old(rows)[i];
        i in recovered <==> t.status == Claimed && t.claimExpiresAt.Some? && t.claimExpiresAt.value < now
      ensures forall i | 0 <= i < |rows| ::
        var t := old(rows)[i];
        rows[i] ==
        if i !in recovered then t
        else if t.attempt >= t.maxAttempts then
          t.(status := Dead, claimedBy := None, claimExpiresAt := None, delegatedToken := None, nextRetryAt := None)
        else
          t.(status := Pending, claimedBy := None, claimExpiresAt := None, delegatedToken := None,
             nextRetryAt := Some(now + Pow2(t.attempt) * 1_000_000))
    {
      recovered := set i: nat | i < |rows| && Stale(rows[i], now);
      rows := RecoveredRows(rows, now);
    }
  }
}
