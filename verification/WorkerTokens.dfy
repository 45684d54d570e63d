/**
 Single-use worker tokens and the revocation list (packages/db/worker-tokens.ts,
 packages/db/revocation.ts).

 Consuming a token is an UPDATE of its row and then a separate INSERT into the revocation list;
 invalidating a pod is one UPDATE and then one INSERT per row.  The transition system lets every
 other call run between those statements: a call that has stamped rows but not yet mirrored them
 all is in `pending`.
 */
module WorkerTokens {
  import opened Prelude

  datatype Token = Token(pod: string, expiresAt: int, consumedAt: Option<int>, invalidatedAt: Option<int>)

  datatype Store = Store(
    now: int,
    tokens: map<string, Token>,
    revoked: map<string, int>,
    pending: map<nat, seq<string>>,
    accepted: seq<string>)

  datatype Op =
    | Tick(now: int)
    | Persist(jti: string, pod: string, expiresAt: int)
    | Consume(call: nat, jti: string)
    | Invalidate(call: nat, pod: string, order: seq<string>)
    | Mirror(call: nat)
    | Revoke(jti: string, expiresAt: int)
    | Cleanup

  function Start(now: int): Store {
    Store(now, map[], map[], map[], [])
  }

  predicate Unused(t: Token) {
    t.consumedAt.None? && t.invalidatedAt.None?
  }

  predicate Accepts(tokens: map<string, Token>, jti: string, now: int) {
    jti in tokens && Unused(tokens[jti]) && tokens[jti].expiresAt > now
  }

  function UnusedOf(tokens: map<string, Token>, pod: string): set<string> {
    set j | j in tokens && tokens[j].pod == pod && Unused(tokens[j])
  }

  function Stamped(tokens: map<string, Token>, jtis: set<string>, now: int): map<string, Token> {
    map j | j in tokens :: if j in jtis then tokens[j].(invalidatedAt := Some(now)) else tokens[j]
  }

  /** INSERT ... ON CONFLICT DO NOTHING */
  function Inserted(revoked: map<string, int>, jti: string, expiresAt: int): map<string, int> {
    if jti in revoked then revoked else revoked[jti := expiresAt]
  }

  function Unexpired(revoked: map<string, int>, now: int): map<string, int> {
    map j | j in revoked && !(revoked[j] < now) :: revoked[j]
  }

  predicate Lists(order: seq<string>, jtis: set<string>) {
    && (forall i | 0 <= i < |order| :: order[i] in jtis)
    && (forall j | j in jtis :: j in order)
    && (forall i, k | 0 <= i < k < |order| :: order[i] != order[k])
  }

  predicate Enabled(s: Store, op: Op) {
    match op
    case Tick(now) => s.now <= now
    case Consume(call, _) => call !in s.pending
    case Invalidate(call, pod, order) => call !in s.pending && Lists(order, UnusedOf(s.tokens, pod))
    case Mirror(call) => call in s.pending && s.pending[call] != [] && s.pending[call][0] in s.tokens
    case _ => true
  }

  function Apply(s: Store, op: Op): Store
    requires Enabled(s, op)
  {
    match op
    case Tick(now) => s.(now := now)
    case Persist(jti, pod, expiresAt) =>
      if jti in s.tokens then s else s.(tokens := s.tokens[jti := Token(pod, expiresAt, None, None)])
    case Consume(call, jti) =>
      if !Accepts(s.tokens, jti, s.now) then s
      else s.(tokens := s.tokens[jti := s.tokens[jti].(consumedAt := Some(s.now))],
              pending := s.pending[call := [jti]],
              accepted := s.accepted + [jti])
    case Invalidate(call, pod, order) =>
      s.(tokens := Stamped(s.tokens, UnusedOf(s.tokens, pod), s.now), pending := s.pending[call := order])
    case Mirror(call) =>
      var jti := s.pending[call][0];
      s.(revoked := Inserted(s.revoked, jti, s.tokens[jti].expiresAt),
         pending := s.pending[call := s.pending[call][1..]])
    case Revoke(jti, expiresAt) => s.(revoked := Inserted(s.revoked, jti, expiresAt))
    case Cleanup => s.(revoked := Unexpired(s.revoked, s.now))
  }

  function RunFrom(s: Store, ops: seq<Op>): Option<Store>
    decreases |ops|
  {
    if ops == [] then Some(s)
    else if Enabled(s, ops[0]) then RunFrom(Apply(s, ops[0]), ops[1..]) else None
  }

  // ---------------------------------------------------------------- single use

  ghost predicate SingleUse(s: Store) {
    && (forall j | j in s.tokens :: s.tokens[j].consumedAt.None? || s.tokens[j].invalidatedAt.None?)
    && (forall j | j in s.tokens && s.tokens[j].consumedAt.Some? ::
          s.tokens[j].consumedAt.value < s.tokens[j].expiresAt)
    && (forall j :: j in s.accepted <==> j in s.tokens && s.tokens[j].consumedAt.Some?)
    && (forall i, k | 0 <= i < k < |s.accepted| :: s.accepted[i] != s.accepted[k])
    && (forall c | c in s.pending :: forall i | 0 <= i < |s.pending[c]| ::
          s.pending[c][i] in s.tokens && !Unused(s.tokens[s.pending[c][i]]))
  }

  lemma {:induction false} ConsumeIsSingleUse(s: Store, call: nat, jti: string)
    requires SingleUse(s) && call !in s.pending
    ensures SingleUse(Apply(s, Consume(call, jti)))
  {
    if Accepts(s.tokens, jti, s.now) {
      assert jti !in s.accepted;
    }
  }

  lemma {:induction false} StepIsSingleUse(s: Store, op: Op)
    requires SingleUse(s) && Enabled(s, op)
    ensures SingleUse(Apply(s, op))
  {
    match op
    case Consume(call, jti) => ConsumeIsSingleUse(s, call, jti);
    case Mirror(call) =>
      assert forall i | 0 <= i < |s.pending[call]| - 1 :: s.pending[call][1..][i] == s.pending[call][i + 1];
    case _ =>
  }

  lemma {:induction false} RunIsSingleUse(s: Store, ops: seq<Op>)
    requires SingleUse(s) && RunFrom(s, ops).Some?
    ensures SingleUse(RunFrom(s, ops).value)
    decreases |ops|
  {
    if ops != [] {
      StepIsSingleUse(s, ops[0]);
      RunIsSingleUse(Apply(s, ops[0]), ops[1..]);
    }
  }

  /**
   In every interleaving a token is accepted at most once, before it expires, and never both consumed and
   invalidated.
   */
  lemma {:induction false} AcceptedAtMostOnce(now: int, ops: seq<Op>)
    requires RunFrom(Start(now), ops).Some?
    ensures var s := RunFrom(Start(now), ops).value;
      && (forall i, k | 0 <= i < k < |s.accepted| :: s.accepted[i] != s.accepted[k])
      && (forall j | j in s.accepted ::
            j in s.tokens && s.tokens[j].consumedAt.Some? && s.tokens[j].consumedAt.value < s.tokens[j].expiresAt)
      && (forall j | j in s.tokens :: !(s.tokens[j].consumedAt.Some? && s.tokens[j].invalidatedAt.Some?))
  {
    RunIsSingleUse(Start(now), ops);
  }

  /** A used token stays as it is, whatever runs later, and is not accepted again. */
  lemma {:induction false} UsedForever(s: Store, ops: seq<Op>, jti: string)
    requires jti in s.tokens && (s.tokens[jti].consumedAt.Some? || s.tokens[jti].invalidatedAt.Some?)
    requires RunFrom(s, ops).Some?
    ensures var s' := RunFrom(s, ops).value;
      && jti in s'.tokens && s'.tokens[jti] == s.tokens[jti]
      && s.accepted <= s'.accepted
      && forall k | |s.accepted| <= k < |s'.accepted| :: s'.accepted[k] != jti
    decreases |ops|
  {
    if ops != [] {
      UsedForever(Apply(s, ops[0]), ops[1..], jti);
    }
  }

  // ---------------------------------------------------------------- revoked until expiry

  /** Every call that names a token gives its own expiry. */
  ghost predicate Faithful(op: Op, expiry: string -> int) {
    && (op.Persist? ==> op.expiresAt == expiry(op.jti))
    && (op.Revoke? ==> op.expiresAt == expiry(op.jti))
  }

  ghost predicate Unfinished(s: Store, jti: string) {
    exists c | c in s.pending :: jti in s.pending[c]
  }

  /** The token is used up and every call that used it has finished. */
  ghost predicate Settled(s: Store, jti: string) {
    jti in s.tokens && !Unused(s.tokens[jti]) && !Unfinished(s, jti)
  }

  ghost predicate Guarded(s: Store, expiry: string -> int) {
    && (forall j | j in s.tokens :: s.tokens[j].expiresAt == expiry(j))
    && (forall j | j in s.revoked :: s.revoked[j] == expiry(j))
    && (forall j | Settled(s, j) :: j in s.revoked || expiry(j) < s.now)
  }

  lemma {:induction false} StepIsGuarded(s: Store, op: Op, expiry: string -> int)
    requires Guarded(s, expiry) && Enabled(s, op) && Faithful(op, expiry)
    ensures Guarded(Apply(s, op), expiry)
  {
    var s' := Apply(s, op);
    forall j | Settled(s', j)
      ensures j in s'.revoked || expiry(j) < s'.now
    {
      if !Settled(s, j) {
        StampedNeedsMirror(s, op, j);
      }
    }
  }

  /** A token becomes settled only by the insert that mirrors it. */
  lemma {:induction false} StampedNeedsMirror(s: Store, op: Op, j: string)
    requires Enabled(s, op) && !Settled(s, j) && Settled(Apply(s, op), j)
    ensures op.Mirror? && s.pending[op.call][0] == j
  {
    var s' := Apply(s, op);
    match op
    case Consume(call, jti) =>
      if Accepts(s.tokens, jti, s.now) {
        assert s'.pending[call] == [jti];
        forall c | c in s.pending ensures j !in s.pending[c] {
          assert s'.pending[c] == s.pending[c];
        }
      }
    case Invalidate(call, pod, order) =>
      assert s'.pending[call] == order;
      forall c | c in s.pending ensures j !in s.pending[c] {
        assert s'.pending[c] == s.pending[c];
      }
    case Mirror(call) =>
      var c :| c in s.pending && j in s.pending[c];
      assert j !in s'.pending[c];
      assert s.pending[call] == [s.pending[call][0]] + s.pending[call][1..];
    case _ =>
  }

  lemma {:induction false} RunIsGuarded(s: Store, ops: seq<Op>, expiry: string -> int)
    requires Guarded(s, expiry) && RunFrom(s, ops).Some?
    requires forall k | 0 <= k < |ops| :: Faithful(ops[k], expiry)
    ensures Guarded(RunFrom(s, ops).value, expiry)
    decreases |ops|
  {
    if ops != [] {
      StepIsGuarded(s, ops[0], expiry);
      RunIsGuarded(Apply(s, ops[0]), ops[1..], expiry);
    }
  }

  /**
   In every interleaving, cleanup included: once the call that used a token up has finished, the
   token is revoked for as long as it has not expired.
   */
  lemma {:induction false} RevokedUntilExpiry(now: int, ops: seq<Op>, expiry: string -> int, jti: string)
    requires RunFrom(Start(now), ops).Some?
    requires forall k | 0 <= k < |ops| :: Faithful(ops[k], expiry)
    ensures var s := RunFrom(Start(now), ops).value;
      && jti in s.tokens && (s.tokens[jti].consumedAt.Some? || s.tokens[jti].invalidatedAt.Some?)
      && (forall c | c in s.pending :: jti !in s.pending[c])
      && s.now <= expiry(jti)
      ==> jti in s.revoked
  {
    RunIsGuarded(Start(now), ops, expiry);
    var s := RunFrom(Start(now), ops).value;
    assert Settled(s, jti) ==> jti in s.revoked || expiry(jti) < s.now;
  }

  // ---------------------------------------------------------------- exactly when, without that assumption

  lemma {:induction false} CoveredStaysRevoked(s: Store, ops: seq<Op>, jti: string)
    requires jti in s.revoked && RunFrom(s, ops).Some?
    ensures RunFrom(s, ops).value.now > s.revoked[jti] ||
      (jti in RunFrom(s, ops).value.revoked && RunFrom(s, ops).value.revoked[jti] == s.revoked[jti])
    ensures RunFrom(s, ops).value.now >= s.now
    decreases |ops|
  {
    if ops != [] {
      var s1 := Apply(s, ops[0]);
      if jti in s1.revoked {
        CoveredStaysRevoked(s1, ops[1..], jti);
      } else {
        ClockMonotone(s1, ops[1..]);
      }
    }
  }

  lemma {:induction false} ClockMonotone(s: Store, ops: seq<Op>)
    requires RunFrom(s, ops).Some?
    ensures RunFrom(s, ops).value.now >= s.now
    decreases |ops|
  {
    if ops != [] {
      ClockMonotone(Apply(s, ops[0]), ops[1..]);
    }
  }

  /**
   A token revoked now stays revoked until it expires, in every continuation, if and only if the
   row on the list outlives it: the insert ignores a conflict, so a row that an earlier call put
   there with a shorter expiry is what cleanup goes by.
   */
  lemma {:induction false} StaysRevokedIff(s: Store, jti: string)
    requires jti in s.tokens && jti in s.revoked && s.now <= s.tokens[jti].expiresAt
    ensures (forall ops: seq<Op> | RunFrom(s, ops).Some? ::
               RunFrom(s, ops).value.now > s.tokens[jti].expiresAt || jti in RunFrom(s, ops).value.revoked)
            <==> s.revoked[jti] >= s.tokens[jti].expiresAt
  {
    var end := s.tokens[jti].expiresAt;
    if s.revoked[jti] >= end {
      forall ops: seq<Op> | RunFrom(s, ops).Some?
        ensures RunFrom(s, ops).value.now > end || jti in RunFrom(s, ops).value.revoked
      {
        CoveredStaysRevoked(s, ops, jti);
      }
    } else {
      var ops := [Tick(end), Cleanup];
      var s1 := Apply(s, Tick(end));
      assert ops[1..] == [Cleanup] && ops[1..][1..] == [];
      assert RunFrom(s1, [Cleanup]) == RunFrom(Apply(s1, Cleanup), []);
      assert RunFrom(s, ops) == Some(Apply(s1, Cleanup));
      assert !(RunFrom(s, ops).value.now > end || jti in RunFrom(s, ops).value.revoked);
    }
  }

  lemma {:induction false} RunsFirst(s: Store, op: Op, rest: seq<Op>)
    requires Enabled(s, op)
    ensures RunFrom(s, [op] + rest) == RunFrom(Apply(s, op), rest)
  {
    assert ([op] + rest)[1..] == rest;
  }

  lemma {:induction false} CleanedEarly(s: Store)
    requires s.now == 0 && s.revoked == map["t" := 1]
    ensures var after := RunFrom(s, [Tick(5)] + [Cleanup]);
      after == Some(s.(now := 5, revoked := map[]))
  {
    var later := s.(now := 5);
    RunsFirst(s, Tick(5), [Cleanup]);
    RunsFirst(later, Cleanup, []);
    assert [Cleanup] + [] == [Cleanup] && Unexpired(later.revoked, 5) == map[];
  }

  /** A token listed with a shorter expiry than its own, then consumed, is off the list before it expires. */
  lemma {:induction false} ShortListingIsCleaned()
    ensures var ops :=
        [Persist("t", "p", 10)] + ([Revoke("t", 1)] + ([Consume(0, "t")] + ([Mirror(0)] + ([Tick(5)] + [Cleanup]))));
      && RunFrom(Start(0), ops).Some?
      && var s := RunFrom(Start(0), ops).value;
         && "t" in s.tokens && s.tokens["t"].consumedAt.Some? && (forall c | c in s.pending :: "t" !in s.pending[c])
         && s.now < s.tokens["t"].expiresAt && "t" !in s.revoked
  {
    var end := [Tick(5)] + [Cleanup];
    var s1 := Apply(Start(0), Persist("t", "p", 10));
    var s2 := Apply(s1, Revoke("t", 1));
    var s3 := Apply(s2, Consume(0, "t"));
    assert s3.pending[0] == ["t"] && s3.revoked == map["t" := 1];
    var s4 := Apply(s3, Mirror(0));
    assert s4.pending == map[0 := []] && s4.revoked == map["t" := 1];
    RunsFirst(Start(0), Persist("t", "p", 10), [Revoke("t", 1)] + ([Consume(0, "t")] + ([Mirror(0)] + end)));
    RunsFirst(s1, Revoke("t", 1), [Consume(0, "t")] + ([Mirror(0)] + end));
    RunsFirst(s2, Consume(0, "t"), [Mirror(0)] + end);
    RunsFirst(s3, Mirror(0), end);
    CleanedEarly(s4);
  }

  // ---------------------------------------------------------------- the tables

  /** The revocations after the tokens in `done` are mirrored: one that was there keeps its own expiry. */
  function Mirrored(tokens: map<string, Token>, done: set<string>, revoked: map<string, int>): map<string, int> {
    (map j | j in done && j in tokens :: tokens[j].expiresAt) + revoked
  }

  lemma {:induction false} MirrorOne(tokens: map<string, Token>, done: set<string>, revoked: map<string, int>,
      jti: string)
    requires jti in tokens && jti !in done
    ensures Mirrored(tokens, done + {jti}, revoked) ==
      Inserted(Mirrored(tokens, done, revoked), jti, tokens[jti].expiresAt)
  {
  }

  /** The rest of a call that nothing interrupts: its inserts, one after the other. */
  function Finished(s: Store, call: nat): Store
    requires call in s.pending && forall i | 0 <= i < |s.pending[call]| :: s.pending[call][i] in s.tokens
    decreases if call in s.pending then |s.pending[call]| else 0
  {
    if s.pending[call] == [] then s else Finished(Apply(s, Mirror(call)), call)
  }

  function SetOf(order: seq<string>): set<string> {
    set j | j in order
  }

  lemma {:induction false} FinishedMirrors(s: Store, call: nat)
    requires call in s.pending && forall i | 0 <= i < |s.pending[call]| :: s.pending[call][i] in s.tokens
    ensures var s' := Finished(s, call);
      s'.tokens == s.tokens && s'.revoked == Mirrored(s.tokens, SetOf(s.pending[call]), s.revoked)
    decreases |s.pending[call]|
  {
    var order := s.pending[call];
    if order == [] {
      assert Mirrored(s.tokens, SetOf(order), s.revoked) == s.revoked;
    } else {
      FinishedMirrors(Apply(s, Mirror(call)), call);
      assert order == [order[0]] + order[1..];
      MirroredFirst(s.tokens, order, s.revoked);
    }
  }

  lemma {:induction false} MirroredFirst(tokens: map<string, Token>, order: seq<string>, revoked: map<string, int>)
    requires order != [] && order[0] in tokens
    ensures Mirrored(tokens, SetOf(order[1..]), Inserted(revoked, order[0], tokens[order[0]].expiresAt)) ==
      Mirrored(tokens, SetOf(order), revoked)
  {
    assert SetOf(order) == {order[0]} + SetOf(order[1..]) by {
      assert order == [order[0]] + order[1..];
    }
  }

  /**
   Uninterrupted, the steps of a pod invalidation stamp and list exactly the unused tokens of the pod, in whatever
   order it mirrors, and leave every other row of both tables alone.
   */
  lemma {:induction false} InvalidationRefines(s: Store, call: nat, pod: string, order: seq<string>)
    requires call !in s.pending && forall i, k | 0 <= i < k < |order| :: order[i] != order[k]
    requires forall j :: j in order <==>
      j in s.tokens && s.tokens[j].pod == pod && s.tokens[j].consumedAt.None? && s.tokens[j].invalidatedAt.None?
    ensures Enabled(s, Invalidate(call, pod, order))
    ensures var s' := Finished(Apply(s, Invalidate(call, pod, order)), call);
      && s'.tokens.Keys == s.tokens.Keys
      && (forall j | j in s.tokens ::
            s'.tokens[j] == if j in order then s.tokens[j].(invalidatedAt := Some(s.now)) else s.tokens[j])
      && (forall j :: j in s'.revoked <==> j in s.revoked || j in order)
      && (forall j | j in s'.revoked ::
            s'.revoked[j] == if j in s.revoked then s.revoked[j] else s.tokens[j].expiresAt)
  {
    assert Lists(order, UnusedOf(s.tokens, pod));
    var s1 := Apply(s, Invalidate(call, pod, order));
    assert s1.pending[call] == order && s1.tokens.Keys == s.tokens.Keys;
    FinishedMirrors(s1, call);
    assert SetOf(order) == UnusedOf(s.tokens, pod);
    MirroredSame(s1.tokens, s.tokens, SetOf(order), s.revoked);
  }

  lemma {:induction false} MirroredSame(a: map<string, Token>, b: map<string, Token>, done: set<string>,
      revoked: map<string, int>)
    requires a.Keys == b.Keys && forall j | j in a :: a[j].expiresAt == b[j].expiresAt
    ensures Mirrored(a, done, revoked) == Mirrored(b, done, revoked)
  {
  }

  /**
   Uninterrupted, the two steps of a consume stamp the row of an unused, unexpired token and put it on the list;
   for any other token nothing changes.
   */
  lemma {:induction false} ConsumptionRefines(s: Store, call: nat, jti: string)
    requires call !in s.pending
    ensures Enabled(s, Consume(call, jti))
    ensures var s1 := Apply(s, Consume(call, jti));
      if jti in s.tokens && s.tokens[jti].consumedAt.None? && s.tokens[jti].invalidatedAt.None?
         && s.tokens[jti].expiresAt > s.now
      then
        && call in s1.pending && (forall i | 0 <= i < |s1.pending[call]| :: s1.pending[call][i] in s1.tokens)
        && var s' := Finished(s1, call);
        && s'.tokens == s.tokens[jti := s.tokens[jti].(consumedAt := Some(s.now))]
        && s'.revoked == s.revoked[jti := if jti in s.revoked then s.revoked[jti] else s.tokens[jti].expiresAt]
        && s1.accepted == s.accepted + [jti]
      else s1 == s
  {
    var s1 := Apply(s, Consume(call, jti));
    if Accepts(s.tokens, jti, s.now) {
      FinishedMirrors(s1, call);
      assert SetOf([jti]) == {jti};
      assert Mirrored(s1.tokens, {jti}, s.revoked) == Inserted(s.revoked, jti, s.tokens[jti].expiresAt);
    }
  }

  lemma {:induction false} StampsAndLists(tokens: map<string, Token>, revoked: map<string, int>, pod: string, now: int)
    ensures var unused := set j | j in tokens && tokens[j].pod == pod
                                  && tokens[j].consumedAt.None? && tokens[j].invalidatedAt.None?;
      var tokens' := Stamped(tokens, UnusedOf(tokens, pod), now);
      var revoked' := Mirrored(tokens, UnusedOf(tokens, pod), revoked);
      && UnusedOf(tokens, pod) == unused
      && tokens'.Keys == tokens.Keys
      && (forall j | j in tokens' ::
            tokens'[j] == if j in unused then tokens[j].(invalidatedAt := Some(now)) else tokens[j])
      && revoked'.Keys == revoked.Keys + unused
      && (forall j | j in revoked' :: revoked'[j] == if j in revoked then revoked[j] else tokens[j].expiresAt)
  {
    assert UnusedOf(tokens, pod) ==
      set j | j in tokens && tokens[j].pod == pod && tokens[j].consumedAt.None? && tokens[j].invalidatedAt.None?;
  }

  class TokenTables {
    var tokens: map<string, Token>
    var revoked: map<string, int>

    constructor ()
      ensures tokens == map[] && revoked == map[]
    {
      tokens, revoked := map[], map[];
    }

    /** The tables at a moment when no call is between two of its statements. */
    ghost function Snapshot(now: int): Store
      reads this
    {
      Store(now, tokens, revoked, map[], [])
    }

    method PersistWorkerToken(jti: string, pod: string, expiresAt: int) returns (stored: bool)
      modifies this`tokens
      ensures stored <==> jti !in old(tokens)
      ensures tokens == if stored then old(tokens)[jti := Token(pod, expiresAt, None, None)] else old(tokens)
      ensures Snapshot(0) == Apply(old(Snapshot(0)), Persist(jti, pod, expiresAt))
    {
      stored := jti !in tokens;
      if stored {
        tokens := tokens[jti := Token(pod, expiresAt, None, None)];
      }
    }

    /** The row, stamped and mirrored, if it exists unused and unexpired; otherwise nothing happens. */
    method ConsumeWorkerToken(jti: string, now: int) returns (row: Option<Token>)
      modifies this
      ensures row.Some? <==>
        && jti in old(tokens) && old(tokens)[jti].consumedAt.None? && old(tokens)[jti].invalidatedAt.None?
        && old(tokens)[jti].expiresAt > now
      ensures row.None? ==> tokens == old(tokens) && revoked == old(revoked)
      ensures row.Some? ==>
        && jti in tokens && row == Some(tokens[jti]) && tokens[jti].consumedAt == Some(now)
        && tokens == old(tokens)[jti := old(tokens)[jti].(consumedAt := Some(now))]
        && revoked == old(revoked)[jti := if jti in old(revoked) then old(revoked)[jti] else tokens[jti].expiresAt]
    {
      if !Accepts(tokens, jti, now) {
        return None;
      }
      tokens := tokens[jti := tokens[jti].(consumedAt := Some(now))];
      row := Some(tokens[jti]);
      revoked := Inserted(revoked, jti, row.value.expiresAt);
    }

    /** Stamps every unused token of the pod and mirrors each, keeping rows already on the list. */
    method InvalidateWorkerTokensForPod(pod: string, now: int) returns (count: nat)
      modifies this
      ensures var unused := set j | j in old(tokens) && old(tokens)[j].pod == pod
                                    && old(tokens)[j].consumedAt.None? && old(tokens)[j].invalidatedAt.None?;
        && count == |unused|
        && tokens.Keys == old(tokens).Keys
        && (forall j | j in tokens ::
              tokens[j] == if j in unused then old(tokens)[j].(invalidatedAt := Some(now)) else old(tokens)[j])
        && revoked.Keys == old(revoked).Keys + unused
        && (forall j | j in revoked ::
              revoked[j] == if j in old(revoked) then old(revoked)[j] else old(tokens)[j].expiresAt)
    {
      var rows := UnusedOf(tokens, pod);
      count := |rows|;
      tokens := Stamped(tokens, rows, now);
      var left := rows;
      while left != {}
        invariant left <= rows
        invariant tokens == Stamped(old(tokens), rows, now)
        invariant revoked == Mirrored(old(tokens), rows - left, old(revoked))
      {
        var jti :| jti in left;
        MirrorOne(old(tokens), rows - left, old(revoked), jti);
        assert rows - (left - {jti}) == rows - left + {jti};
        revoked := Inserted(revoked, jti, tokens[jti].expiresAt);
        left := left - {jti};
      }
      assert rows - {} == rows;
      StampsAndLists(old(tokens), old(revoked), pod, now);
    }

    method RevokeToken(jti: string, expiresAt: int)
      modifies this`revoked
      ensures revoked == old(revoked)[jti := if jti in old(revoked) then old(revoked)[jti] else expiresAt]
      ensures Snapshot(0) == Apply(old(Snapshot(0)), Revoke(jti, expiresAt))
    {
      revoked := Inserted(revoked, jti, expiresAt);
    }

    method IsRevoked(jti: string) returns (found: bool)
      ensures found <==> jti in revoked
    {
      found := jti in revoked;
    }

    method CleanupExpiredRevocations(now: int)
      modifies this`revoked
      ensures forall j :: j in revoked <==> j in old(revoked) && old(revoked)[j] >= now
      ensures forall j | j in revoked :: revoked[j] == old(revoked)[j]
      ensures Snapshot(now) == Apply(old(Snapshot(now)), Cleanup)
    {
      revoked := Unexpired(revoked, now);
    }
  }
}
