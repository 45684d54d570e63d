/**
 The sums behind the executive dashboard (packages/db/src/analytics-executive.ts): loops over placements
 and commission rows that keep running totals and fill maps keyed by client, placement, contributor and
 producer.  Amounts are reals, as they are before they are rounded for display.
 */
module Analytics {
  import opened Prelude
  import opened Records

  datatype Placement = Placement(id: nat, client: nat, fee: real, guaranteeActive: bool)

  datatype CommissionRow = CommissionRow(placement: nat, contributor: nat, status: Status, gross: real, net: real)

  datatype Contributor = Contributor(id: nat, producer: nat)

  datatype Amounts = Amounts(gross: real, net: real)

  datatype Profit = Profit(fees: real, burden: real)

  /** An amount under a key: one posting of a list, or one entry of a map that keeps its insertion order. */
  datatype Entry<K, V> = Entry(key: K, value: V)

  // ---------------------------------------------------------------- maps that keep insertion order

  function Get<K(==), V>(m: seq<Entry<K, V>>, k: K): Option<V> {
    if m == [] then None
    else if m[0].key == k then Some(m[0].value)
    else Get(m[1..], k)
  }

  function Put<K(==), V>(m: seq<Entry<K, V>>, k: K, v: V): seq<Entry<K, V>> {
    if m == [] then [Entry(k, v)]
    else if m[0].key == k then [Entry(k, v)] + m[1..]
    else [m[0]] + Put(m[1..], k, v)
  }

  function OrElse<V>(o: Option<V>, v: V): V {
    if o.Some? then o.value else v
  }

  ghost predicate Distinct<K, V>(m: seq<Entry<K, V>>) {
    m == [] || (Get(m[1..], m[0].key) == None && Distinct(m[1..]))
  }

  lemma {:induction false} GetAfterPut<K, V>(m: seq<Entry<K, V>>, k: K, v: V, j: K)
    ensures Get(Put(m, k, v), j) == if j == k then Some(v) else Get(m, j)
  {
    if m != [] && m[0].key != k {
      var after := Put(m, k, v);
      assert after[1..] == Put(m[1..], k, v);
      GetAfterPut(m[1..], k, v, j);
    } else if m != [] {
      assert Put(m, k, v)[1..] == m[1..];
    }
  }

  lemma {:induction false} PutKeepsDistinct<K, V>(m: seq<Entry<K, V>>, k: K, v: V)
    requires Distinct(m)
    ensures Distinct(Put(m, k, v))
  {
    var after := Put(m, k, v);
    if m != [] && m[0].key != k {
      assert after[1..] == Put(m[1..], k, v);
      PutKeepsDistinct(m[1..], k, v);
      GetAfterPut(m[1..], k, v, m[0].key);
    } else if m != [] {
      assert after[1..] == m[1..];
    }
  }

  lemma {:induction false} GetIsMember<K, V>(m: seq<Entry<K, V>>, k: K)
    ensures Get(m, k).Some? <==> exists i | 0 <= i < |m| :: m[i].key == k
  {
    if m != [] {
      GetIsMember(m[1..], k);
      if m[0].key != k && exists i | 0 <= i < |m| :: m[i].key == k {
        var i :| 0 <= i < |m| && m[i].key == k;
        assert m[1..][i - 1].key == k;
      }
    }
  }

  // ---------------------------------------------------------------- totals

  function TotalOver<K(==), V>(m: seq<Entry<K, V>>, f: V -> real, keys: set<K>): real {
    if m == [] then 0.0 else (if m[0].key in keys then f(m[0].value) else 0.0) + TotalOver(m[1..], f, keys)
  }

  function Total<K, V>(m: seq<Entry<K, V>>, f: V -> real): real {
    if m == [] then 0.0 else f(m[0].value) + Total(m[1..], f)
  }

  function Itself(x: real): real { x }

  function GrossOf(a: Amounts): real { a.gross }

  function NetOf(a: Amounts): real { a.net }

  function FeesOf(p: Profit): real { p.fees }

  function BurdenOf(p: Profit): real { p.burden }

  function Plus(x: real, y: real): real { x + y }

  function PlusAmounts(x: Amounts, y: Amounts): Amounts {
    Amounts(x.gross + y.gross, x.net + y.net)
  }

  const NOTHING := Amounts(0.0, 0.0)

  lemma {:induction false} TotalOverAppend<K, V>(a: seq<Entry<K, V>>, b: seq<Entry<K, V>>, f: V -> real, keys: set<K>)
    ensures TotalOver(a + b, f, keys) == TotalOver(a, f, keys) + TotalOver(b, f, keys)
  {
    if a == [] {
      assert a + b == b;
    } else {
      assert (a + b)[1..] == a[1..] + b;
      TotalOverAppend(a[1..], b, f, keys);
    }
  }

  lemma {:induction false} TotalAppend<K, V>(a: seq<Entry<K, V>>, b: seq<Entry<K, V>>, f: V -> real)
    ensures Total(a + b, f) == Total(a, f) + Total(b, f)
  {
    if a == [] {
      assert a + b == b;
    } else {
      assert (a + b)[1..] == a[1..] + b;
      TotalAppend(a[1..], b, f);
    }
  }

  /** Totals over disjoint sets of keys add up. */
  lemma {:induction false} TotalSplits<K, V>(m: seq<Entry<K, V>>, f: V -> real, a: set<K>, b: set<K>)
    requires a !! b
    ensures TotalOver(m, f, a + b) == TotalOver(m, f, a) + TotalOver(m, f, b)
  {
    if m != [] {
      TotalSplits(m[1..], f, a, b);
    }
  }

  lemma {:induction false} TotalOfAll<K, V>(m: seq<Entry<K, V>>, f: V -> real, keys: set<K>)
    requires forall i | 0 <= i < |m| :: m[i].key in keys
    ensures TotalOver(m, f, keys) == Total(m, f)
  {
    if m != [] {
      TotalOfAll(m[1..], f, keys);
    }
  }

  lemma {:induction false} TotalSame<K, L, V, W>(a: seq<Entry<K, V>>, b: seq<Entry<L, W>>, f: V -> real, g: W -> real)
    requires |a| == |b| && forall i | 0 <= i < |a| :: f(a[i].value) == g(b[i].value)
    ensures Total(a, f) == Total(b, g)
  {
    if a != [] {
      TotalSame(a[1..], b[1..], f, g);
    }
  }

  lemma {:induction false} PutMovesTotal<K, V>(m: seq<Entry<K, V>>, k: K, v: V, f: V -> real, keys: set<K>)
    ensures TotalOver(Put(m, k, v), f, keys) ==
      TotalOver(m, f, keys) + if k !in keys then 0.0 else f(v) - if Get(m, k).Some? then f(Get(m, k).value) else 0.0
  {
    var after := Put(m, k, v);
    if m == [] {
      assert after[1..] == [];
    } else if m[0].key == k {
      assert after[1..] == m[1..];
    } else {
      assert after[1..] == Put(m[1..], k, v);
      PutMovesTotal(m[1..], k, v, f, keys);
    }
  }

  // ---------------------------------------------------------------- grouping

  /** The map that a loop over the postings fills by adding each amount to what its key holds. */
  function Group<K(==), V>(postings: seq<Entry<K, V>>, zero: V, plus: (V, V) -> V): seq<Entry<K, V>> {
    if postings == [] then []
    else
      var n := |postings| - 1;
      var m, p := Group(postings[..n], zero, plus), postings[n];
      Put(m, p.key, plus(OrElse(Get(m, p.key), zero), p.value))
  }

  /** Grouping conserves: over any set of keys the map has the total of the postings. */
  lemma {:induction false} GroupingConserves<K, V(!new)>(
    postings: seq<Entry<K, V>>, zero: V, plus: (V, V) -> V, f: V -> real, keys: set<K>)
    requires f(zero) == 0.0 && forall x, y :: f(plus(x, y)) == f(x) + f(y)
    ensures TotalOver(Group(postings, zero, plus), f, keys) == TotalOver(postings, f, keys)
  {
    if postings != [] {
      var n := |postings| - 1;
      var m, p := Group(postings[..n], zero, plus), postings[n];
      GroupingConserves(postings[..n], zero, plus, f, keys);
      PutMovesTotal(m, p.key, plus(OrElse(Get(m, p.key), zero), p.value), f, keys);
      assert postings == postings[..n] + [p] && [p][1..] == [];
      TotalOverAppend(postings[..n], [p], f, keys);
    }
  }

  /** The keys of the map are those of the postings, each once. */
  lemma {:induction false} GroupKeys<K, V>(postings: seq<Entry<K, V>>, zero: V, plus: (V, V) -> V, k: K)
    ensures Distinct(Group(postings, zero, plus))
    ensures Get(Group(postings, zero, plus), k).Some? <==> exists i | 0 <= i < |postings| :: postings[i].key == k
  {
    if postings != [] {
      var n := |postings| - 1;
      var m, p := Group(postings[..n], zero, plus), postings[n];
      GroupKeys(postings[..n], zero, plus, k);
      var v := plus(OrElse(Get(m, p.key), zero), p.value);
      PutKeepsDistinct(m, p.key, v);
      GetAfterPut(m, p.key, v, k);
      assert forall i | 0 <= i < n :: postings[..n][i] == postings[i];
    }
  }

  lemma {:induction false} TotalOfOne<K, V>(m: seq<Entry<K, V>>, f: V -> real, k: K)
    requires Distinct(m)
    ensures TotalOver(m, f, {k}) == if Get(m, k).Some? then f(Get(m, k).value) else 0.0
  {
    if m != [] {
      TotalOfOne(m[1..], f, k);
    }
  }

  /** So each entry of the map holds the total of its own postings. */
  lemma {:induction false} GroupedAmount<K, V(!new)>(
    postings: seq<Entry<K, V>>, zero: V, plus: (V, V) -> V, f: V -> real, k: K)
    requires f(zero) == 0.0 && forall x, y :: f(plus(x, y)) == f(x) + f(y)
    ensures f(OrElse(Get(Group(postings, zero, plus), k), zero)) == TotalOver(postings, f, {k})
  {
    GroupingConserves(postings, zero, plus, f, {k});
    GroupKeys(postings, zero, plus, k);
    TotalOfOne(Group(postings, zero, plus), f, k);
  }

  // ---------------------------------------------------------------- the dashboard's postings

  function Fees(ps: seq<Placement>): seq<Entry<nat, real>> {
    seq(|ps|, i requires 0 <= i < |ps| => Entry(ps[i].client, ps[i].fee))
  }

  function NetsByStatus(rows: seq<CommissionRow>): seq<Entry<Status, real>> {
    seq(|rows|, i requires 0 <= i < |rows| => Entry(rows[i].status, rows[i].net))
  }

  function NetsByPlacement(rows: seq<CommissionRow>): seq<Entry<nat, real>> {
    seq(|rows|, i requires 0 <= i < |rows| => Entry(rows[i].placement, rows[i].net))
  }

  function AmountsByContributor(rows: seq<CommissionRow>): seq<Entry<nat, Amounts>> {
    seq(|rows|, i requires 0 <= i < |rows| => Entry(rows[i].contributor, Amounts(rows[i].gross, rows[i].net)))
  }

  /** The query: the rows of the selected placements. */
  function RowsOf(table: seq<CommissionRow>, ps: seq<Placement>): seq<CommissionRow> {
    if table == [] then []
    else
      var n := |table| - 1;
      RowsOf(table[..n], ps) + if exists i | 0 <= i < |ps| :: ps[i].id == table[n].placement then [table[n]] else []
  }

  function ProducerMap(contributors: seq<Contributor>): map<nat, nat> {
    if contributors == [] then map[]
    else
      var n := |contributors| - 1;
      ProducerMap(contributors[..n])[contributors[n].id := contributors[n].producer]
  }

  /** What each contributor adds to its producer; one that resolves to none adds nothing. */
  function ProducerPostings(m: seq<Entry<nat, Amounts>>, producers: map<nat, nat>): seq<Entry<nat, Amounts>> {
    if m == [] then []
    else
      var n := |m| - 1;
      ProducerPostings(m[..n], producers)
      + if m[n].key in producers then [Entry(producers[m[n].key], m[n].value)] else []
  }

  function ByProducer(rows: seq<CommissionRow>, producers: map<nat, nat>): seq<Entry<nat, Amounts>> {
    Group(ProducerPostings(Group(AmountsByContributor(rows), NOTHING, PlusAmounts), producers), NOTHING, PlusAmounts)
  }

  /** The inner loop of the client table. */
  function Burden(ps: seq<Placement>, burdens: seq<Entry<nat, real>>, client: nat): real {
    if ps == [] then 0.0
    else
      var n := |ps| - 1;
      Burden(ps[..n], burdens, client) + if ps[n].client == client then OrElse(Get(burdens, ps[n].id), 0.0) else 0.0
  }

  function ByClient(ps: seq<Placement>, rows: seq<CommissionRow>): seq<Entry<nat, Profit>> {
    var fees, burdens := Group(Fees(ps), 0.0, Plus), Group(NetsByPlacement(rows), 0.0, Plus);
    seq(|fees|, i requires 0 <= i < |fees| =>
      Entry(fees[i].key, Profit(fees[i].value, Burden(ps, burdens, fees[i].key))))
  }

  // ---------------------------------------------------------------- what a placement and a row add

  /** One more placement adds its fee to the gross fees, to its client, and if its window is open to the exposure. */
  lemma {:induction false} OneMorePlacement(ps: seq<Placement>, p: Placement, client: nat)
    ensures Total(Fees([]), Itself) == TotalOver(Fees([]), Itself, {client}) == 0.0
    ensures TotalOver(FeesByGuarantee([]), Itself, {true}) == 0.0
    ensures Total(Fees(ps + [p]), Itself) == Total(Fees(ps), Itself) + p.fee
    ensures TotalOver(Fees(ps + [p]), Itself, {client}) ==
      TotalOver(Fees(ps), Itself, {client}) + if p.client == client then p.fee else 0.0
    ensures TotalOver(FeesByGuarantee(ps + [p]), Itself, {true}) ==
      TotalOver(FeesByGuarantee(ps), Itself, {true}) + if p.guaranteeActive then p.fee else 0.0
  {
    assert Fees(ps + [p]) == Fees(ps) + [Entry(p.client, p.fee)];
    TotalNext(Fees(ps), Entry(p.client, p.fee), Itself);
    TotalOverNext(Fees(ps), Entry(p.client, p.fee), Itself, {client});
    assert FeesByGuarantee(ps + [p]) == FeesByGuarantee(ps) + [Entry(p.guaranteeActive, p.fee)];
    TotalOverNext(FeesByGuarantee(ps), Entry(p.guaranteeActive, p.fee), Itself, {true});
  }

  /** One more row adds its net to its status and its placement, and its two amounts to its contributor. */
  lemma {:induction false} OneMoreRow(rows: seq<CommissionRow>, r: CommissionRow, of: set<Status>, ids: set<nat>)
    ensures TotalOver(NetsByStatus([]), Itself, of) == TotalOver(NetsByPlacement([]), Itself, ids) == 0.0
    ensures TotalOver(AmountsByContributor([]), NetOf, ids) == TotalOver(AmountsByContributor([]), GrossOf, ids) == 0.0
    ensures TotalOver(NetsByStatus(rows + [r]), Itself, of) ==
      TotalOver(NetsByStatus(rows), Itself, of) + if r.status in of then r.net else 0.0
    ensures TotalOver(NetsByPlacement(rows + [r]), Itself, ids) ==
      TotalOver(NetsByPlacement(rows), Itself, ids) + if r.placement in ids then r.net else 0.0
    ensures TotalOver(AmountsByContributor(rows + [r]), NetOf, ids) ==
      TotalOver(AmountsByContributor(rows), NetOf, ids) + if r.contributor in ids then r.net else 0.0
    ensures TotalOver(AmountsByContributor(rows + [r]), GrossOf, ids) ==
      TotalOver(AmountsByContributor(rows), GrossOf, ids) + if r.contributor in ids then r.gross else 0.0
  {
    assert NetsByStatus(rows + [r]) == NetsByStatus(rows) + [Entry(r.status, r.net)];
    TotalOverNext(NetsByStatus(rows), Entry(r.status, r.net), Itself, of);
    assert NetsByPlacement(rows + [r]) == NetsByPlacement(rows) + [Entry(r.placement, r.net)];
    TotalOverNext(NetsByPlacement(rows), Entry(r.placement, r.net), Itself, ids);
    var e := Entry(r.contributor, Amounts(r.gross, r.net));
    assert AmountsByContributor(rows + [r]) == AmountsByContributor(rows) + [e];
    TotalOverNext(AmountsByContributor(rows), e, NetOf, ids);
    TotalOverNext(AmountsByContributor(rows), e, GrossOf, ids);
  }

  /** The rows looked at are those of the placements, each as often as the table has it. */
  lemma {:induction false} RowsAreOfPlacements(table: seq<CommissionRow>, ps: seq<Placement>, r: CommissionRow)
    ensures multiset(RowsOf(table, ps))[r] ==
      if exists i | 0 <= i < |ps| :: ps[i].id == r.placement then multiset(table)[r] else 0
  {
    if table != [] {
      var n := |table| - 1;
      RowsAreOfPlacements(table[..n], ps, r);
      assert table == table[..n] + [table[n]];
    }
  }

  /** A contributor has the producer of the last entry with its id, and none if there is no entry. */
  lemma {:induction false} LastProducerCounts(contributors: seq<Contributor>, id: nat)
    ensures id in ProducerMap(contributors) <==> exists i | 0 <= i < |contributors| :: contributors[i].id == id
    ensures forall i | 0 <= i < |contributors| && contributors[i].id == id
                       && (forall k | i < k < |contributors| :: contributors[k].id != id) ::
      id in ProducerMap(contributors) && ProducerMap(contributors)[id] == contributors[i].producer
  {
    if contributors != [] {
      var n := |contributors| - 1;
      LastProducerCounts(contributors[..n], id);
      assert forall i | 0 <= i < n :: contributors[..n][i] == contributors[i];
    }
  }

  const EXCLUDED := {ClawbackInitiated, Recovered}
  const INCOME := {Accrued, PendingApproval, Approved, Held, Payable, Paid}

  // ---------------------------------------------------------------- main results

  /** The fees of a client are those of its placements, and the fees of all clients sum to the gross fees. */
  lemma {:induction false} FeesConserve(ps: seq<Placement>, client: nat)
    ensures OrElse(Get(Group(Fees(ps), 0.0, Plus), client), 0.0) == TotalOver(Fees(ps), Itself, {client})
    ensures Total(Group(Fees(ps), 0.0, Plus), Itself) == Total(Fees(ps), Itself)
  {
    GroupedAmount(Fees(ps), 0.0, Plus, Itself, client);
    GroupTotal(Fees(ps), 0.0, Plus, Itself);
  }

  function KeysOf<K(==), V>(m: seq<Entry<K, V>>): set<K> {
    set i | 0 <= i < |m| :: m[i].key
  }

  lemma {:induction false} GroupTotal<K, V(!new)>(postings: seq<Entry<K, V>>, zero: V, plus: (V, V) -> V, f: V -> real)
    requires f(zero) == 0.0 && forall x, y :: f(plus(x, y)) == f(x) + f(y)
    ensures Total(Group(postings, zero, plus), f) == Total(postings, f)
  {
    var m := Group(postings, zero, plus);
    var keys := KeysOf(m) + KeysOf(postings);
    GroupingConserves(postings, zero, plus, f, keys);
    TotalOfAll(m, f, keys);
    TotalOfAll(postings, f, keys);
  }

  /** Net fee income is accrued, payable and held commission plus the nets of the other counted statuses. */
  lemma {:induction false} IncomeDecomposes(rows: seq<CommissionRow>)
    ensures var t := NetsByStatus(rows);
      && TotalOver(t, Itself, INCOME) ==
           TotalOver(t, Itself, {Accrued, PendingApproval}) + TotalOver(t, Itself, {Payable})
           + TotalOver(t, Itself, {Held}) + TotalOver(t, Itself, {Approved, Paid})
      && TotalOver(t, Itself, INCOME) + TotalOver(t, Itself, EXCLUDED) == Total(t, Itself)
  {
    var t := NetsByStatus(rows);
    TotalSplits(t, Itself, {Accrued, PendingApproval}, {Payable});
    TotalSplits(t, Itself, {Accrued, PendingApproval} + {Payable}, {Held});
    TotalSplits(t, Itself, {Accrued, PendingApproval} + {Payable} + {Held}, {Approved, Paid});
    assert {Accrued, PendingApproval} + {Payable} + {Held} + {Approved, Paid} == INCOME;
    TotalSplits(t, Itself, INCOME, EXCLUDED);
    forall s: Status
      ensures s in INCOME + EXCLUDED
    {
      match s
      case ClawbackInitiated =>
      case _ =>
    }
    TotalOfAll(t, Itself, INCOME + EXCLUDED);
  }

  /** The contributors whose producer is in the set. */
  function ContributorsOf(producers: map<nat, nat>, of: set<nat>): set<nat> {
    set c | c in producers && producers[c] in of
  }

  lemma {:induction false} PostingsTotal(
    m: seq<Entry<nat, Amounts>>, producers: map<nat, nat>, f: Amounts -> real, of: set<nat>)
    ensures TotalOver(ProducerPostings(m, producers), f, of) == TotalOver(m, f, ContributorsOf(producers, of))
  {
    if m != [] {
      var n := |m| - 1;
      PostingsTotal(m[..n], producers, f, of);
      assert m == m[..n] + [m[n]] && [m[n]][1..] == [];
      TotalOverAppend(m[..n], [m[n]], f, ContributorsOf(producers, of));
      var last := if m[n].key in producers then [Entry(producers[m[n].key], m[n].value)] else [];
      assert |last| == 1 ==> last[1..] == [];
      TotalOverAppend(ProducerPostings(m[..n], producers), last, f, of);
    }
  }

  /**
   Through both groupings, any set of producers has the total of the rows of their contributors: one
   producer its own, and all of them the nets of every row whose contributor resolves.
   */
  lemma {:induction false} ProducersConserve(
    rows: seq<CommissionRow>, producers: map<nat, nat>, f: Amounts -> real, of: set<nat>)
    requires f(NOTHING) == 0.0 && forall x, y :: f(PlusAmounts(x, y)) == f(x) + f(y)
    ensures TotalOver(ByProducer(rows, producers), f, of) ==
      TotalOver(AmountsByContributor(rows), f, set c | c in producers && producers[c] in of)
  {
    var m := Group(AmountsByContributor(rows), NOTHING, PlusAmounts);
    GroupingConserves(ProducerPostings(m, producers), NOTHING, PlusAmounts, f, of);
    PostingsTotal(m, producers, f, of);
    GroupingConserves(AmountsByContributor(rows), NOTHING, PlusAmounts, f, ContributorsOf(producers, of));
  }

  lemma {:induction false} ProducerTotals(rows: seq<CommissionRow>, producers: map<nat, nat>, f: Amounts -> real)
    requires f(NOTHING) == 0.0 && forall x, y :: f(PlusAmounts(x, y)) == f(x) + f(y)
    requires forall i | 0 <= i < |rows| :: rows[i].contributor in producers
    ensures Total(ByProducer(rows, producers), f) == Total(AmountsByContributor(rows), f)
  {
    var t := ByProducer(rows, producers);
    var all := KeysOf(t) + set c | c in producers :: producers[c];
    ProducersConserve(rows, producers, f, all);
    TotalOfAll(t, f, all);
    TotalOfAll(AmountsByContributor(rows), f, ContributorsOf(producers, all));
  }

  /**
   When every contributor resolves, the nets by producer sum to the income plus the nets of the
   excluded statuses, and the gross amounts by producer to those of all rows.
   */
  lemma {:induction false} ProducersAddUp(rows: seq<CommissionRow>, producers: map<nat, nat>)
    requires forall i | 0 <= i < |rows| :: rows[i].contributor in producers
    ensures Total(ByProducer(rows, producers), NetOf) ==
      TotalOver(NetsByStatus(rows), Itself, INCOME) + TotalOver(NetsByStatus(rows), Itself, EXCLUDED)
    ensures Total(ByProducer(rows, producers), GrossOf) == Total(AmountsByContributor(rows), GrossOf)
  {
    ProducerTotals(rows, producers, NetOf);
    ProducerTotals(rows, producers, GrossOf);
    TotalSame(AmountsByContributor(rows), NetsByStatus(rows), NetOf, Itself);
    IncomeDecomposes(rows);
  }

  /** A contributor that does not resolve is left out: the shortfall is exactly the nets of its rows. */
  lemma {:induction false} UnresolvedIsMissing(rows: seq<CommissionRow>, producers: map<nat, nat>)
    ensures var postings := AmountsByContributor(rows);
      var unresolved := KeysOf(postings) - producers.Keys;
      Total(ByProducer(rows, producers), NetOf) == Total(postings, NetOf) - TotalOver(postings, NetOf, unresolved)
  {
    var t, postings := ByProducer(rows, producers), AmountsByContributor(rows);
    var all := KeysOf(t) + set c | c in producers :: producers[c];
    var unresolved := KeysOf(postings) - producers.Keys;
    ProducersConserve(rows, producers, NetOf, all);
    TotalOfAll(t, NetOf, all);
    assert ContributorsOf(producers, all) == producers.Keys;
    TotalSplits(postings, NetOf, producers.Keys, unresolved);
    TotalOfAll(postings, NetOf, producers.Keys + unresolved);
  }

  ghost predicate DistinctIds(ps: seq<Placement>) {
    forall i, j | 0 <= i < j < |ps| :: ps[i].id != ps[j].id
  }

  function IdsOf(ps: seq<Placement>, client: nat): set<nat> {
    set i | 0 <= i < |ps| && ps[i].client == client :: ps[i].id
  }

  /** The burden of a client is the nets of the rows of its placements. */
  lemma {:induction false} BurdenIsOfTheClient(ps: seq<Placement>, rows: seq<CommissionRow>, client: nat)
    requires DistinctIds(ps)
    ensures Burden(ps, Group(NetsByPlacement(rows), 0.0, Plus), client) ==
      TotalOver(NetsByPlacement(rows), Itself, IdsOf(ps, client))
  {
    if ps == [] {
      assert IdsOf(ps, client) == {};
      EmptyTotal(NetsByPlacement(rows), Itself);
    } else {
      var n := |ps| - 1;
      BurdenIsOfTheClient(ps[..n], rows, client);
      if ps[n].client == client {
        assert IdsOf(ps, client) == IdsOf(ps[..n], client) + {ps[n].id};
        TotalSplits(NetsByPlacement(rows), Itself, IdsOf(ps[..n], client), {ps[n].id});
        GroupedAmount(NetsByPlacement(rows), 0.0, Plus, Itself, ps[n].id);
      } else {
        assert IdsOf(ps, client) == IdsOf(ps[..n], client);
      }
    }
  }

  lemma {:induction false} EmptyTotal<K, V>(m: seq<Entry<K, V>>, f: V -> real)
    ensures TotalOver(m, f, {}) == 0.0
  {
    if m != [] {
      EmptyTotal(m[1..], f);
    }
  }

  /** The ids of the placements of the clients of some lines. */
  function IdsOfLines(ps: seq<Placement>, lines: seq<Entry<nat, Profit>>): set<nat> {
    set i, j | 0 <= i < |ps| && 0 <= j < |lines| && ps[i].client == lines[j].key :: ps[i].id
  }

  lemma {:induction false} BurdensOfLines(ps: seq<Placement>, rows: seq<CommissionRow>, lines: seq<Entry<nat, Profit>>)
    requires DistinctIds(ps) && Distinct(lines)
    requires forall j | 0 <= j < |lines| ::
      lines[j].value.burden == Burden(ps, Group(NetsByPlacement(rows), 0.0, Plus), lines[j].key)
    ensures Total(lines, BurdenOf) == TotalOver(NetsByPlacement(rows), Itself, IdsOfLines(ps, lines))
  {
    if lines == [] {
      assert IdsOfLines(ps, lines) == {};
      EmptyTotal(NetsByPlacement(rows), Itself);
    } else {
      var client := lines[0].key;
      BurdensOfLines(ps, rows, lines[1..]);
      BurdenIsOfTheClient(ps, rows, client);
      GetIsMember(lines[1..], client);
      assert IdsOf(ps, client) !! IdsOfLines(ps, lines[1..]);
      assert IdsOfLines(ps, lines) == IdsOf(ps, client) + IdsOfLines(ps, lines[1..]) by {
        forall i | 0 <= i < |ps|
          ensures ps[i].id in IdsOfLines(ps, lines) <==> ps[i].id in IdsOf(ps, client) + IdsOfLines(ps, lines[1..])
        {
          if j: int :| 0 <= j < |lines| && ps[i].client == lines[j].key && j > 0 {
            assert lines[1..][j - 1] == lines[j];
          }
        }
      }
      TotalSplits(NetsByPlacement(rows), Itself, IdsOf(ps, client), IdsOfLines(ps, lines[1..]));
    }
  }

  lemma {:induction false} RowsOfSelected(table: seq<CommissionRow>, ps: seq<Placement>)
    ensures forall r :: r in RowsOf(table, ps) <==> r in table && exists i | 0 <= i < |ps| :: ps[i].id == r.placement
  {
    if table != [] {
      var n := |table| - 1;
      RowsOfSelected(table[..n], ps);
      assert table == table[..n] + [table[n]];
    }
  }

  lemma {:induction false} SameKeysDistinct<K, V, W>(a: seq<Entry<K, V>>, b: seq<Entry<K, W>>)
    requires |a| == |b| && (forall i | 0 <= i < |a| :: a[i].key == b[i].key) && Distinct(a)
    ensures Distinct(b)
  {
    if a != [] {
      SameKeysDistinct(a[1..], b[1..]);
      GetIsMember(a[1..], a[0].key);
      GetIsMember(b[1..], b[0].key);
      assert forall i | 0 <= i < |b[1..]| :: a[1..][i].key == b[1..][i].key;
    }
  }

  /** The burdens by client sum to the income plus the nets of the excluded statuses. */
  lemma {:induction false} ClientBurdensAddUp(ps: seq<Placement>, table: seq<CommissionRow>)
    requires DistinctIds(ps)
    ensures var rows := RowsOf(table, ps);
      Total(ByClient(ps, rows), BurdenOf) ==
        TotalOver(NetsByStatus(rows), Itself, INCOME) + TotalOver(NetsByStatus(rows), Itself, EXCLUDED)
  {
    var rows, fees := RowsOf(table, ps), Group(Fees(ps), 0.0, Plus);
    var lines := ByClient(ps, rows);
    GroupKeys(Fees(ps), 0.0, Plus, 0);
    SameKeysDistinct(fees, lines);
    BurdensOfLines(ps, rows, lines);
    RowsOfSelected(table, ps);
    forall i | 0 <= i < |rows|
      ensures NetsByPlacement(rows)[i].key in IdsOfLines(ps, lines)
    {
      assert rows[i] in rows;
      var p :| 0 <= p < |ps| && ps[p].id == rows[i].placement;
      assert Fees(ps)[p].key == ps[p].client;
      GroupKeys(Fees(ps), 0.0, Plus, ps[p].client);
      GetIsMember(fees, ps[p].client);
      var j :| 0 <= j < |fees| && fees[j].key == ps[p].client;
      assert lines[j].key == ps[p].client;
    }
    TotalOfAll(NetsByPlacement(rows), Itself, IdsOfLines(ps, lines));
    TotalSame(NetsByPlacement(rows), NetsByStatus(rows), Itself, Itself);
    IncomeDecomposes(rows);
  }

  /** One line of the client table: the fees and the nets of the client's own placements. */
  lemma {:induction false} ClientLine(ps: seq<Placement>, rows: seq<CommissionRow>, j: nat)
    requires DistinctIds(ps) && j < |ByClient(ps, rows)|
    ensures var line := ByClient(ps, rows)[j];
      && line.value.fees == TotalOver(Fees(ps), Itself, {line.key})
      && line.value.burden ==
           TotalOver(NetsByPlacement(rows), Itself, set i | 0 <= i < |ps| && ps[i].client == line.key :: ps[i].id)
  {
    var fees := Group(Fees(ps), 0.0, Plus);
    BurdenIsOfTheClient(ps, rows, fees[j].key);
    GroupKeys(Fees(ps), 0.0, Plus, fees[j].key);
    GetAt(fees, j);
    GroupedAmount(Fees(ps), 0.0, Plus, Itself, fees[j].key);
  }

  lemma {:induction false} GetAt<K, V>(m: seq<Entry<K, V>>, i: nat)
    requires Distinct(m) && i < |m|
    ensures Get(m, m[i].key) == Some(m[i].value)
  {
    if i > 0 {
      GetIsMember(m[1..], m[0].key);
      assert m[1..][i - 1] == m[i];
      GetAt(m[1..], i - 1);
    }
  }

  // ---------------------------------------------------------------- the loops

  datatype Dashboard = Dashboard(
    grossFeesBooked: real, guaranteeExposure: real, netFeeIncome: real,
    commissionAccrued: real, commissionPayable: real, commissionHeld: real,
    byClient: seq<Entry<nat, Profit>>, byProducer: seq<Entry<nat, Amounts>>)

  function FeesByGuarantee(ps: seq<Placement>): seq<Entry<bool, real>> {
    seq(|ps|, i requires 0 <= i < |ps| => Entry(ps[i].guaranteeActive, ps[i].fee))
  }

  lemma {:induction false} TotalOverNext<K, V>(m: seq<Entry<K, V>>, e: Entry<K, V>, f: V -> real, keys: set<K>)
    ensures TotalOver(m + [e], f, keys) == TotalOver(m, f, keys) + if e.key in keys then f(e.value) else 0.0
  {
    TotalOverAppend(m, [e], f, keys);
    assert [e][1..] == [];
  }

  lemma {:induction false} TotalNext<K, V>(m: seq<Entry<K, V>>, e: Entry<K, V>, f: V -> real)
    ensures Total(m + [e], f) == Total(m, f) + f(e.value)
  {
    TotalAppend(m, [e], f);
    assert [e][1..] == [];
  }

  lemma {:induction false} GroupNext<K, V>(m: seq<Entry<K, V>>, e: Entry<K, V>, zero: V, plus: (V, V) -> V)
    ensures Group(m + [e], zero, plus) ==
      Put(Group(m, zero, plus), e.key, plus(OrElse(Get(Group(m, zero, plus), e.key), zero), e.value))
  {
    assert (m + [e])[..|m|] == m;
  }

  lemma {:induction false} FeeNext(ps: seq<Placement>, i: nat)
    requires i < |ps|
    ensures Total(Fees(ps[..i + 1]), Itself) == Total(Fees(ps[..i]), Itself) + ps[i].fee
    ensures var m := Group(Fees(ps[..i]), 0.0, Plus);
      Group(Fees(ps[..i + 1]), 0.0, Plus) == Put(m, ps[i].client, OrElse(Get(m, ps[i].client), 0.0) + ps[i].fee)
  {
    var e := Entry(ps[i].client, ps[i].fee);
    assert Fees(ps[..i + 1]) == Fees(ps[..i]) + [e];
    TotalNext(Fees(ps[..i]), e, Itself);
    GroupNext(Fees(ps[..i]), e, 0.0, Plus);
  }

  lemma {:induction false} ExposureNext(ps: seq<Placement>, i: nat)
    requires i < |ps|
    ensures TotalOver(FeesByGuarantee(ps[..i + 1]), Itself, {true}) ==
      TotalOver(FeesByGuarantee(ps[..i]), Itself, {true}) + if ps[i].guaranteeActive then ps[i].fee else 0.0
  {
    var e := Entry(ps[i].guaranteeActive, ps[i].fee);
    assert FeesByGuarantee(ps[..i + 1]) == FeesByGuarantee(ps[..i]) + [e];
    TotalOverNext(FeesByGuarantee(ps[..i]), e, Itself, {true});
  }

  method SumPlacements(ps: seq<Placement>) returns (gross: real, exposure: real, feeByClient: seq<Entry<nat, real>>)
    ensures gross == Total(Fees(ps), Itself)
    ensures exposure == TotalOver(FeesByGuarantee(ps), Itself, {true})
    ensures feeByClient == Group(Fees(ps), 0.0, Plus)
  {
    gross, exposure, feeByClient := 0.0, 0.0, [];
    for i := 0 to |ps|
      invariant gross == Total(Fees(ps[..i]), Itself)
      invariant exposure == TotalOver(FeesByGuarantee(ps[..i]), Itself, {true})
      invariant feeByClient == Group(Fees(ps[..i]), 0.0, Plus)
    {
      var row := ps[i];
      FeeNext(ps, i);
      ExposureNext(ps, i);
      gross := gross + row.fee;
      if row.guaranteeActive {
        exposure := exposure + row.fee;
      }
      feeByClient := Put(feeByClient, row.client, OrElse(Get(feeByClient, row.client), 0.0) + row.fee);
    }
    assert ps[..|ps|] == ps;
  }

  method SumStatuses(rows: seq<CommissionRow>) returns (income: real, accrued: real, payable: real, held: real)
    ensures income == TotalOver(NetsByStatus(rows), Itself, INCOME)
    ensures accrued == TotalOver(NetsByStatus(rows), Itself, {Accrued, PendingApproval})
    ensures payable == TotalOver(NetsByStatus(rows), Itself, {Payable})
    ensures held == TotalOver(NetsByStatus(rows), Itself, {Held})
  {
    income, accrued, payable, held := 0.0, 0.0, 0.0, 0.0;
    for i := 0 to |rows|
      invariant income == TotalOver(NetsByStatus(rows[..i]), Itself, INCOME)
      invariant accrued == TotalOver(NetsByStatus(rows[..i]), Itself, {Accrued, PendingApproval})
      invariant payable == TotalOver(NetsByStatus(rows[..i]), Itself, {Payable})
      invariant held == TotalOver(NetsByStatus(rows[..i]), Itself, {Held})
    {
      var row := rows[i];
      ghost var before, e := NetsByStatus(rows[..i]), Entry(row.status, row.net);
      assert NetsByStatus(rows[..i + 1]) == before + [e];
      TotalOverNext(before, e, Itself, INCOME);
      TotalOverNext(before, e, Itself, {Accrued, PendingApproval});
      TotalOverNext(before, e, Itself, {Payable});
      TotalOverNext(before, e, Itself, {Held});
      if row.status !in EXCLUDED {
        income := income + row.net;
      }
      if row.status == Accrued || row.status == PendingApproval {
        accrued := accrued + row.net;
      } else if row.status == Payable {
        payable := payable + row.net;
      } else if row.status == Held {
        held := held + row.net;
      }
    }
    assert rows[..|rows|] == rows;
  }

  lemma {:induction false} ContributorNext(rows: seq<CommissionRow>, i: nat)
    requires i < |rows|
    ensures var m := Group(AmountsByContributor(rows[..i]), NOTHING, PlusAmounts);
      var was := OrElse(Get(m, rows[i].contributor), NOTHING);
      Group(AmountsByContributor(rows[..i + 1]), NOTHING, PlusAmounts) ==
        Put(m, rows[i].contributor, Amounts(was.gross + rows[i].gross, was.net + rows[i].net))
  {
    var e := Entry(rows[i].contributor, Amounts(rows[i].gross, rows[i].net));
    assert AmountsByContributor(rows[..i + 1]) == AmountsByContributor(rows[..i]) + [e];
    GroupNext(AmountsByContributor(rows[..i]), e, NOTHING, PlusAmounts);
  }

  lemma {:induction false} BurdenNext(rows: seq<CommissionRow>, i: nat)
    requires i < |rows|
    ensures var m := Group(NetsByPlacement(rows[..i]), 0.0, Plus);
      Group(NetsByPlacement(rows[..i + 1]), 0.0, Plus) ==
        Put(m, rows[i].placement, OrElse(Get(m, rows[i].placement), 0.0) + rows[i].net)
  {
    var e := Entry(rows[i].placement, rows[i].net);
    assert NetsByPlacement(rows[..i + 1]) == NetsByPlacement(rows[..i]) + [e];
    GroupNext(NetsByPlacement(rows[..i]), e, 0.0, Plus);
  }

  method GroupContributors(rows: seq<CommissionRow>) returns (byContributor: seq<Entry<nat, Amounts>>)
    ensures byContributor == Group(AmountsByContributor(rows), NOTHING, PlusAmounts)
  {
    byContributor := [];
    for i := 0 to |rows|
      invariant byContributor == Group(AmountsByContributor(rows[..i]), NOTHING, PlusAmounts)
    {
      var row := rows[i];
      ContributorNext(rows, i);
      var existing := OrElse(Get(byContributor, row.contributor), NOTHING);
      byContributor := Put(byContributor, row.contributor, Amounts(existing.gross + row.gross, existing.net + row.net));
    }
    assert rows[..|rows|] == rows;
  }

  method GroupBurdens(rows: seq<CommissionRow>) returns (burdens: seq<Entry<nat, real>>)
    ensures burdens == Group(NetsByPlacement(rows), 0.0, Plus)
  {
    burdens := [];
    for i := 0 to |rows|
      invariant burdens == Group(NetsByPlacement(rows[..i]), 0.0, Plus)
    {
      var row := rows[i];
      BurdenNext(rows, i);
      burdens := Put(burdens, row.placement, OrElse(Get(burdens, row.placement), 0.0) + row.net);
    }
    assert rows[..|rows|] == rows;
  }

  method IndexProducers(contributors: seq<Contributor>) returns (producers: map<nat, nat>)
    ensures producers == ProducerMap(contributors)
  {
    producers := map[];
    for i := 0 to |contributors|
      invariant producers == ProducerMap(contributors[..i])
    {
      assert contributors[..i + 1][..i] == contributors[..i];
      producers := producers[contributors[i].id := contributors[i].producer];
    }
    assert contributors[..|contributors|] == contributors;
  }

  /** The map of producers after `n` contributors. */
  function ProducersUpTo(m: seq<Entry<nat, Amounts>>, producers: map<nat, nat>, n: nat): seq<Entry<nat, Amounts>>
    requires n <= |m|
  {
    Group(ProducerPostings(m[..n], producers), NOTHING, PlusAmounts)
  }

  function Added(byProducer: seq<Entry<nat, Amounts>>, producer: nat, a: Amounts): seq<Entry<nat, Amounts>> {
    var existing := OrElse(Get(byProducer, producer), NOTHING);
    Put(byProducer, producer, Amounts(existing.gross + a.gross, existing.net + a.net))
  }

  lemma {:induction false} ProducerNext(m: seq<Entry<nat, Amounts>>, producers: map<nat, nat>, i: nat)
    requires i < |m|
    ensures ProducersUpTo(m, producers, i + 1) ==
      if m[i].key !in producers then ProducersUpTo(m, producers, i)
      else Added(ProducersUpTo(m, producers, i), producers[m[i].key], m[i].value)
  {
    assert m[..i + 1][..i] == m[..i];
    if m[i].key in producers {
      GroupNext(ProducerPostings(m[..i], producers), Entry(producers[m[i].key], m[i].value), NOTHING, PlusAmounts);
    } else {
      assert ProducerPostings(m[..i], producers) + [] == ProducerPostings(m[..i], producers);
    }
  }

  /** One turn of the loop over the contributors: one that does not resolve is passed over. */
  method AddContributor(byProducer: seq<Entry<nat, Amounts>>, producers: map<nat, nat>, entry: Entry<nat, Amounts>)
    returns (after: seq<Entry<nat, Amounts>>)
    ensures after ==
      if entry.key !in producers then byProducer else Added(byProducer, producers[entry.key], entry.value)
  {
    if entry.key !in producers {
      return byProducer;
    }
    var producer, amounts := producers[entry.key], entry.value;
    var existing := OrElse(Get(byProducer, producer), NOTHING);
    after := Put(byProducer, producer, Amounts(existing.gross + amounts.gross, existing.net + amounts.net));
  }

  method GroupProducers(byContributor: seq<Entry<nat, Amounts>>, producers: map<nat, nat>)
    returns (byProducer: seq<Entry<nat, Amounts>>)
    ensures byProducer == Group(ProducerPostings(byContributor, producers), NOTHING, PlusAmounts)
  {
    byProducer := [];
    for i := 0 to |byContributor|
      invariant byProducer == ProducersUpTo(byContributor, producers, i)
    {
      ProducerNext(byContributor, producers, i);
      byProducer := AddContributor(byProducer, producers, byContributor[i]);
    }
    assert byContributor[..|byContributor|] == byContributor;
  }

  method BuildClients(ps: seq<Placement>, fees: seq<Entry<nat, real>>, burdens: seq<Entry<nat, real>>)
    returns (lines: seq<Entry<nat, Profit>>)
    ensures |lines| == |fees|
    ensures forall i | 0 <= i < |fees| ::
      lines[i] == Entry(fees[i].key, Profit(fees[i].value, Burden(ps, burdens, fees[i].key)))
  {
    lines := [];
    for i := 0 to |fees|
      invariant |lines| == i
      invariant forall k | 0 <= k < i ::
        lines[k] == Entry(fees[k].key, Profit(fees[k].value, Burden(ps, burdens, fees[k].key)))
    {
      var client, burden := fees[i].key, 0.0;
      for j := 0 to |ps|
        invariant burden == Burden(ps[..j], burdens, client)
      {
        assert ps[..j + 1][..j] == ps[..j];
        if ps[j].client == client {
          burden := burden + OrElse(Get(burdens, ps[j].id), 0.0);
        }
      }
      assert ps[..|ps|] == ps;
      lines := lines + [Entry(client, Profit(fees[i].value, burden))];
    }
  }

  /** The dashboard of some placements, with the rows of those placements taken from the whole table. */
  method GetExecutiveAnalytics(ps: seq<Placement>, table: seq<CommissionRow>, contributors: seq<Contributor>)
    returns (d: Dashboard)
    ensures var rows := RowsOf(table, ps);
      && d.grossFeesBooked == Total(Fees(ps), Itself) == Total(d.byClient, FeesOf)
      && d.guaranteeExposure == TotalOver(FeesByGuarantee(ps), Itself, {true})
      && d.netFeeIncome == 
             TotalOver(NetsByStatus(rows), Itself, {Accrued, PendingApproval, Approved, Held, Payable, Paid})
      && d.commissionAccrued == TotalOver(NetsByStatus(rows), Itself, {Accrued, PendingApproval})
      && d.commissionPayable == TotalOver(NetsByStatus(rows), Itself, {Payable})
      && d.commissionHeld == TotalOver(NetsByStatus(rows), Itself, {Held})
      && d.netFeeIncome == d.commissionAccrued + d.commissionPayable + d.commissionHeld
           + TotalOver(NetsByStatus(rows), Itself, {Approved, Paid})
      && d.byClient == ByClient(ps, rows)
      && d.byProducer == ByProducer(rows, ProducerMap(contributors))
    ensures var rows := RowsOf(table, ps);
      DistinctIds(ps) ==>
        Total(d.byClient, BurdenOf) ==
          d.netFeeIncome + TotalOver(NetsByStatus(rows), Itself, {ClawbackInitiated, Recovered})
    ensures var rows := RowsOf(table, ps);
      (forall i | 0 <= i < |rows| :: rows[i].contributor in ProducerMap(contributors)) ==>
        && Total(d.byProducer, NetOf) ==
             d.netFeeIncome + TotalOver(NetsByStatus(rows), Itself, {ClawbackInitiated, Recovered})
        && Total(d.byProducer, GrossOf) == Total(AmountsByContributor(rows), GrossOf)
  {
    var gross, exposure, fees := SumPlacements(ps);
    var rows := RowsOf(table, ps);
    var income, accrued, payable, held := SumStatuses(rows);
    var byContributor := GroupContributors(rows);
    var burdens := GroupBurdens(rows);
    var producers := IndexProducers(contributors);
    var byProducer := GroupProducers(byContributor, producers);
    var byClient := BuildClients(ps, fees, burdens);
    assert byClient == ByClient(ps, rows);
    d := Dashboard(gross, exposure, income, accrued, payable, held, byClient, byProducer);
    FeesConserve(ps, 0);
    TotalSame(fees, byClient, Itself, FeesOf);
    IncomeDecomposes(rows);
    if DistinctIds(ps) {
      ClientBurdensAddUp(ps, table);
    }
    if forall i | 0 <= i < |rows| :: rows[i].contributor in ProducerMap(contributors) {
      ProducersAddUp(rows, ProducerMap(contributors));
    }
  }
}
