/**
 Canonical JSON for recorded requests (scripts/gcp/common.ts).  An object is the list of its
 fields in the order in which they are enumerated.  A number is the text that `Number::toString`
 gives it.  `localeCompare` is any total order `le`.
 */
module JsonCanonical {
  import opened Prelude

  datatype Json =
    | Null
    | Bool(b: bool)
    | Number(numeral: string)
    | Text(s: string)
    | Array(items: seq<Json>)
    | Object(fields: seq<Field>)

  datatype Field = Field(key: string, value: Json)

  type KeyOrder = (string, string) -> bool

  // ---------------------------------------------------------------- orders on keys

  ghost predicate Total(le: KeyOrder) {
    && (forall a, b :: le(a, b) || le(b, a))
    && (forall a, b, c :: le(a, b) && le(b, c) ==> le(a, c))
  }

  ghost predicate TotalOrder(le: KeyOrder) {
    Total(le) && forall a, b :: le(a, b) && le(b, a) ==> a == b
  }

  /** The order of the characters' codes, one after the other. */
  predicate CodeOrder(a: string, b: string) {
    a == "" || (b != "" && (a[0] < b[0] || (a[0] == b[0] && CodeOrder(a[1..], b[1..]))))
  }

  lemma {:induction false} CodeOrderTransitive(a: string, b: string, c: string)
    requires CodeOrder(a, b) && CodeOrder(b, c)
    ensures CodeOrder(a, c)
  {
    if a != "" && a[0] == b[0] == c[0] {
      CodeOrderTransitive(a[1..], b[1..], c[1..]);
    }
  }

  lemma {:induction false} CodeOrderAntisymmetric(a: string, b: string)
    requires CodeOrder(a, b) && CodeOrder(b, a)
    ensures a == b
  {
    if a != "" {
      CodeOrderAntisymmetric(a[1..], b[1..]);
      assert a == [a[0]] + a[1..] && b == [b[0]] + b[1..];
    }
  }

  lemma {:induction false} CodeOrderLinear(a: string, b: string)
    ensures CodeOrder(a, b) || CodeOrder(b, a)
  {
    if a != "" && b != "" && a[0] == b[0] {
      CodeOrderLinear(a[1..], b[1..]);
    }
  }

  /** There are total orders on keys: the order by character codes is one. */
  lemma {:induction false} CodeOrderIsTotal()
    ensures TotalOrder(CodeOrder)
  {
    forall a, b
      ensures CodeOrder(a, b) || CodeOrder(b, a)
      ensures CodeOrder(a, b) && CodeOrder(b, a) ==> a == b
    {
      CodeOrderLinear(a, b);
      if CodeOrder(a, b) && CodeOrder(b, a) {
        CodeOrderAntisymmetric(a, b);
      }
    }
    forall a, b, c | CodeOrder(a, b) && CodeOrder(b, c)
      ensures CodeOrder(a, c)
    {
      CodeOrderTransitive(a, b, c);
    }
  }

  predicate IsIndex(key: string) {
    && key != "" && (key[0] != '0' || |key| == 1)
    && (forall i | 0 <= i < |key| :: '0' <= key[i] <= '9')
    && DecimalValue(key) < 0xFFFF_FFFF
  }

  function DecimalValue(s: string): int {
    if s == "" then 0 else 10 * DecimalValue(s[..|s| - 1]) + (s[|s| - 1] as int - '0' as int)
  }

  /** Where a key is enumerated: array indices first and ascending, then the rest (section 10.1.11.1 of ECMA-262). */
  function Rank(key: string): int {
    if IsIndex(key) then DecimalValue(key) else 0xFFFF_FFFF
  }

  const ENUMERATION: KeyOrder := (a, b) => Rank(a) <= Rank(b)

  // ---------------------------------------------------------------- sorting fields

  /** Stable insertion. */
  function Insert(f: Field, sorted: seq<Field>, le: KeyOrder): seq<Field> {
    if sorted == [] || le(f.key, sorted[0].key) then [f] + sorted
    else [sorted[0]] + Insert(f, sorted[1..], le)
  }

  function Sort(fields: seq<Field>, le: KeyOrder): seq<Field> {
    if fields == [] then [] else Insert(fields[0], Sort(fields[1..], le), le)
  }

  /** `Object.fromEntries`, or assigning the fields one by one to an empty object. */
  function FromEntries(fields: seq<Field>): seq<Field> {
    Sort(fields, ENUMERATION)
  }

  // ---------------------------------------------------------------- sortJsonValue

  function SortValue(v: Json, le: KeyOrder): Json
    decreases v
  {
    match v
    case Array(items) => Array(SortItems(items, le))
    case Object(fields) => Object(FromEntries(Sort(SortEach(fields, le), le)))
    case _ => v
  }

  function SortItems(items: seq<Json>, le: KeyOrder): (r: seq<Json>)
    ensures |r| == |items|
    decreases items
  {
    if items == [] then [] else [SortValue(items[0], le)] + SortItems(items[1..], le)
  }

  function SortEach(fields: seq<Field>, le: KeyOrder): (r: seq<Field>)
    ensures |r| == |fields|
    decreases fields
  {
    if fields == [] then []
    else [Field(fields[0].key, SortValue(fields[0].value, le))] + SortEach(fields[1..], le)
  }

  // ---------------------------------------------------------------- equality up to key order

  ghost predicate DistinctKeys(fields: seq<Field>) {
    forall i, j | 0 <= i < j < |fields| :: fields[i].key != fields[j].key
  }

  predicate IsNumeralChar(c: char) {
    '0' <= c <= '9' || c in "-+.e"
  }

  /** The characters of the text of a finite number, which begins with a digit or a minus sign. */
  predicate IsNumeral(s: string) {
    && s != "" && ('0' <= s[0] <= '9' || s[0] == '-')
    && forall i | 0 <= i < |s| :: IsNumeralChar(s[i])
  }

  ghost predicate WellFormed(v: Json)
    decreases v
  {
    match v
    case Array(items) => forall i | 0 <= i < |items| :: WellFormed(items[i])
    case Object(fields) => DistinctKeys(fields) && forall i | 0 <= i < |fields| :: WellFormed(fields[i].value)
    case Number(numeral) => IsNumeral(numeral)
    case _ => true
  }

  /** The same value when the order of object keys is ignored at every depth. */
  ghost predicate Same(a: Json, b: Json)
    decreases a, 0
  {
    if a.Array? && b.Array? then
      |a.items| == |b.items| && forall i | 0 <= i < |a.items| :: Same(a.items[i], b.items[i])
    else if a.Object? && b.Object? then
      && (forall i | 0 <= i < |a.fields| :: FoundIn(a.fields[i], b.fields))
      && (forall j | 0 <= j < |b.fields| :: Covers(a.fields, b.fields[j]))
    else a == b
  }

  ghost predicate Agree(f: Field, g: Field)
    decreases f, 1
  {
    f.key == g.key && Same(f.value, g.value)
  }

  ghost predicate FoundIn(f: Field, gs: seq<Field>)
    decreases f, 2
  {
    exists j | 0 <= j < |gs| :: Agree(f, gs[j])
  }

  ghost predicate Covers(fs: seq<Field>, g: Field)
    decreases fs, 2
  {
    exists i | 0 <= i < |fs| :: Agree(fs[i], g)
  }

  ghost predicate Match(fs: seq<Field>, gs: seq<Field>) {
    && (forall i | 0 <= i < |fs| :: FoundIn(fs[i], gs))
    && (forall j | 0 <= j < |gs| :: Covers(fs, gs[j]))
  }

  lemma {:induction false} SameObjects(fs: seq<Field>, gs: seq<Field>)
    ensures Same(Object(fs), Object(gs)) <==> Match(fs, gs)
  {
  }

  /** Same means: equal scalars, arrays alike item by item, and objects with the same keys for same values. */
  lemma {:induction false} SameOnParts(a: Json, b: Json)
    ensures !a.Array? && !a.Object? ==> (Same(a, b) <==> a == b)
    ensures a.Array? ==> (Same(a, b) <==>
      b.Array? && |a.items| == |b.items| && forall i | 0 <= i < |a.items| :: Same(a.items[i], b.items[i]))
    ensures a.Object? ==> (Same(a, b) <==>
      && b.Object?
      && (forall i | 0 <= i < |a.fields| :: FoundIn(a.fields[i], b.fields))
      && (forall j | 0 <= j < |b.fields| :: Covers(a.fields, b.fields[j])))
  {
  }

  lemma {:induction false} FoundOnParts(f: Field, gs: seq<Field>)
    ensures FoundIn(f, gs) <==> exists j | 0 <= j < |gs| :: f.key == gs[j].key && Same(f.value, gs[j].value)
  {
    assert forall j | 0 <= j < |gs| :: Agree(f, gs[j]) <==> f.key == gs[j].key && Same(f.value, gs[j].value);
  }

  lemma {:induction false} CoversOnParts(fs: seq<Field>, g: Field)
    ensures Covers(fs, g) <==> exists i | 0 <= i < |fs| :: fs[i].key == g.key && Same(fs[i].value, g.value)
  {
    assert forall i | 0 <= i < |fs| :: Agree(fs[i], g) <==> fs[i].key == g.key && Same(fs[i].value, g.value);
  }

  // ---------------------------------------------------------------- what sorting does

  ghost predicate Sorted(fields: seq<Field>, le: KeyOrder) {
    forall i, j | 0 <= i < j < |fields| :: le(fields[i].key, fields[j].key)
  }

  ghost predicate SameMembers(a: seq<Field>, b: seq<Field>) {
    forall f :: f in a <==> f in b
  }

  lemma {:induction false} InsertMembers(f: Field, sorted: seq<Field>, le: KeyOrder)
    ensures forall g :: g in Insert(f, sorted, le) <==> g == f || g in sorted
  {
    if sorted != [] && !le(f.key, sorted[0].key) {
      InsertMembers(f, sorted[1..], le);
      assert sorted == [sorted[0]] + sorted[1..];
    }
  }

  lemma {:induction false} InsertKeeps(f: Field, sorted: seq<Field>, le: KeyOrder)
    requires Total(le) && Sorted(sorted, le)
    ensures Sorted(Insert(f, sorted, le), le)
    ensures DistinctKeys(sorted) && (forall g | g in sorted :: g.key != f.key) ==> DistinctKeys(Insert(f, sorted, le))
  {
    if sorted != [] && !le(f.key, sorted[0].key) {
      var tail, rest := sorted[1..], Insert(f, sorted[1..], le);
      InsertKeeps(f, tail, le);
      InsertMembers(f, tail, le);
      forall i | 0 <= i < |rest|
        ensures le(sorted[0].key, rest[i].key)
        ensures rest[i] == f || rest[i] in tail
      {
        assert rest[i] in rest;
      }
    }
  }

  lemma {:induction false} SortKeeps(fields: seq<Field>, le: KeyOrder)
    requires Total(le)
    ensures Sorted(Sort(fields, le), le) && SameMembers(Sort(fields, le), fields)
    ensures DistinctKeys(fields) ==> DistinctKeys(Sort(fields, le))
  {
    if fields != [] {
      SortKeeps(fields[1..], le);
      InsertKeeps(fields[0], Sort(fields[1..], le), le);
      InsertMembers(fields[0], Sort(fields[1..], le), le);
      assert fields == [fields[0]] + fields[1..];
    }
  }

  lemma {:induction false} SortedIsFixed(fields: seq<Field>, le: KeyOrder)
    requires Sorted(fields, le)
    ensures Sort(fields, le) == fields
  {
    if fields != [] {
      SortedIsFixed(fields[1..], le);
      assert fields == [fields[0]] + fields[1..];
    }
  }

  lemma {:induction false} BothEmpty(a: seq<Field>, b: seq<Field>)
    requires SameMembers(a, b)
    ensures a == [] <==> b == []
  {
    if a != [] {
      assert a[0] in b;
    }
    if b != [] {
      assert b[0] in a;
    }
  }

  /** Two sorted lists with distinct keys and the same members are the same list. */
  lemma {:induction false} SortedIsUnique(a: seq<Field>, b: seq<Field>, le: KeyOrder)
    requires TotalOrder(le) && Sorted(a, le) && Sorted(b, le) && DistinctKeys(a) && DistinctKeys(b) && SameMembers(a, b)
    ensures a == b
  {
    BothEmpty(a, b);
    if a != [] {
      assert a[0] in b && b[0] in a;
      assert a[0] == b[0];
      forall f
        ensures f in a[1..] <==> f in b[1..]
      {
        assert f in a[1..] <==> f in a && f != a[0];
        assert f in b[1..] <==> f in b && f != b[0];
      }
      SortedIsUnique(a[1..], b[1..], le);
      assert a == [a[0]] + a[1..] && b == [b[0]] + b[1..];
    }
  }

  lemma {:induction false} EnumerationIsTotal()
    ensures Total(ENUMERATION)
  {
  }

  lemma {:induction false} FromEntriesKeeps(fields: seq<Field>)
    ensures SameMembers(FromEntries(fields), fields)
    ensures DistinctKeys(fields) ==> DistinctKeys(FromEntries(fields))
    ensures FromEntries(FromEntries(fields)) == FromEntries(fields)
  {
    EnumerationIsTotal();
    SortKeeps(fields, ENUMERATION);
    SortedIsFixed(FromEntries(fields), ENUMERATION);
  }

  /** Which order the fields came in does not matter to the sorted list. */
  lemma {:induction false} SortForgetsOrder(a: seq<Field>, b: seq<Field>, le: KeyOrder)
    requires TotalOrder(le) && DistinctKeys(a) && DistinctKeys(b) && SameMembers(a, b)
    ensures Sort(a, le) == Sort(b, le)
  {
    SortKeeps(a, le);
    SortKeeps(b, le);
    SortedIsUnique(Sort(a, le), Sort(b, le), le);
  }

  lemma {:induction false} SortEachAt(fields: seq<Field>, le: KeyOrder, i: nat)
    requires i < |fields|
    ensures SortEach(fields, le)[i] == Field(fields[i].key, SortValue(fields[i].value, le))
  {
    if i > 0 {
      SortEachAt(fields[1..], le, i - 1);
    }
  }

  lemma {:induction false} SortItemsAt(items: seq<Json>, le: KeyOrder, i: nat)
    requires i < |items|
    ensures SortItems(items, le)[i] == SortValue(items[i], le)
  {
    if i > 0 {
      SortItemsAt(items[1..], le, i - 1);
    }
  }

  lemma {:induction false} SortEachKeys(fields: seq<Field>, le: KeyOrder)
    requires DistinctKeys(fields)
    ensures DistinctKeys(SortEach(fields, le))
  {
    forall i | 0 <= i < |fields|
      ensures SortEach(fields, le)[i].key == fields[i].key
    {
      SortEachAt(fields, le, i);
    }
  }

  // ---------------------------------------------------------------- sorted values are equal exactly for same values

  lemma {:induction false} MatchSortsEqual(fs: seq<Field>, gs: seq<Field>, le: KeyOrder)
    requires TotalOrder(le) && DistinctKeys(fs) && DistinctKeys(gs) && Match(fs, gs)
    requires forall i, j | 0 <= i < |fs| && 0 <= j < |gs| && Agree(fs[i], gs[j]) ::
      SortValue(fs[i].value, le) == SortValue(gs[j].value, le)
    ensures Sort(SortEach(fs, le), le) == Sort(SortEach(gs, le), le)
  {
    var sf, sg := SortEach(fs, le), SortEach(gs, le);
    forall i | 0 <= i < |fs|
      ensures sf[i] in sg
    {
      assert FoundIn(fs[i], gs);
      var j :| 0 <= j < |gs| && Agree(fs[i], gs[j]);
      SortEachAt(fs, le, i);
      SortEachAt(gs, le, j);
      assert sf[i] == sg[j];
    }
    forall j | 0 <= j < |gs|
      ensures sg[j] in sf
    {
      assert Covers(fs, gs[j]);
      var i :| 0 <= i < |fs| && Agree(fs[i], gs[j]);
      SortEachAt(fs, le, i);
      SortEachAt(gs, le, j);
      assert sg[j] == sf[i];
    }
    SortEachKeys(fs, le);
    SortEachKeys(gs, le);
    SortForgetsOrder(sf, sg, le);
  }

  lemma {:induction false} SameSortsEqual(a: Json, b: Json, le: KeyOrder)
    requires TotalOrder(le) && WellFormed(a) && WellFormed(b) && Same(a, b)
    ensures SortValue(a, le) == SortValue(b, le)
    decreases a
  {
    match (a, b)
    case (Array(xs), Array(ys)) =>
      forall i | 0 <= i < |xs|
        ensures SortItems(xs, le)[i] == SortItems(ys, le)[i]
      {
        SortItemsAt(xs, le, i);
        SortItemsAt(ys, le, i);
        SameSortsEqual(xs[i], ys[i], le);
      }
    case (Object(fs), Object(gs)) =>
      forall i, j | 0 <= i < |fs| && 0 <= j < |gs| && Agree(fs[i], gs[j])
        ensures SortValue(fs[i].value, le) == SortValue(gs[j].value, le)
      {
        SameSortsEqual(fs[i].value, gs[j].value, le);
      }
      SameObjects(fs, gs);
      MatchSortsEqual(fs, gs, le);
    case _ =>
  }

  lemma {:induction false} MembersOfSorted(fields: seq<Field>, le: KeyOrder)
    requires Total(le)
    ensures SameMembers(FromEntries(Sort(SortEach(fields, le), le)), SortEach(fields, le))
  {
    SortKeeps(SortEach(fields, le), le);
    FromEntriesKeeps(Sort(SortEach(fields, le), le));
  }

  lemma {:induction false} EqualSortsMatch(fs: seq<Field>, gs: seq<Field>, le: KeyOrder)
    requires SameMembers(SortEach(fs, le), SortEach(gs, le))
    requires forall i, j | 0 <= i < |fs| && 0 <= j < |gs| && SortValue(fs[i].value, le) == SortValue(gs[j].value, le) ::
      Same(fs[i].value, gs[j].value)
    ensures Match(fs, gs)
  {
    var sf, sg := SortEach(fs, le), SortEach(gs, le);
    forall i | 0 <= i < |fs|
      ensures FoundIn(fs[i], gs)
    {
      assert sf[i] in sg;
      var j :| 0 <= j < |sg| && sg[j] == sf[i];
      SortEachAt(fs, le, i);
      SortEachAt(gs, le, j);
      assert Agree(fs[i], gs[j]);
    }
    forall j | 0 <= j < |gs|
      ensures Covers(fs, gs[j])
    {
      assert sg[j] in sf;
      var i :| 0 <= i < |sf| && sf[i] == sg[j];
      SortEachAt(fs, le, i);
      SortEachAt(gs, le, j);
      assert Agree(fs[i], gs[j]);
    }
  }

  lemma {:induction false} EqualSortsSame(a: Json, b: Json, le: KeyOrder)
    requires TotalOrder(le) && SortValue(a, le) == SortValue(b, le)
    ensures Same(a, b)
    decreases a
  {
    match (a, b)
    case (Array(xs), Array(ys)) =>
      forall i | 0 <= i < |xs|
        ensures Same(xs[i], ys[i])
      {
        SortItemsAt(xs, le, i);
        SortItemsAt(ys, le, i);
        EqualSortsSame(xs[i], ys[i], le);
      }
    case (Object(fs), Object(gs)) =>
      MembersOfSorted(fs, le);
      MembersOfSorted(gs, le);
      forall i, j | 0 <= i < |fs| && 0 <= j < |gs| && SortValue(fs[i].value, le) == SortValue(gs[j].value, le)
        ensures Same(fs[i].value, gs[j].value)
      {
        EqualSortsSame(fs[i].value, gs[j].value, le);
      }
      EqualSortsMatch(fs, gs, le);
      SameObjects(fs, gs);
    case _ =>
  }

  /** Sorting gives equal results exactly for values that are the same up to key order. */
  lemma {:induction false} SortDecidesSame(a: Json, b: Json, le: KeyOrder)
    requires TotalOrder(le) && WellFormed(a) && WellFormed(b)
    ensures SortValue(a, le) == SortValue(b, le) <==> Same(a, b)
  {
    if Same(a, b) {
      SameSortsEqual(a, b, le);
    }
    if SortValue(a, le) == SortValue(b, le) {
      EqualSortsSame(a, b, le);
    }
  }

  /** Sorting only reorders: the result is well formed and the same value. */
  lemma {:induction false} SortReorders(v: Json, le: KeyOrder)
    requires TotalOrder(le) && WellFormed(v)
    ensures WellFormed(SortValue(v, le)) && Same(SortValue(v, le), v)
    decreases v
  {
    match v
    case Array(items) =>
      forall i | 0 <= i < |items|
        ensures WellFormed(SortItems(items, le)[i]) && Same(SortItems(items, le)[i], items[i])
      {
        SortItemsAt(items, le, i);
        SortReorders(items[i], le);
      }
    case Object(fields) =>
      var each := SortEach(fields, le);
      forall i | 0 <= i < |fields|
        ensures WellFormed(each[i].value) && Agree(each[i], fields[i])
      {
        SortEachAt(fields, le, i);
        SortReorders(fields[i].value, le);
      }
      SortEachKeys(fields, le);
      SortKeeps(each, le);
      FromEntriesKeeps(Sort(each, le));
      SameAfterReorder(fields, each, FromEntries(Sort(each, le)));
    case _ =>
  }

  lemma {:induction false} SameAfterReorder(fields: seq<Field>, each: seq<Field>, result: seq<Field>)
    requires |each| == |fields| && SameMembers(result, each) && DistinctKeys(result)
    requires forall i | 0 <= i < |fields| :: WellFormed(each[i].value) && Agree(each[i], fields[i])
    ensures WellFormed(Object(result)) && Same(Object(result), Object(fields))
  {
    forall i | 0 <= i < |result|
      ensures WellFormed(result[i].value)
      ensures FoundIn(result[i], fields)
    {
      assert result[i] in each;
      var j :| 0 <= j < |each| && each[j] == result[i];
      assert Agree(result[i], fields[j]);
    }
    forall j | 0 <= j < |fields|
      ensures Covers(result, fields[j])
    {
      assert each[j] in result;
      var i :| 0 <= i < |result| && result[i] == each[j];
      assert Agree(result[i], fields[j]);
    }
  }

  lemma {:induction false} SortIsIdempotent(v: Json, le: KeyOrder)
    requires TotalOrder(le) && WellFormed(v)
    ensures SortValue(SortValue(v, le), le) == SortValue(v, le)
  {
    SortReorders(v, le);
    SortDecidesSame(SortValue(v, le), v, le);
  }

  /** Ascending by rank, and by `le` among keys of one rank. */
  ghost predicate RankedThenSorted(fields: seq<Field>, le: KeyOrder) {
    forall i, j | 0 <= i < j < |fields| ::
      || Rank(fields[i].key) < Rank(fields[j].key)
      || (Rank(fields[i].key) == Rank(fields[j].key) && le(fields[i].key, fields[j].key))
  }

  lemma {:induction false} InsertIsStable(f: Field, ranked: seq<Field>, le: KeyOrder)
    requires RankedThenSorted(ranked, le) && forall g | g in ranked :: le(f.key, g.key)
    ensures RankedThenSorted(Insert(f, ranked, ENUMERATION), le)
  {
    if ranked != [] && !ENUMERATION(f.key, ranked[0].key) {
      var tail, rest := ranked[1..], Insert(f, ranked[1..], ENUMERATION);
      InsertIsStable(f, tail, le);
      InsertMembers(f, tail, ENUMERATION);
      forall j | 0 <= j < |rest|
        ensures Rank(ranked[0].key) < Rank(rest[j].key)
             || (Rank(ranked[0].key) == Rank(rest[j].key) && le(ranked[0].key, rest[j].key))
      {
        assert rest[j] in rest;
      }
    }
  }

  lemma {:induction false} FromEntriesIsStable(sorted: seq<Field>, le: KeyOrder)
    requires Sorted(sorted, le)
    ensures RankedThenSorted(FromEntries(sorted), le)
  {
    if sorted != [] {
      FromEntriesIsStable(sorted[1..], le);
      EnumerationIsTotal();
      SortKeeps(sorted[1..], ENUMERATION);
      InsertIsStable(sorted[0], FromEntries(sorted[1..]), le);
    }
  }

  /** The keys of a sorted object ascend by `le`, numerals aside: those are enumerated first. */
  lemma {:induction false} KeysAscend(fields: seq<Field>, le: KeyOrder, i: nat, j: nat)
    requires Total(le) && SortValue(Object(fields), le).Object?
    requires i < j < |SortValue(Object(fields), le).fields|
    requires var sorted := SortValue(Object(fields), le).fields;
      (exists c | c in sorted[i].key :: !('0' <= c <= '9')) && (exists c | c in sorted[j].key :: !('0' <= c <= '9'))
    ensures var sorted := SortValue(Object(fields), le).fields; le(sorted[i].key, sorted[j].key)
  {
    SortKeeps(SortEach(fields, le), le);
    FromEntriesIsStable(Sort(SortEach(fields, le), le), le);
  }

  lemma {:induction false} InsertLast(f: Field, g: Field)
    requires Rank(g.key) < Rank(f.key)
    ensures Insert(f, [g], ENUMERATION) == [g, f] && Sort([g], ENUMERATION) == [g]
  {
    assert [g][1..] == [] && Insert(f, [], ENUMERATION) == [f];
  }

  /** Numerals are enumerated first and by value, whatever the order they were written in. */
  lemma {:induction false} NumeralsComeFirst(a: Json, b: Json, c: Json)
    ensures FromEntries([Field("b", a), Field("10", b), Field("2", c)]) ==
      [Field("2", c), Field("10", b), Field("b", a)]
  {
    var x, y, z := Field("b", a), Field("10", b), Field("2", c);
    assert "10"[..1] == "1" && "1"[..0] == "" && "2"[..0] == "";
    assert Rank("2") == 2 && Rank("10") == 10 && Rank("b") == 0xFFFF_FFFF;
    assert [x, y, z][1..] == [y, z] && [y, z][1..] == [z] && [z][1..] == [];
    InsertLast(y, z);
    InsertLast(x, y);
    assert Sort([y, z], ENUMERATION) == Insert(y, [z], ENUMERATION) == [z, y];
    assert [z, y][1..] == [y] && Insert(x, [z, y], ENUMERATION) == [z] + Insert(x, [y], ENUMERATION);
  }

  // ---------------------------------------------------------------- sanitizeJsonValue

  const REDACTIONS: map<string, string> := map[
    "authorization" := "<redacted-authorization>",
    "assertion" := "<redacted-jwt>",
    "access_token" := "<redacted-access-token>",
    "refresh_token" := "<redacted-refresh-token>",
    "client_secret" := "<redacted-client-secret>",
    "private_key" := "<redacted-private-key>",
    "password" := "<redacted-password>",
    "ipaddress" := "<redacted-ip>",
    "natip" := "<redacted-ip>",
    "client_email" := "<redacted-email>"]

  /** A text under a key; `fold` is `key.trim().toLowerCase()`. */
  function SanitizeText(s: string, key: Option<string>, fold: string -> string): string {
    if key.Some? && fold(key.value) in REDACTIONS then REDACTIONS[fold(key.value)] else s
  }

  /**
   Assigning to `__proto__` sets the prototype and adds no field, so a field of that name is lost.
   Items of an array keep the key of the array.
   */
  function SanitizeValue(v: Json, key: Option<string>, fold: string -> string): Json
    decreases v
  {
    match v
    case Array(items) => Array(SanitizeItems(items, key, fold))
    case Object(fields) => Object(FromEntries(SanitizeEach(fields, fold)))
    case Text(s) => Text(SanitizeText(s, key, fold))
    case _ => v
  }

  function SanitizeItems(items: seq<Json>, key: Option<string>, fold: string -> string): (r: seq<Json>)
    ensures |r| == |items|
    decreases items
  {
    if items == [] then []
    else [SanitizeValue(items[0], key, fold)] + SanitizeItems(items[1..], key, fold)
  }

  function SanitizeEach(fields: seq<Field>, fold: string -> string): seq<Field>
    decreases fields
  {
    if fields == [] then []
    else if fields[0].key == "__proto__" then SanitizeEach(fields[1..], fold)
    else
      [Field(fields[0].key, SanitizeValue(fields[0].value, Some(fields[0].key), fold))]
      + SanitizeEach(fields[1..], fold)
  }

  /** An object after a field with a new key is assigned. */
  function Assigned(entries: seq<Field>, f: Field): seq<Field> {
    if entries == [] || !ENUMERATION(entries[0].key, f.key) then [f] + entries
    else [entries[0]] + Assigned(entries[1..], f)
  }

  lemma {:induction false} InsertThenAssign(x: Field, sorted: seq<Field>, f: Field)
    requires Sorted(sorted, ENUMERATION)
    ensures Assigned(Insert(x, sorted, ENUMERATION), f) == Insert(x, Assigned(sorted, f), ENUMERATION)
  {
    if sorted == [] || ENUMERATION(x.key, sorted[0].key) {
      assert ([x] + sorted)[1..] == sorted;
    } else {
      InsertThenAssign(x, sorted[1..], f);
      var inserted := Insert(x, sorted[1..], ENUMERATION);
      assert ([sorted[0]] + inserted)[1..] == inserted;
      assert ([sorted[0]] + Assigned(sorted[1..], f))[1..] == Assigned(sorted[1..], f);
      assert ([f] + sorted)[1..] == sorted;
    }
  }

  lemma {:induction false} FromEntriesNext(fields: seq<Field>, f: Field)
    ensures FromEntries(fields + [f]) == Assigned(FromEntries(fields), f)
  {
    if fields == [] {
      assert [f][1..] == [] && [f] + [] == [f];
    } else {
      assert (fields + [f])[1..] == fields[1..] + [f];
      FromEntriesNext(fields[1..], f);
      EnumerationIsTotal();
      SortKeeps(fields[1..], ENUMERATION);
      InsertThenAssign(fields[0], FromEntries(fields[1..]), f);
    }
  }

  lemma {:induction false} SanitizeEachNext(fields: seq<Field>, f: Field, fold: string -> string)
    ensures SanitizeEach(fields + [f], fold) ==
      SanitizeEach(fields, fold) + if f.key == "__proto__" then [] else [SanitizedField(f, fold)]
  {
    if fields == [] {
      assert [f][1..] == [];
    } else {
      assert (fields + [f])[1..] == fields[1..] + [f];
      SanitizeEachNext(fields[1..], f, fold);
    }
  }

  /** The loop of `sanitizeJsonValue`: fields are assigned one by one to an object that starts empty. */
  method SanitizeFields(fields: seq<Field>, key: Option<string>, fold: string -> string) returns (sanitized: seq<Field>)
    ensures Object(sanitized) == SanitizeValue(Object(fields), key, fold)
  {
    sanitized := [];
    for i := 0 to |fields|
      invariant sanitized == FromEntries(SanitizeEach(fields[..i], fold))
    {
      var entryKey, entryValue := fields[i].key, fields[i].value;
      assert fields[..i + 1] == fields[..i] + [fields[i]];
      SanitizeEachNext(fields[..i], fields[i], fold);
      if entryKey != "__proto__" {
        var entry := Field(entryKey, SanitizeValue(entryValue, Some(entryKey), fold));
        FromEntriesNext(SanitizeEach(fields[..i], fold), entry);
        sanitized := Assigned(sanitized, entry);
      } else {
        assert SanitizeEach(fields[..i], fold) + [] == SanitizeEach(fields[..i], fold);
      }
    }
    assert fields[..|fields|] == fields;
  }

  // ---------------------------------------------------------------- both maps commute with inserting and sorting

  function SortedField(f: Field, le: KeyOrder): Field {
    Field(f.key, SortValue(f.value, le))
  }

  function SanitizedField(f: Field, fold: string -> string): Field {
    Field(f.key, SanitizeValue(f.value, Some(f.key), fold))
  }

  lemma {:induction false} InsertThenSortEach(f: Field, sorted: seq<Field>, order: KeyOrder, le: KeyOrder)
    ensures SortEach(Insert(f, sorted, order), le) == Insert(SortedField(f, le), SortEach(sorted, le), order)
  {
    if sorted == [] || order(f.key, sorted[0].key) {
      assert ([f] + sorted)[1..] == sorted;
    } else {
      InsertThenSortEach(f, sorted[1..], order, le);
      var all := [sorted[0]] + Insert(f, sorted[1..], order);
      assert all[1..] == Insert(f, sorted[1..], order);
    }
  }

  lemma {:induction false} SortThenSortEach(fields: seq<Field>, order: KeyOrder, le: KeyOrder)
    ensures SortEach(Sort(fields, order), le) == Sort(SortEach(fields, le), order)
  {
    if fields != [] {
      SortThenSortEach(fields[1..], order, le);
      InsertThenSortEach(fields[0], Sort(fields[1..], order), order, le);
    }
  }

  lemma {:induction false} SanitizedFrom(fields: seq<Field>, fold: string -> string, g: Field) returns (f: Field)
    requires g in SanitizeEach(fields, fold)
    ensures f in fields && f.key == g.key
  {
    f := fields[0];
    if g in SanitizeEach(fields[1..], fold) {
      f := SanitizedFrom(fields[1..], fold, g);
    }
  }

  lemma {:induction false} SanitizedKeys(fields: seq<Field>, fold: string -> string)
    ensures forall g | g in SanitizeEach(fields, fold) :: exists f | f in fields :: f.key == g.key
    ensures DistinctKeys(fields) ==> DistinctKeys(SanitizeEach(fields, fold))
  {
    forall g | g in SanitizeEach(fields, fold)
      ensures exists f | f in fields :: f.key == g.key
    {
      var f := SanitizedFrom(fields, fold, g);
    }
    if DistinctKeys(fields) {
      SanitizedDistinct(fields, fold);
    }
  }

  lemma {:induction false} SanitizedDistinct(fields: seq<Field>, fold: string -> string)
    requires DistinctKeys(fields)
    ensures DistinctKeys(SanitizeEach(fields, fold))
  {
    if fields != [] {
      SanitizedDistinct(fields[1..], fold);
      forall g | g in SanitizeEach(fields[1..], fold)
        ensures g.key != fields[0].key
      {
        var f := SanitizedFrom(fields[1..], fold, g);
      }
    }
  }

  lemma {:induction false} InsertThenSanitize(f: Field, sorted: seq<Field>, order: KeyOrder, fold: string -> string)
    requires Total(order) && Sorted(sorted, order)
    ensures SanitizeEach(Insert(f, sorted, order), fold) ==
      if f.key == "__proto__" then SanitizeEach(sorted, fold)
      else Insert(SanitizedField(f, fold), SanitizeEach(sorted, fold), order)
  {
    if sorted == [] || order(f.key, sorted[0].key) {
      assert ([f] + sorted)[1..] == sorted;
      SanitizedKeys(sorted, fold);
      var rest := SanitizeEach(sorted, fold);
      assert rest != [] ==> rest[0] in rest && order(f.key, rest[0].key);
    } else {
      InsertThenSanitize(f, sorted[1..], order, fold);
      var all := [sorted[0]] + Insert(f, sorted[1..], order);
      assert all[1..] == Insert(f, sorted[1..], order);
      var rest := SanitizeEach(sorted[1..], fold);
      assert ([SanitizedField(sorted[0], fold)] + rest)[1..] == rest;
    }
  }

  lemma {:induction false} SortThenSanitize(fields: seq<Field>, order: KeyOrder, fold: string -> string)
    requires Total(order)
    ensures SanitizeEach(Sort(fields, order), fold) == Sort(SanitizeEach(fields, fold), order)
  {
    if fields != [] {
      SortThenSanitize(fields[1..], order, fold);
      SortKeeps(fields[1..], order);
      InsertThenSanitize(fields[0], Sort(fields[1..], order), order, fold);
      if fields[0].key != "__proto__" {
        var rest := SanitizeEach(fields[1..], fold);
        assert ([SanitizedField(fields[0], fold)] + rest)[1..] == rest;
      }
    }
  }

  // ---------------------------------------------------------------- what sanitizing changes

  lemma {:induction false} SanitizeItemsAt(items: seq<Json>, key: Option<string>, fold: string -> string, i: nat)
    requires i < |items|
    ensures SanitizeItems(items, key, fold)[i] == SanitizeValue(items[i], key, fold)
  {
    if i > 0 {
      SanitizeItemsAt(items[1..], key, fold, i - 1);
    }
  }

  lemma {:induction false} SanitizedMembers(fields: seq<Field>, fold: string -> string, g: Field)
    ensures g in SanitizeEach(fields, fold) <==> exists f | f in fields ::
      f.key != "__proto__" && g == Field(f.key, SanitizeValue(f.value, Some(f.key), fold))
  {
    if fields != [] {
      SanitizedMembers(fields[1..], fold, g);
      assert fields == [fields[0]] + fields[1..];
    }
  }

  /**
   A text under a secret key becomes the placeholder of that key and any other text stays; an item of an
   array is sanitized under the array's key and a field under its own; the rest stays as it is.
   */
  lemma {:induction false} SanitizeChangesSecretsOnly(v: Json, key: Option<string>, fold: string -> string)
    ensures match v
      case Text(s) => SanitizeValue(v, key, fold) == Text(
        if key.None? then s
        else match fold(key.value)
          case "authorization" => "<redacted-authorization>"
          case "assertion" => "<redacted-jwt>"
          case "access_token" => "<redacted-access-token>"
          case "refresh_token" => "<redacted-refresh-token>"
          case "client_secret" => "<redacted-client-secret>"
          case "private_key" => "<redacted-private-key>"
          case "password" => "<redacted-password>"
          case "ipaddress" => "<redacted-ip>"
          case "natip" => "<redacted-ip>"
          case "client_email" => "<redacted-email>"
          case _ => s)
      case Array(items) =>
        var after := SanitizeValue(v, key, fold);
        && after.Array? && |after.items| == |items|
        && forall i | 0 <= i < |items| :: after.items[i] == SanitizeValue(items[i], key, fold)
      case Object(fields) =>
        var after := SanitizeValue(v, key, fold);
        && after.Object?
        && forall g: Field :: g in after.fields <==> exists f | f in fields ::
             f.key != "__proto__" && g == Field(f.key, SanitizeValue(f.value, Some(f.key), fold))
      case _ => SanitizeValue(v, key, fold) == v
  {
    match v
    case Array(items) =>
      forall i | 0 <= i < |items|
        ensures SanitizeItems(items, key, fold)[i] == SanitizeValue(items[i], key, fold)
      {
        SanitizeItemsAt(items, key, fold, i);
      }
    case Object(fields) =>
      FromEntriesKeeps(SanitizeEach(fields, fold));
      forall g: Field
        ensures g in FromEntries(SanitizeEach(fields, fold)) <==> exists f | f in fields ::
          f.key != "__proto__" && g == Field(f.key, SanitizeValue(f.value, Some(f.key), fold))
      {
        SanitizedMembers(fields, fold, g);
      }
    case _ =>
  }

  // ---------------------------------------------------------------- sanitizing twice, and before or after sorting

  lemma {:induction false} SanitizeIsIdempotent(v: Json, key: Option<string>, fold: string -> string)
    ensures SanitizeValue(SanitizeValue(v, key, fold), key, fold) == SanitizeValue(v, key, fold)
    decreases v
  {
    match v
    case Array(items) => SanitizeItemsTwice(items, key, fold);
    case Object(fields) =>
      SanitizeEachTwice(fields, fold);
      EnumerationIsTotal();
      SortThenSanitize(SanitizeEach(fields, fold), ENUMERATION, fold);
      FromEntriesKeeps(SanitizeEach(fields, fold));
    case _ =>
  }

  lemma {:induction false} SanitizeItemsTwice(items: seq<Json>, key: Option<string>, fold: string -> string)
    ensures SanitizeItems(SanitizeItems(items, key, fold), key, fold) == SanitizeItems(items, key, fold)
    decreases items
  {
    if items != [] {
      SanitizeIsIdempotent(items[0], key, fold);
      SanitizeItemsTwice(items[1..], key, fold);
    }
  }

  lemma {:induction false} SanitizeEachTwice(fields: seq<Field>, fold: string -> string)
    ensures SanitizeEach(SanitizeEach(fields, fold), fold) == SanitizeEach(fields, fold)
    decreases fields
  {
    if fields != [] {
      SanitizeEachTwice(fields[1..], fold);
      if fields[0].key != "__proto__" {
        SanitizeIsIdempotent(fields[0].value, Some(fields[0].key), fold);
        var rest := SanitizeEach(fields[1..], fold);
        assert ([SanitizedField(fields[0], fold)] + rest)[1..] == rest;
      }
    }
  }

  /** Sanitizing commutes with sorting. */
  lemma {:induction false} SanitizeCommutesWithSort(v: Json, key: Option<string>, le: KeyOrder, fold: string -> string)
    requires TotalOrder(le) && WellFormed(v)
    ensures SanitizeValue(SortValue(v, le), key, fold) == SortValue(SanitizeValue(v, key, fold), le)
    decreases v
  {
    match v
    case Array(items) => ItemsCommute(items, key, le, fold);
    case Object(fields) =>
      EachCommutes(fields, le, fold);
      FieldsCommute(fields, le, fold);
    case _ =>
  }

  lemma {:induction false} ItemsCommute(items: seq<Json>, key: Option<string>, le: KeyOrder, fold: string -> string)
    requires TotalOrder(le) && forall i | 0 <= i < |items| :: WellFormed(items[i])
    ensures SanitizeItems(SortItems(items, le), key, fold) == SortItems(SanitizeItems(items, key, fold), le)
    decreases items
  {
    if items != [] {
      SanitizeCommutesWithSort(items[0], key, le, fold);
      ItemsCommute(items[1..], key, le, fold);
    }
  }

  lemma {:induction false} EachCommutes(fields: seq<Field>, le: KeyOrder, fold: string -> string)
    requires TotalOrder(le) && forall i | 0 <= i < |fields| :: WellFormed(fields[i].value)
    ensures SanitizeEach(SortEach(fields, le), fold) == SortEach(SanitizeEach(fields, fold), le)
    decreases fields
  {
    if fields != [] {
      SanitizeCommutesWithSort(fields[0].value, Some(fields[0].key), le, fold);
      EachCommutes(fields[1..], le, fold);
      var rest := SortEach(fields[1..], le);
      assert ([SortedField(fields[0], le)] + rest)[1..] == rest;
      if fields[0].key != "__proto__" {
        var after := SanitizeEach(fields[1..], fold);
        assert ([SanitizedField(fields[0], fold)] + after)[1..] == after;
      }
    }
  }

  /** The fields of one object, given that their values commute. */
  lemma {:induction false} FieldsCommute(fields: seq<Field>, le: KeyOrder, fold: string -> string)
    requires TotalOrder(le) && DistinctKeys(fields)
    requires SanitizeEach(SortEach(fields, le), fold) == SortEach(SanitizeEach(fields, fold), le)
    ensures FromEntries(SanitizeEach(FromEntries(Sort(SortEach(fields, le), le)), fold)) ==
            FromEntries(Sort(SortEach(FromEntries(SanitizeEach(fields, fold)), le), le))
  {
    EnumerationIsTotal();
    var sorted := Sort(SortEach(fields, le), le);
    var clean := SanitizeEach(fields, fold);
    var both := SortEach(clean, le);
    calc {
      FromEntries(SanitizeEach(FromEntries(sorted), fold));
      { SortThenSanitize(sorted, ENUMERATION, fold); }
      FromEntries(FromEntries(SanitizeEach(sorted, fold)));
      { FromEntriesKeeps(SanitizeEach(sorted, fold)); }
      FromEntries(SanitizeEach(sorted, fold));
      { SortThenSanitize(SortEach(fields, le), le, fold); }
      FromEntries(Sort(both, le));
      { SanitizedKeys(fields, fold);
        SortEachKeys(clean, le);
        FromEntriesKeeps(both);
        SortForgetsOrder(FromEntries(both), both, le); }
      FromEntries(Sort(FromEntries(both), le));
      { SortThenSortEach(clean, ENUMERATION, le); }
      FromEntries(Sort(SortEach(FromEntries(clean), le), le));
    }
  }

  /** Being the same up to key order is an equivalence on well-formed values. */
  lemma {:induction false} SameIsEquivalence(a: Json, b: Json, c: Json, le: KeyOrder)
    requires TotalOrder(le) && WellFormed(a) && WellFormed(b) && WellFormed(c)
    ensures Same(a, a)
    ensures Same(a, b) ==> Same(b, a)
    ensures Same(a, b) && Same(b, c) ==> Same(a, c)
  {
    SortDecidesSame(a, a, le);
    SortDecidesSame(a, b, le);
    SortDecidesSame(b, a, le);
    SortDecidesSame(b, c, le);
    SortDecidesSame(a, c, le);
  }
}
