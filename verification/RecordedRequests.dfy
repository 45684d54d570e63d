/**
 How recorded requests are compared (scripts/gcp/common.ts): both are normalised and turned into
 text by `JSON.stringify`, and the texts are compared.
 */
module RecordedRequests {
  import opened Prelude
  import opened JsonCanonical

  // ---------------------------------------------------------------- JSON.stringify

  function HexDigit(n: nat): char
    requires n < 16
  {
    "0123456789abcdef"[n]
  }

  /** One character between the quotes (QuoteJSONString, section 25.5.2.3 of ECMA-262). */
  function Escape(c: char): (e: string)
    ensures e != ""
  {
    if c == '"' then "\\\""
    else if c == '\\' then "\\\\"
    else if c == '\U{0008}' then "\\b"
    else if c == '\t' then "\\t"
    else if c == '\n' then "\\n"
    else if c == '\U{000C}' then "\\f"
    else if c == '\r' then "\\r"
    else if c < ' ' then "\\u00" + [HexDigit(c as nat / 16), HexDigit(c as nat % 16)]
    else [c]
  }

  function EscapeAll(s: string): string {
    if s == "" then "" else Escape(s[0]) + EscapeAll(s[1..])
  }

  /** A quoted string after its opening quote. */
  function Unquote(s: string): string {
    EscapeAll(s) + "\""
  }

  function Stringify(v: Json): string
    decreases v, 0
  {
    match v
    case Null => "null"
    case Bool(b) => if b then "true" else "false"
    case Number(numeral) => numeral
    case Text(s) => "\"" + Unquote(s)
    case Array(items) => "[" + if items == [] then "]" else Stringify(items[0]) + MoreItems(items[1..])
    case Object(fields) => "{" + if fields == [] then "}" else StringifyField(fields[0]) + MoreFields(fields[1..])
  }

  /** The rest of an array after an item. */
  function MoreItems(items: seq<Json>): string
    decreases items, 0
  {
    if items == [] then "]" else "," + (Stringify(items[0]) + MoreItems(items[1..]))
  }

  function StringifyField(f: Field): string
    decreases f, 1
  {
    "\"" + (Unquote(f.key) + (":" + Stringify(f.value)))
  }

  /** The rest of an object after a field. */
  function MoreFields(fields: seq<Field>): string
    decreases fields, 0
  {
    if fields == [] then "}" else "," + (StringifyField(fields[0]) + MoreFields(fields[1..]))
  }

  // ---------------------------------------------------------------- a text comes from one value only

  /** What follows a number does not go on with it. */
  predicate EndsNumber(s: string) {
    s == "" || !IsNumeralChar(s[0])
  }

  lemma {:induction false} Cancel(p: string, s: string, t: string)
    requires p + s == p + t
    ensures s == t
  {
    assert s == (p + s)[|p|..] == (p + t)[|p|..] == t;
  }

  lemma {:induction false} Reassociate(p: string, q: string, s: string)
    ensures p + q + s == p + (q + s)
  {
  }

  /** The characters with an escape of two characters, and the second of them. */
  predicate IsShort(c: char) {
    c in "\"\\\U{0008}\t\n\U{000C}\r"
  }

  lemma {:induction false} EscapeForms(c: char)
    ensures IsShort(c) ==> |Escape(c)| == 2 && Escape(c)[0] == '\\' && Escape(c)[1] != 'u'
    ensures !IsShort(c) && c < ' ' ==>
      && |Escape(c)| == 6 && Escape(c)[0] == '\\' && Escape(c)[1] == 'u'
      && Escape(c)[4] == HexDigit(c as nat / 16) && Escape(c)[5] == HexDigit(c as nat % 16)
    ensures !IsShort(c) && c >= ' ' ==> Escape(c) == [c] && c != '\\'
  {
  }

  lemma {:induction false} HexDigitsDiffer(m: nat, n: nat)
    requires m < 16 && n < 16 && m != n
    ensures HexDigit(m) != HexDigit(n)
  {
    var digits := "0123456789abcdef";
    assert forall i | 0 <= i < 10 :: digits[i] == '0' + i as char;
    assert forall i | 10 <= i < 16 :: digits[i] == 'a' + (i - 10) as char;
  }

  lemma {:induction false} EscapesDiffer(c: char, d: char) returns (k: nat)
    requires c != d
    ensures k < |Escape(c)| && k < |Escape(d)| && Escape(c)[k] != Escape(d)[k]
  {
    EscapeForms(c);
    EscapeForms(d);
    k := 0;
    if Escape(c)[0] == Escape(d)[0] {
      k := 1;
      if |Escape(c)| == 6 == |Escape(d)| {
        k := ControlsDiffer(c as nat, d as nat);
      }
    }
  }

  lemma {:induction false} ControlsDiffer(m: nat, n: nat) returns (k: nat)
    requires m < 32 && n < 32 && m != n
    ensures k == 4 ==> HexDigit(m / 16) != HexDigit(n / 16)
    ensures k == 5 ==> HexDigit(m % 16) != HexDigit(n % 16)
    ensures k in {4, 5}
  {
    if m / 16 != n / 16 {
      k := 4;
      HexDigitsDiffer(m / 16, n / 16);
    } else {
      k := 5;
      HexDigitsDiffer(m % 16, n % 16);
    }
  }

  lemma {:induction false} EscapesApart(c: char, d: char, s: string, t: string)
    requires c != d
    ensures Escape(c) + s != Escape(d) + t
  {
    var k := EscapesDiffer(c, d);
    assert (Escape(c) + s)[k] != (Escape(d) + t)[k];
  }

  lemma {:induction false} ClosingApart(b: string, s: string, t: string)
    requires b != ""
    ensures Unquote("") + s != Unquote(b) + t
  {
    assert (Unquote("") + s)[0] == '"';
    assert (Unquote(b) + t)[0] == Escape(b[0])[0] != '"';
  }

  lemma {:induction false} UnquoteSplits(a: string, s: string)
    requires a != ""
    ensures Unquote(a) + s == Escape(a[0]) + (Unquote(a[1..]) + s)
  {
    Reassociate(Escape(a[0]), EscapeAll(a[1..]), "\"");
    Reassociate(Escape(a[0]), Unquote(a[1..]), s);
  }

  lemma {:induction false} UnquoteDecodes(a: string, b: string, s: string, t: string)
    requires Unquote(a) + s == Unquote(b) + t
    ensures a == b && s == t
    decreases |a|
  {
    if a == "" && b == "" {
      Cancel(Unquote(""), s, t);
    } else if a == "" {
      ClosingApart(b, s, t);
    } else if b == "" {
      ClosingApart(a, t, s);
    } else {
      UnquoteSplits(a, s);
      UnquoteSplits(b, t);
      if a[0] != b[0] {
        EscapesApart(a[0], b[0], Unquote(a[1..]) + s, Unquote(b[1..]) + t);
      } else {
        Cancel(Escape(a[0]), Unquote(a[1..]) + s, Unquote(b[1..]) + t);
        UnquoteDecodes(a[1..], b[1..], s, t);
        assert a == [a[0]] + a[1..] && b == [b[0]] + b[1..];
      }
    }
  }

  lemma {:induction false} LongerNumeralApart(a: string, b: string, s: string, t: string)
    requires IsNumeral(b) && EndsNumber(s) && |a| < |b|
    ensures a + s != b + t
  {
    if s == "" {
      assert |a + s| < |b + t|;
    } else {
      assert (a + s)[|a|] == s[0];
      assert (b + t)[|a|] == b[|a|];
    }
  }

  lemma {:induction false} NumeralDecodes(a: string, b: string, s: string, t: string)
    requires IsNumeral(a) && IsNumeral(b) && EndsNumber(s) && EndsNumber(t) && a + s == b + t
    ensures a == b && s == t
  {
    if |a| < |b| {
      LongerNumeralApart(a, b, s, t);
    } else if |b| < |a| {
      LongerNumeralApart(b, a, t, s);
    } else {
      assert a == (a + s)[..|a|] == b;
      Cancel(a, s, t);
    }
  }

  /** The first character tells the kind of a value. */
  function Kind(c: char): nat {
    if c == 'n' then 0 else if c == 't' then 1 else if c == 'f' then 2 else if c == '"' then 3
    else if c == '[' then 4 else if c == '{' then 5 else if '0' <= c <= '9' || c == '-' then 6 else 7
  }

  function KindOf(v: Json): nat {
    match v
    case Null => 0
    case Bool(b) => if b then 1 else 2
    case Text(_) => 3
    case Array(_) => 4
    case Object(_) => 5
    case Number(_) => 6
  }

  lemma {:induction false} FirstTellsKind(v: Json, s: string)
    requires WellFormed(v)
    ensures Stringify(v) != "" && Kind((Stringify(v) + s)[0]) == KindOf(v)
  {
    assert (Stringify(v) + s)[0] == Stringify(v)[0];
  }

  lemma {:induction false} StringifyDecodes(a: Json, b: Json, s: string, t: string)
    requires WellFormed(a) && WellFormed(b) && EndsNumber(s) && EndsNumber(t)
    requires Stringify(a) + s == Stringify(b) + t
    ensures a == b && s == t
    decreases a, 0
  {
    FirstTellsKind(a, s);
    FirstTellsKind(b, t);
    match a
    case Text(p) =>
      Reassociate("\"", Unquote(p), s);
      Reassociate("\"", Unquote(b.s), t);
      Cancel("\"", Unquote(p) + s, Unquote(b.s) + t);
      UnquoteDecodes(p, b.s, s, t);
    case Number(p) => NumeralDecodes(p, b.numeral, s, t);
    case Array(items) => ArrayDecodes(items, b.items, s, t);
    case Object(fields) => ObjectDecodes(fields, b.fields, s, t);
    case _ => Cancel(Stringify(a), s, t);
  }

  lemma {:induction false} ArraySplits(xs: seq<Json>, s: string)
    requires xs != []
    ensures Stringify(Array(xs)) + s == "[" + (Stringify(xs[0]) + (MoreItems(xs[1..]) + s))
    ensures MoreItems(xs) + s == "," + (Stringify(xs[0]) + (MoreItems(xs[1..]) + s))
  {
    Reassociate(Stringify(xs[0]), MoreItems(xs[1..]), s);
    Reassociate("[", Stringify(xs[0]) + MoreItems(xs[1..]), s);
    Reassociate(",", Stringify(xs[0]) + MoreItems(xs[1..]), s);
  }

  lemma {:induction false} EmptyArrayApart(ys: seq<Json>, s: string, t: string)
    requires ys != [] && WellFormed(ys[0])
    ensures Stringify(Array([])) + s != Stringify(Array(ys)) + t
    ensures MoreItems([]) + s != MoreItems(ys) + t
  {
    ArraySplits(ys, t);
    FirstTellsKind(ys[0], MoreItems(ys[1..]) + t);
    assert (Stringify(Array([])) + s)[1] == ']';
    assert (Stringify(Array(ys)) + t)[1] == (Stringify(ys[0]) + (MoreItems(ys[1..]) + t))[0];
    assert (MoreItems([]) + s)[0] != (MoreItems(ys) + t)[0];
  }

  ghost predicate AllWellFormed(items: seq<Json>) {
    forall i | 0 <= i < |items| :: WellFormed(items[i])
  }

  lemma {:induction false} ArrayDecodes(xs: seq<Json>, ys: seq<Json>, s: string, t: string)
    requires AllWellFormed(xs) && AllWellFormed(ys)
    requires Stringify(Array(xs)) + s == Stringify(Array(ys)) + t
    ensures xs == ys && s == t
    decreases xs, 1
  {
    if xs == [] && ys == [] {
      Cancel(Stringify(Array([])), s, t);
    } else if xs == [] {
      EmptyArrayApart(ys, s, t);
    } else if ys == [] {
      EmptyArrayApart(xs, t, s);
    } else {
      ArraySplits(xs, s);
      ArraySplits(ys, t);
      Cancel("[", Stringify(xs[0]) + (MoreItems(xs[1..]) + s), Stringify(ys[0]) + (MoreItems(ys[1..]) + t));
      ItemsDecode(xs, ys, s, t);
    }
  }

  lemma {:induction false} MoreItemsDecodes(xs: seq<Json>, ys: seq<Json>, s: string, t: string)
    requires AllWellFormed(xs) && AllWellFormed(ys)
    requires MoreItems(xs) + s == MoreItems(ys) + t
    ensures xs == ys && s == t
    decreases xs, 1
  {
    if xs == [] && ys == [] {
      Cancel(MoreItems([]), s, t);
    } else if xs == [] {
      EmptyArrayApart(ys, s, t);
    } else if ys == [] {
      EmptyArrayApart(xs, t, s);
    } else {
      ArraySplits(xs, s);
      ArraySplits(ys, t);
      Cancel(",", Stringify(xs[0]) + (MoreItems(xs[1..]) + s), Stringify(ys[0]) + (MoreItems(ys[1..]) + t));
      ItemsDecode(xs, ys, s, t);
    }
  }

  /** An item and what follows it. */
  lemma {:induction false} ItemsDecode(xs: seq<Json>, ys: seq<Json>, s: string, t: string)
    requires xs != [] && ys != [] && AllWellFormed(xs) && AllWellFormed(ys)
    requires Stringify(xs[0]) + (MoreItems(xs[1..]) + s) == Stringify(ys[0]) + (MoreItems(ys[1..]) + t)
    ensures xs == ys && s == t
    decreases xs, 0
  {
    StringifyDecodes(xs[0], ys[0], MoreItems(xs[1..]) + s, MoreItems(ys[1..]) + t);
    MoreItemsDecodes(xs[1..], ys[1..], s, t);
    assert xs == [xs[0]] + xs[1..] && ys == [ys[0]] + ys[1..];
  }

  lemma {:induction false} ObjectSplits(fs: seq<Field>, s: string)
    requires fs != []
    ensures Stringify(Object(fs)) + s == "{" + (StringifyField(fs[0]) + (MoreFields(fs[1..]) + s))
    ensures MoreFields(fs) + s == "," + (StringifyField(fs[0]) + (MoreFields(fs[1..]) + s))
  {
    Reassociate(StringifyField(fs[0]), MoreFields(fs[1..]), s);
    Reassociate("{", StringifyField(fs[0]) + MoreFields(fs[1..]), s);
    Reassociate(",", StringifyField(fs[0]) + MoreFields(fs[1..]), s);
  }

  lemma {:induction false} EmptyObjectApart(gs: seq<Field>, s: string, t: string)
    requires gs != []
    ensures Stringify(Object([])) + s != Stringify(Object(gs)) + t
    ensures MoreFields([]) + s != MoreFields(gs) + t
  {
    ObjectSplits(gs, t);
    assert (Stringify(Object([])) + s)[1] == '}';
    assert (Stringify(Object(gs)) + t)[1] == StringifyField(gs[0])[0] == '"';
    assert (MoreFields([]) + s)[0] != (MoreFields(gs) + t)[0];
  }

  lemma {:induction false} FieldSplits(f: Field, s: string)
    ensures StringifyField(f) + s == "\"" + (Unquote(f.key) + (":" + (Stringify(f.value) + s)))
  {
    Reassociate(":", Stringify(f.value), s);
    Reassociate(Unquote(f.key), ":" + Stringify(f.value), s);
    Reassociate("\"", Unquote(f.key) + (":" + Stringify(f.value)), s);
  }

  ghost predicate AllFieldsWellFormed(fs: seq<Field>) {
    forall i | 0 <= i < |fs| :: WellFormed(fs[i].value)
  }

  lemma {:induction false} FieldDecodes(f: Field, g: Field, s: string, t: string)
    requires WellFormed(f.value) && WellFormed(g.value) && EndsNumber(s) && EndsNumber(t)
    requires StringifyField(f) + s == StringifyField(g) + t
    ensures f == g && s == t
    decreases f, 1
  {
    FieldSplits(f, s);
    FieldSplits(g, t);
    var u, v := Stringify(f.value) + s, Stringify(g.value) + t;
    Cancel("\"", Unquote(f.key) + (":" + u), Unquote(g.key) + (":" + v));
    UnquoteDecodes(f.key, g.key, ":" + u, ":" + v);
    Cancel(":", u, v);
    StringifyDecodes(f.value, g.value, s, t);
  }

  lemma {:induction false} ObjectDecodes(fs: seq<Field>, gs: seq<Field>, s: string, t: string)
    requires AllFieldsWellFormed(fs) && AllFieldsWellFormed(gs)
    requires Stringify(Object(fs)) + s == Stringify(Object(gs)) + t
    ensures fs == gs && s == t
    decreases fs, 1
  {
    if fs == [] && gs == [] {
      Cancel(Stringify(Object([])), s, t);
    } else if fs == [] {
      EmptyObjectApart(gs, s, t);
    } else if gs == [] {
      EmptyObjectApart(fs, t, s);
    } else {
      ObjectSplits(fs, s);
      ObjectSplits(gs, t);
      Cancel("{", StringifyField(fs[0]) + (MoreFields(fs[1..]) + s), StringifyField(gs[0]) + (MoreFields(gs[1..]) + t));
      FieldsDecode(fs, gs, s, t);
    }
  }

  lemma {:induction false} MoreFieldsDecodes(fs: seq<Field>, gs: seq<Field>, s: string, t: string)
    requires AllFieldsWellFormed(fs) && AllFieldsWellFormed(gs)
    requires MoreFields(fs) + s == MoreFields(gs) + t
    ensures fs == gs && s == t
    decreases fs, 1
  {
    if fs == [] && gs == [] {
      Cancel(MoreFields([]), s, t);
    } else if fs == [] {
      EmptyObjectApart(gs, s, t);
    } else if gs == [] {
      EmptyObjectApart(fs, t, s);
    } else {
      ObjectSplits(fs, s);
      ObjectSplits(gs, t);
      Cancel(",", StringifyField(fs[0]) + (MoreFields(fs[1..]) + s), StringifyField(gs[0]) + (MoreFields(gs[1..]) + t));
      FieldsDecode(fs, gs, s, t);
    }
  }

  /** A field and what follows it. */
  lemma {:induction false} FieldsDecode(fs: seq<Field>, gs: seq<Field>, s: string, t: string)
    requires fs != [] && gs != [] && AllFieldsWellFormed(fs) && AllFieldsWellFormed(gs)
    requires StringifyField(fs[0]) + (MoreFields(fs[1..]) + s) == StringifyField(gs[0]) + (MoreFields(gs[1..]) + t)
    ensures fs == gs && s == t
    decreases fs, 0
  {
    FieldDecodes(fs[0], gs[0], MoreFields(fs[1..]) + s, MoreFields(gs[1..]) + t);
    MoreFieldsDecodes(fs[1..], gs[1..], s, t);
    assert fs == [fs[0]] + fs[1..] && gs == [gs[0]] + gs[1..];
  }

  /** Well-formed values with one text are one value: two texts are equal only for equal values. */
  lemma {:induction false} StringifyIsInjective(a: Json, b: Json)
    requires WellFormed(a) && WellFormed(b)
    ensures Stringify(a) == Stringify(b) <==> a == b
  {
    if Stringify(a) == Stringify(b) {
      assert Stringify(a) + "" == Stringify(b) + "";
      StringifyDecodes(a, b, "", "");
    }
  }

  // ---------------------------------------------------------------- recordedRequestsEqual

  datatype Request = Request(verb: string, url: string, body: Option<Json>)

  /** The object that is turned into text, with its body sorted if it is an object or an array. */
  function Normalized(r: Request, le: KeyOrder): Json {
    var body :=
      if r.body.Some? && (r.body.value.Array? || r.body.value.Object?) then SortValue(r.body.value, le)
      else if r.body.Some? then r.body.value else Null;
    Object([Field("body", body), Field("method", Text(r.verb)), Field("url", Text(r.url))])
  }

  predicate RequestsEqual(a: Request, b: Request, le: KeyOrder) {
    Stringify(Normalized(a, le)) == Stringify(Normalized(b, le))
  }

  function BodyOf(r: Request): Json {
    match r.body case Some(v) => v case None => Null
  }

  lemma {:induction false} NormalizedIsWellFormed(r: Request, le: KeyOrder)
    requires TotalOrder(le) && WellFormed(BodyOf(r))
    ensures WellFormed(Normalized(r, le))
    ensures Normalized(r, le) ==
      Object([Field("body", SortValue(BodyOf(r), le)), Field("method", Text(r.verb)), Field("url", Text(r.url))])
  {
    SortReorders(BodyOf(r), le);
    ThreeFields(SortValue(BodyOf(r), le), r.verb, r.url);
  }

  lemma {:induction false} ThreeFields(body: Json, verb: string, url: string)
    requires WellFormed(body)
    ensures WellFormed(Object([Field("body", body), Field("method", Text(verb)), Field("url", Text(url))]))
  {
    assert "body"[0] != "url"[0] && "body"[0] != "method"[0] && "method"[0] != "url"[0];
  }

  /** Requests are equal exactly when they differ in the order of object keys at most, a missing body being null. */
  lemma {:induction false} RequestsEqualIgnoreKeyOrder(a: Request, b: Request, le: KeyOrder)
    requires TotalOrder(le) && WellFormed(BodyOf(a)) && WellFormed(BodyOf(b))
    ensures RequestsEqual(a, b, le) <==>
      && a.verb == b.verb && a.url == b.url
      && Same(if a.body.Some? then a.body.value else Null, if b.body.Some? then b.body.value else Null)
  {
    SortDecidesSame(BodyOf(a), BodyOf(b), le);
    NormalizedIsWellFormed(a, le);
    NormalizedIsWellFormed(b, le);
    StringifyIsInjective(Normalized(a, le), Normalized(b, le));
    var fs, gs := Normalized(a, le).fields, Normalized(b, le).fields;
    assert fs == gs <==> fs[0] == gs[0] && fs[1] == gs[1] && fs[2] == gs[2];
  }

  /** The comparison is an equivalence on requests. */
  lemma {:induction false} RequestsEqualIsEquivalence(a: Request, b: Request, c: Request, le: KeyOrder)
    ensures RequestsEqual(a, a, le)
    ensures RequestsEqual(a, b, le) ==> RequestsEqual(b, a, le)
    ensures RequestsEqual(a, b, le) && RequestsEqual(b, c, le) ==> RequestsEqual(a, c, le)
  {
  }
}
