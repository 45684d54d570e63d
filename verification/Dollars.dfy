/** Currency text (`formatDollars` in packages/core/explanation-engine.ts). */
module Dollars {

  predicate IsDigit(c: char) {
    '0' <= c <= '9'
  }

  /** `\w` of section 22.2 of ECMA-262. */
  predicate IsWord(c: char) {
    IsDigit(c) || 'a' <= c <= 'z' || 'A' <= c <= 'Z' || c == '_'
  }

  predicate AllDigits(s: string) {
    forall i | 0 <= i < |s| :: IsDigit(s[i])
  }

  // ---------------------------------------------------------------- numbers as text

  function Digits(n: nat): (s: string)
    ensures s != "" && AllDigits(s)
  {
    var last := ['0' + (n % 10) as char];
    if n < 10 then last else Digits(n / 10) + last
  }

  function Value(s: string): nat
    requires AllDigits(s)
  {
    if s == "" then 0 else 10 * Value(s[..|s| - 1]) + (s[|s| - 1] - '0') as nat
  }

  /** The number of cents nearest to a non-negative amount, the larger one when two are as near. */
  function Cents(amount: real): nat
    requires amount >= 0.0
  {
    (amount * 100.0 + 0.5).Floor
  }

  /** The text of `n` cents: what stands before the point and what stands after it. */
  function Fixed(n: nat): (string, string) {
    var m := Digits(n);
    var padded := if |m| == 1 then "00" + m else if |m| == 2 then "0" + m else m;
    (padded[..|padded| - 2], padded[|padded| - 2..])
  }

  function Size(amount: real): real {
    if amount < 0.0 then -amount else amount
  }

  /** `amount.toFixed(2)` below 10^21, by section 21.1.3.3 of ECMA-262, split at the point. */
  function ToFixed2(amount: real): (string, string) {
    var (whole, fraction) := Fixed(Cents(Size(amount)));
    ((if amount < 0.0 then "-" else "") + whole, fraction)
  }

  // ---------------------------------------------------------------- the regular expression

  /** `\B` at position `p`. */
  predicate NoBoundary(s: string, p: nat)
    requires p <= |s|
  {
    (p > 0 && IsWord(s[p - 1])) == (p < |s| && IsWord(s[p]))
  }

  /** The lookahead at position `p`: some threes of digits, and no digit after them. */
  predicate ThreesAhead(s: string, p: nat)
    requires p <= |s|
  {
    exists k | 1 <= k <= |s| :: ThreesUpTo(s, p, p + 3 * k)
  }

  /** Digits from `p` to `end`, and none at `end`. */
  predicate ThreesUpTo(s: string, p: nat, end: nat) {
    p <= end <= |s| && AllDigits(s[p..end]) && !(end < |s| && IsDigit(s[end]))
  }

  predicate CommaAt(s: string, p: nat)
    requires p <= |s|
  {
    NoBoundary(s, p) && ThreesAhead(s, p)
  }

  /** The rest of the text from `p`, with a comma at every position where the expression matches. */
  function WithCommas(s: string, p: nat): string
    requires p <= |s|
    decreases |s| - p
  {
    (if CommaAt(s, p) then "," else "") + if p == |s| then "" else [s[p]] + WithCommas(s, p + 1)
  }

  function FormatDollars(amount: real): string
    requires -1e21 < amount < 1e21
  {
    var (whole, fraction) := ToFixed2(amount);
    "$" + WithCommas(whole, 0) + "." + fraction
  }

  // ---------------------------------------------------------------- groups from the right

  function Grouped(s: string): string {
    if |s| <= 3 then s else Grouped(s[..|s| - 3]) + LastGroup(s)
  }

  lemma {:induction false} CommaPlaces(s: string, p: nat)
    requires AllDigits(s) && p <= |s|
    ensures CommaAt(s, p) <==> 0 < p < |s| && (|s| - p) % 3 == 0
  {
    if 0 < p < |s| {
      assert NoBoundary(s, p);
      if (|s| - p) % 3 == 0 {
        var k := (|s| - p) / 3;
        assert p + 3 * k == |s| && ThreesUpTo(s, p, p + 3 * k);
      }
    }
  }

  function LastGroup(s: string): string
    requires |s| > 3
  {
    "," + s[|s| - 3..]
  }

  lemma {:induction false} CommasThenTail(s: string, p: nat)
    requires AllDigits(s) && |s| > 3 && p <= |s| - 3
    ensures WithCommas(s, p) == WithCommas(s[..|s| - 3], p) + LastGroup(s)
    decreases |s| - p
  {
    var front := s[..|s| - 3];
    CommaPlaces(s, p);
    CommaPlaces(front, p);
    if p < |front| {
      CommasThenTail(s, p + 1);
      var comma, rest := if CommaAt(s, p) then "," else "", WithCommas(front, p + 1);
      assert WithCommas(s, p) == comma + ([s[p]] + (rest + LastGroup(s)));
      TailOutside(comma, s[p], rest, LastGroup(s));
    } else {
      LastThree(s);
    }
  }

  lemma {:induction false} TailOutside(comma: string, c: char, rest: string, tail: string)
    ensures comma + ([c] + (rest + tail)) == comma + ([c] + rest) + tail
  {
  }

  lemma {:induction false} LastThree(s: string)
    requires AllDigits(s) && |s| > 3
    ensures WithCommas(s, |s| - 3) == LastGroup(s)
  {
    var n := |s| - 3;
    CommaPlaces(s, n);
    PlainTail(s, n + 1);
    assert s[n..] == [s[n]] + s[n + 1..];
  }

  lemma {:induction false} PlainTail(s: string, p: nat)
    requires AllDigits(s) && |s| - 3 < p <= |s|
    ensures WithCommas(s, p) == s[p..]
    decreases |s| - p
  {
    CommaPlaces(s, p);
    if p < |s| {
      PlainTail(s, p + 1);
      assert s[p..] == [s[p]] + s[p + 1..];
    }
  }

  /** On a digit string the expression puts the commas that grouping by threes from the right puts. */
  lemma {:induction false} CommasGroup(s: string)
    requires AllDigits(s)
    ensures WithCommas(s, 0) == Grouped(s)
    decreases |s|
  {
    if |s| > 3 {
      CommasThenTail(s, 0);
      CommasGroup(s[..|s| - 3]);
    } else {
      forall p | 0 <= p <= |s| ensures !CommaAt(s, p) {
        CommaPlaces(s, p);
      }
      NoCommas(s, 0);
    }
  }

  lemma {:induction false} NoCommas(s: string, p: nat)
    requires p <= |s| && forall q | p <= q <= |s| :: !CommaAt(s, q)
    ensures WithCommas(s, p) == s[p..]
    decreases |s| - p
  {
    if p < |s| {
      NoCommas(s, p + 1);
      assert s[p..] == [s[p]] + s[p + 1..];
    }
  }

  /** A minus sign in front changes no comma. */
  lemma {:induction false} SignKeepsCommas(s: string)
    requires AllDigits(s) && s != ""
    ensures WithCommas("-" + s, 0) == "-" + WithCommas(s, 0)
  {
    var t := "-" + s;
    assert !ThreesAhead(t, 0) by {
      forall k | 1 <= k <= |t|
        ensures !ThreesUpTo(t, 0, 0 + 3 * k)
      {
        assert 3 * k <= |t| ==> t[0..0 + 3 * k][0] == '-';
      }
    }
    ShiftedCommas(s, 0);
  }

  lemma {:induction false} ShiftedSlice(s: string, i: nat, j: nat)
    requires i <= j <= |s|
    ensures ("-" + s)[i + 1..j + 1] == s[i..j]
  {
    var a, b := ("-" + s)[i + 1..j + 1], s[i..j];
    assert |a| == |b|;
    forall k | 0 <= k < |b|
      ensures a[k] == b[k]
    {
      assert a[k] == ("-" + s)[i + 1 + k] == s[i + k];
    }
  }

  lemma {:induction false} ThreesShift(s: string, p: nat)
    requires p <= |s|
    ensures ThreesAhead("-" + s, p + 1) == ThreesAhead(s, p)
  {
    forall k: nat
      ensures ThreesUpTo("-" + s, p + 1, p + 1 + 3 * k) == ThreesUpTo(s, p, p + 3 * k)
    {
      DigitsShift(s, p, p + 3 * k);
    }
    if ThreesAhead(s, p) {
      var k :| 1 <= k <= |s| && ThreesUpTo(s, p, p + 3 * k);
      assert ThreesUpTo("-" + s, p + 1, p + 1 + 3 * k);
    }
    if ThreesAhead("-" + s, p + 1) {
      var k :| 1 <= k <= |s| + 1 && ThreesUpTo("-" + s, p + 1, p + 1 + 3 * k);
      assert ThreesUpTo(s, p, p + 3 * k);
    }
  }

  lemma {:induction false} DigitsShift(s: string, p: nat, end: nat)
    requires p <= end
    ensures ThreesUpTo("-" + s, p + 1, end + 1) == ThreesUpTo(s, p, end)
  {
    if end <= |s| {
      ShiftedSlice(s, p, end);
      assert end < |s| ==> ("-" + s)[end + 1] == s[end];
    }
  }

  lemma {:induction false} CommaShifts(s: string, p: nat)
    requires AllDigits(s) && s != "" && p <= |s|
    ensures CommaAt("-" + s, p + 1) == CommaAt(s, p)
  {
    CommaPlaces(s, p);
    if p == 0 {
      assert !NoBoundary("-" + s, 1);
    } else {
      assert NoBoundary("-" + s, p + 1) == NoBoundary(s, p);
      ThreesShift(s, p);
    }
  }

  lemma {:induction false} ShiftedCommas(s: string, p: nat)
    requires AllDigits(s) && s != "" && p <= |s|
    ensures WithCommas("-" + s, p + 1) == WithCommas(s, p)
    decreases |s| - p
  {
    CommaShifts(s, p);
    if p < |s| {
      ShiftedCommas(s, p + 1);
    }
  }

  // ---------------------------------------------------------------- reading the text back

  function DigitsOf(s: string): (d: string)
    ensures AllDigits(d)
  {
    if s == "" then "" else (if IsDigit(s[0]) then [s[0]] else "") + DigitsOf(s[1..])
  }

  /** The cents that a formatted text stands for. */
  function ReadCents(text: string): int {
    if |text| > 1 && text[1] == '-' then -(Value(DigitsOf(text)) as int) else Value(DigitsOf(text))
  }

  lemma {:induction false} DigitsOfAppend(a: string, b: string)
    ensures DigitsOf(a + b) == DigitsOf(a) + DigitsOf(b)
  {
    if a == "" {
      assert a + b == b;
    } else {
      var head := if IsDigit(a[0]) then [a[0]] else "";
      assert (a + b)[1..] == a[1..] + b;
      DigitsOfAppend(a[1..], b);
      Associates(head, DigitsOf(a[1..]), DigitsOf(b));
    }
  }

  lemma {:induction false} Associates(a: string, b: string, c: string)
    ensures a + (b + c) == a + b + c
  {
  }

  lemma {:induction false} DigitsOfDigits(s: string)
    requires AllDigits(s)
    ensures DigitsOf(s) == s
  {
    if s != "" {
      DigitsOfDigits(s[1..]);
    }
  }

  lemma {:induction false} DigitsOfLastGroup(s: string)
    requires AllDigits(s) && |s| > 3
    ensures DigitsOf(LastGroup(s)) == s[|s| - 3..]
  {
    assert LastGroup(s)[0] == ',' && LastGroup(s)[1..] == s[|s| - 3..];
    DigitsOfDigits(s[|s| - 3..]);
  }

  lemma {:induction false} DigitsOfGrouped(s: string)
    requires AllDigits(s)
    ensures DigitsOf(Grouped(s)) == s
    decreases |s|
  {
    if |s| <= 3 {
      DigitsOfDigits(s);
    } else {
      var front, tail := s[..|s| - 3], s[|s| - 3..];
      DigitsOfGrouped(front);
      DigitsOfLastGroup(s);
      DigitsOfAppend(Grouped(front), LastGroup(s));
      assert s == front + tail;
    }
  }

  lemma {:induction false} DigitsValue(n: nat)
    ensures Value(Digits(n)) == n
  {
    if n >= 10 {
      DigitsValue(n / 10);
      var s := Digits(n);
      assert s[..|s| - 1] == Digits(n / 10);
    }
  }

  lemma {:induction false} LeadingZero(s: string)
    requires AllDigits(s)
    ensures AllDigits("0" + s) && Value("0" + s) == Value(s)
  {
    var t := "0" + s;
    if s == "" {
      assert t[..|t| - 1] == "";
    } else {
      LeadingZero(s[..|s| - 1]);
      assert t[..|t| - 1] == "0" + s[..|s| - 1];
    }
  }

  lemma {:induction false} FixedValue(n: nat)
    ensures var (whole, fraction) := Fixed(n);
      && AllDigits(whole) && whole != "" && AllDigits(fraction) && |fraction| == 2
      && Value(whole + fraction) == n
  {
    var m := Digits(n);
    DigitsValue(n);
    LeadingZero(m);
    LeadingZero("0" + m);
    assert "0" + ("0" + m) == "00" + m;
    var (whole, fraction) := Fixed(n);
    assert whole + fraction == if |m| == 1 then "00" + m else if |m| == 2 then "0" + m else m;
  }

  /**
   What the text of an amount says: a sign exactly for negative amounts, groups of three digits
   after a first group of one to three, two digits after the point, and in all the nearest cents.
   */
  lemma {:induction false} FormatReadsBack(amount: real)
    requires -1e21 < amount < 1e21
    ensures var (whole, fraction) := Fixed(Cents(Size(amount)));
      && AllDigits(whole) && whole != "" && AllDigits(fraction) && |fraction| == 2
      && FormatDollars(amount) == "$" + (if amount < 0.0 then "-" else "") + Grouped(whole) + "." + fraction
      && Value(whole + fraction) == Cents(Size(amount))
  {
    FixedValue(Cents(Size(amount)));
    var (whole, fraction) := Fixed(Cents(Size(amount)));
    CommasGroup(whole);
    SignKeepsCommas(whole);
    assert "$" + ("-" + WithCommas(whole, 0)) + "." + fraction == "$" + "-" + Grouped(whole) + "." + fraction;
    assert "" + whole == whole && "$" + "" == "$";
  }

  lemma {:induction false} DigitsOfPointed(integral: string, whole: string, fraction: string)
    requires DigitsOf(integral) == whole && AllDigits(fraction)
    ensures DigitsOf(integral + "." + fraction) == whole + fraction
  {
    DigitsOfAppend(integral, ".");
    assert "."[1..] == "" && DigitsOf(".") == "" && whole + "" == whole;
    DigitsOfAppend(integral + ".", fraction);
    DigitsOfDigits(fraction);
  }

  lemma {:induction false} DigitsOfFormatted(head: string, whole: string, fraction: string)
    requires DigitsOf(head) == "" && AllDigits(whole) && AllDigits(fraction)
    ensures DigitsOf(head + Grouped(whole) + "." + fraction) == whole + fraction
  {
    DigitsOfAppend(head, Grouped(whole));
    DigitsOfGrouped(whole);
    assert "" + whole == whole;
    var integral := head + Grouped(whole);
    assert DigitsOf(integral) == whole;
    DigitsOfPointed(integral, whole, fraction);
  }

  /**
   Reading the text back gives the whole number of cents nearest to the amount, and of two that are as
   near the one further from zero.
   */
  lemma {:induction false} FormatRoundTrip(amount: real)
    requires -1e21 < amount < 1e21
    ensures ReadCents(FormatDollars(amount)) == (if amount < 0.0 then -1 else 1) * Cents(Size(amount))
    ensures var cents := ReadCents(FormatDollars(amount)) as real;
      if amount >= 0.0 then cents - 0.5 <= 100.0 * amount < cents + 0.5
      else cents - 0.5 < 100.0 * amount <= cents + 0.5
  {
    FormatReadsBack(amount);
    var (whole, fraction) := Fixed(Cents(Size(amount)));
    var head := "$" + if amount < 0.0 then "-" else "";
    assert head[1..] == (if amount < 0.0 then "-" else "") && "-"[1..] == "";
    assert DigitsOf(head) == "";
    DigitsOfFormatted(head, whole, fraction);
    assert DigitsOf(FormatDollars(amount)) == whole + fraction;
    if amount >= 0.0 {
      GroupedHead(whole);
    }
  }

  lemma {:induction false} FourOn(n: nat)
    ensures (n + 4) % 4 == n % 4
  {
  }

  /** The character of grouped digits at `k`: every fourth from the end is a comma, and none is the first. */
  lemma {:induction false} GroupedAt(s: string, k: nat)
    requires AllDigits(s) && k < |Grouped(s)|
    ensures if (|Grouped(s)| - k) % 4 == 0 then Grouped(s)[k] == ',' && k > 0 else IsDigit(Grouped(s)[k])
    decreases |s|
  {
    if |s| > 3 {
      var front := Grouped(s[..|s| - 3]);
      GroupedHead(s[..|s| - 3]);
      if k < |front| {
        FourOn(|front| - k);
        GroupedAt(s[..|s| - 3], k);
        assert Grouped(s)[k] == front[k];
      } else {
        assert Grouped(s)[k] == LastGroup(s)[k - |front|];
      }
    }
  }

  lemma {:induction false} NoLeadingZero(n: nat)
    ensures n > 0 ==> Digits(n)[0] != '0'
  {
    if n >= 10 {
      NoLeadingZero(n / 10);
    }
  }

  /**
   The characters of the text, `k` any place in it: a dollar sign, a minus sign exactly for negative
   amounts, digits with a comma at every fourth place in front of the point and no zero to begin with
   unless it is the only digit, a point and two digits.
   */
  lemma {:induction false} FormatShape(amount: real, k: nat)
    requires -1e21 < amount < 1e21
    ensures var text := FormatDollars(amount);
      var head, point := if amount < 0.0 then 2 else 1, |text| - 3;
      && head < point && text[0] == '$' && (amount < 0.0 ==> text[1] == '-')
      && (head <= k < point ==>
            if (point - k) % 4 == 0 then text[k] == ',' && k > head else '0' <= text[k] <= '9')
      && (text[head] == '0' ==> point == head + 1)
      && text[point] == '.' && '0' <= text[point + 1] <= '9' && '0' <= text[point + 2] <= '9'
  {
    FormatReadsBack(amount);
    var (whole, fraction) := Fixed(Cents(Size(amount)));
    GroupedHead(whole);
    WholeLead(Cents(Size(amount)));
    var sign := "$" + if amount < 0.0 then "-" else "";
    TextParts(sign, Grouped(whole), fraction);
    if |sign| <= k < |FormatDollars(amount)| - 3 {
      TextAt(sign, whole, fraction, k);
    }
  }

  lemma {:induction false} WholeLead(n: nat)
    ensures var (whole, _) := Fixed(n); whole != "" && (whole[0] == '0' ==> |whole| == 1)
  {
    NoLeadingZero(n);
  }

  lemma {:induction false} TextAt(head: string, whole: string, fraction: string, k: nat)
    requires AllDigits(whole) && |fraction| == 2 && |head| <= k < |head| + |Grouped(whole)|
    ensures var text := head + Grouped(whole) + "." + fraction;
      if (|text| - 3 - k) % 4 == 0 then text[k] == ',' && k > |head| else IsDigit(text[k])
  {
    TextParts(head, Grouped(whole), fraction);
    GroupedAt(whole, k - |head|);
    assert |head| + |Grouped(whole)| - k == |Grouped(whole)| - (k - |head|);
  }

  lemma {:induction false} TextParts(head: string, groups: string, fraction: string)
    requires |fraction| == 2
    ensures var text := head + groups + "." + fraction;
      && |text| == |head| + |groups| + 3
      && (forall k | 0 <= k < |head| :: text[k] == head[k])
      && (forall k | |head| <= k < |head| + |groups| :: text[k] == groups[k - |head|])
      && text[|text| - 3] == '.' && text[|text| - 2] == fraction[0] && text[|text| - 1] == fraction[1]
  {
  }

  lemma {:induction false} GroupedHead(s: string)
    requires s != ""
    ensures Grouped(s) != "" && Grouped(s)[0] == s[0]
    decreases |s|
  {
    if |s| > 3 {
      GroupedHead(s[..|s| - 3]);
    }
  }
}
