/**
 How a regular expression is read and matched: the part of section 22.2 of ECMA-262 that the glob
 compiler writes in (no flags).  A pattern outside that part reads as `None`.
 */
module Regex {
  import opened Prelude

  datatype Atom = AnyChar | NoneOf(chars: string) | Exactly(c: char)

  datatype Term = Begin | End | One(atom: Atom) | Star(atom: Atom)

  const SYNTAX_CHARACTERS := "^$\\.*+?()[]{}|"

  predicate LineTerminator(c: char) {
    c == '\n' || c == '\r' || c == '\U{2028}' || c == '\U{2029}'
  }

  /** The characters of a class up to its `]`; escapes and ranges are outside the part modelled. */
  function ReadClass(p: string): Option<string> {
    if p == "" || p[0] in "\\-" then None
    else if p[0] == ']' then Some("")
    else match ReadClass(p[1..]) case Some(rest) => Some([p[0]] + rest) case None => None
  }

  /** The atom at the head of `p`, and how many characters it takes. */
  function ReadAtom(p: string): (r: Option<(Atom, nat)>)
    requires p != ""
    ensures r.Some? ==> 1 <= r.value.1
  {
    if p[0] == '.' then Some((AnyChar, 1))
    else if p[0] == '\\' then
      if |p| >= 2 && p[1] in SYNTAX_CHARACTERS then Some((Exactly(p[1]), 2)) else None
    else if p[0] == '[' then
      if |p| >= 2 && p[1] == '^' then
        match ReadClass(p[2..]) case Some(chars) => Some((NoneOf(chars), |chars| + 3)) case None => None
      else None
    else if p[0] in SYNTAX_CHARACTERS then None
    else Some((Exactly(p[0]), 1))
  }

  function Prepend(t: Term, ts: Option<seq<Term>>): Option<seq<Term>> {
    match ts case Some(rest) => Some([t] + rest) case None => None
  }

  function ReadPattern(p: string): Option<seq<Term>>
    decreases |p|
  {
    if p == "" then Some([])
    else if p[0] == '^' then Prepend(Begin, ReadPattern(p[1..]))
    else if p[0] == '$' then Prepend(End, ReadPattern(p[1..]))
    else match ReadAtom(p)
      case None => None
      case Some((atom, n)) =>
        if n > |p| then None
        else if n < |p| && p[n] == '*' then Prepend(Star(atom), ReadPattern(p[n + 1..]))
        else Prepend(One(atom), ReadPattern(p[n..]))
  }

  predicate Sat(a: Atom, c: char) {
    match a
    case AnyChar => !LineTerminator(c)
    case NoneOf(chars) => c !in chars
    case Exactly(d) => c == d
  }

  predicate AllSat(a: Atom, s: string) {
    forall i | 0 <= i < |s| :: Sat(a, s[i])
  }

  /** `ts` match at the head of `s`, which is the whole input exactly when `atStart`. */
  predicate MatchesHere(ts: seq<Term>, s: string, atStart: bool)
    decreases |ts|
  {
    if ts == [] then true else
      match ts[0]
      case Begin => atStart && MatchesHere(ts[1..], s, atStart)
      case End => s == "" && MatchesHere(ts[1..], s, atStart)
      case One(a) => s != "" && Sat(a, s[0]) && MatchesHere(ts[1..], s[1..], false)
      case Star(a) => exists k | 0 <= k <= |s| ::
        AllSat(a, s[..k]) && MatchesHere(ts[1..], s[k..], atStart && k == 0)
  }

  /** `new RegExp(pattern).test(s)`: a match may start anywhere. */
  predicate Test(pattern: string, s: string) {
    var ts := ReadPattern(pattern);
    ts.Some? && exists i | 0 <= i <= |s| :: MatchesHere(ts.value, s[i..], i == 0)
  }
}

/** The glob compiler of scripts/check-vitest-coverage.ts. */
module GlobCompiler {
  import opened Prelude
  import opened Regex

  const SPECIAL := ".+^${}()|[]\\"

  // ---------------------------------------------------------------- what a glob means

  predicate NoSlash(s: string) {
    forall i | 0 <= i < |s| :: s[i] != '/'
  }

  predicate DoubleStar(g: string) {
    |g| > 1 && g[0] == '*' == g[1]
  }

  /** What follows a leading star, or a leading double star with the slash it takes along. */
  function AfterStar(g: string): (rest: string)
    requires g != "" && g[0] == '*'
    ensures |rest| < |g| && rest == g[|g| - |rest|..]
  {
    if !DoubleStar(g) then g[1..] else if |g| > 2 && g[2] == '/' then g[3..] else g[2..]
  }

  /** `**` stands for any characters and takes a following slash with it, `*` and `?` for non-slashes. */
  predicate GlobMatches(g: string, p: string)
    decreases |g|
  {
    if g == "" then p == ""
    else if g[0] == '*' then
      exists k | 0 <= k <= |p| :: (DoubleStar(g) || NoSlash(p[..k])) && GlobMatches(AfterStar(g), p[k..])
    else if g[0] == '?' then p != "" && p[0] != '/' && GlobMatches(g[1..], p[1..])
    else p != "" && p[0] == g[0] && GlobMatches(g[1..], p[1..])
  }

  predicate SingleLine(p: string) {
    forall i | 0 <= i < |p| :: !LineTerminator(p[i])
  }

  /** The same with a `**` that stops at line terminators, as `.` does in a pattern. */
  predicate PatternMatches(g: string, p: string)
    decreases |g|
  {
    if g == "" then p == ""
    else if g[0] == '*' then
      exists k | 0 <= k <= |p| ::
        (if DoubleStar(g) then SingleLine(p[..k]) else NoSlash(p[..k])) && PatternMatches(AfterStar(g), p[k..])
    else if g[0] == '?' then p != "" && p[0] != '/' && PatternMatches(g[1..], p[1..])
    else p != "" && p[0] == g[0] && PatternMatches(g[1..], p[1..])
  }

  predicate HasDoubleStar(g: string) {
    exists i | 0 <= i < |g| - 1 :: g[i] == '*' == g[i + 1]
  }

  // ---------------------------------------------------------------- the compiler

  /** What the head of the glob is compiled to. */
  function Emitted(g: string): (text: string)
    requires g != ""
  {
    if g[0] == '*' then if DoubleStar(g) then ".*" else "[^/]*"
    else if g[0] == '?' then "[^/]"
    else if g[0] in SPECIAL then ['\\', g[0]]
    else [g[0]]
  }

  function Rest(g: string): (rest: string)
    requires g != ""
    ensures |rest| < |g| && rest == g[|g| - |rest|..]
  {
    if g[0] == '*' then AfterStar(g) else g[1..]
  }

  function Compile(g: string): string
    decreases |g|
  {
    if g == "" then "" else Emitted(g) + Compile(Rest(g))
  }

  /** The terms that the compiled glob is meant to be read as. */
  function Meant(g: string): seq<Term>
    decreases |g|
  {
    if g == "" then [End]
    else if g[0] == '*' then
      [Star(if DoubleStar(g) then AnyChar else NoneOf("/"))] + Meant(AfterStar(g))
    else if g[0] == '?' then [One(NoneOf("/"))] + Meant(g[1..])
    else [One(Exactly(g[0]))] + Meant(g[1..])
  }

  // ---------------------------------------------------------------- the pattern reads as meant

  lemma {:induction false} ReadsClass(rest: string)
    ensures ReadClass("/]" + rest) == Some("/")
  {
    var p := "/]" + rest;
    assert p[0] == '/' && p[1..][0] == ']';
    assert ReadClass(p[1..]) == Some("");
    assert ['/'] + "" == "/";
  }

  lemma {:induction false} ReadsOne(p: string, a: Atom, n: nat)
    requires p != "" && p[0] !in "^$" && ReadAtom(p) == Some((a, n)) && n < |p| && p[n] != '*'
    ensures ReadPattern(p) == Prepend(One(a), ReadPattern(p[n..]))
  {
  }

  lemma {:induction false} ReadsStar(p: string, a: Atom, n: nat)
    requires p != "" && p[0] !in "^$" && ReadAtom(p) == Some((a, n)) && n < |p| && p[n] == '*'
    ensures ReadPattern(p) == Prepend(Star(a), ReadPattern(p[n + 1..]))
  {
  }

  lemma {:induction false} ReadsNonSlash(rest: string)
    ensures ReadAtom("[^/]" + rest) == Some((NoneOf("/"), 4))
  {
    assert ("[^/]" + rest)[2..] == "/]" + rest;
    ReadsClass(rest);
  }

  /** One piece of the compiled glob in front of `rest`, which never begins with a star. */
  lemma {:induction false} ReadsPiece(g: string, rest: string)
    requires g != "" && g[0] != '*' && rest != "" && rest[0] != '*'
    ensures var text := Emitted(g);
      var atom := if g[0] == '?' then NoneOf("/") else Exactly(g[0]);
      && ReadPattern(text + rest) == Prepend(One(atom), ReadPattern(rest))
      && (text + rest)[0] != '*'
  {
    if g[0] == '?' {
      ReadsNonSlash(rest);
      ReadsOne("[^/]" + rest, NoneOf("/"), 4);
      assert ("[^/]" + rest)[4..] == rest;
    } else if g[0] in SPECIAL {
      var text := ['\\', g[0]];
      assert g[0] in SYNTAX_CHARACTERS;
      assert ReadAtom(text + rest) == Some((Exactly(g[0]), 2));
      ReadsOne(text + rest, Exactly(g[0]), 2);
      assert (text + rest)[2..] == rest;
    } else {
      assert g[0] !in SYNTAX_CHARACTERS;
      ReadsOne([g[0]] + rest, Exactly(g[0]), 1);
      assert ([g[0]] + rest)[1..] == rest;
    }
  }

  lemma {:induction false} ReadsDoubleStar(rest: string)
    ensures ReadPattern(".*" + rest) == Prepend(Star(AnyChar), ReadPattern(rest))
  {
    ReadsStar(".*" + rest, AnyChar, 1);
    assert (".*" + rest)[2..] == rest;
  }

  lemma {:induction false} ReadsSingleStar(rest: string)
    ensures ReadPattern("[^/]*" + rest) == Prepend(Star(NoneOf("/")), ReadPattern(rest))
  {
    var p := "[^/]*" + rest;
    assert p == "[^/]" + ("*" + rest);
    ReadsNonSlash("*" + rest);
    ReadsStar(p, NoneOf("/"), 4);
    assert p[5..] == rest;
  }

  lemma {:induction false} ReadsAsMeant(g: string)
    ensures ReadPattern(Compile(g) + "$") == Some(Meant(g))
    ensures (Compile(g) + "$")[0] != '*'
    decreases |g|
  {
    if g == "" {
      var p := Compile(g) + "$";
      assert p[0] == '$' && p[1..] == "";
      assert [End] + [] == Meant(g);
    } else {
      ReadsAsMeant(Rest(g));
      var rest := Compile(Rest(g)) + "$";
      assert Compile(g) + "$" == Emitted(g) + rest;
      if g[0] != '*' {
        ReadsPiece(g, rest);
      } else if DoubleStar(g) {
        ReadsDoubleStar(rest);
      } else {
        ReadsSingleStar(rest);
      }
    }
  }

  // ---------------------------------------------------------------- what is meant is what the glob means

  lemma {:induction false} StarSpans(g: string, rest: string, a: Atom, p: string, atStart: bool)
    requires Meant(g) == [Star(a)] + Meant(rest)
    requires forall k | 0 <= k <= |p| ::
      MatchesHere(Meant(rest), p[k..], atStart && k == 0) <==> PatternMatches(rest, p[k..])
    ensures MatchesHere(Meant(g), p, atStart) <==>
      exists k | 0 <= k <= |p| :: AllSat(a, p[..k]) && PatternMatches(rest, p[k..])
  {
    assert Meant(g)[1..] == Meant(rest);
  }

  lemma {:induction false} MeantIsMeaning(g: string, p: string, atStart: bool)
    ensures MatchesHere(Meant(g), p, atStart) <==> PatternMatches(g, p)
    decreases |g|
  {
    if g == "" {
      assert Meant(g)[1..] == [];
    } else if g[0] == '*' {
      var rest := AfterStar(g);
      var a := if DoubleStar(g) then AnyChar else NoneOf("/");
      forall k | 0 <= k <= |p|
        ensures MatchesHere(Meant(rest), p[k..], atStart && k == 0) <==> PatternMatches(rest, p[k..])
      {
        MeantIsMeaning(rest, p[k..], atStart && k == 0);
      }
      StarSpans(g, rest, a, p, atStart);
      if DoubleStar(g) {
        assert forall k | 0 <= k <= |p| :: AllSat(a, p[..k]) <==> SingleLine(p[..k]);
      } else {
        assert forall k | 0 <= k <= |p| :: AllSat(a, p[..k]) <==> NoSlash(p[..k]);
      }
    } else {
      assert Meant(g)[1..] == Meant(g[1..]);
      if p != "" {
        MeantIsMeaning(g[1..], p[1..], false);
      }
    }
  }

  lemma {:induction false} SuffixDoubleStar(g: string, rest: string)
    requires |rest| <= |g| && rest == g[|g| - |rest|..]
    ensures HasDoubleStar(rest) ==> HasDoubleStar(g)
  {
    if HasDoubleStar(rest) {
      var i :| 0 <= i < |rest| - 1 && rest[i] == '*' == rest[i + 1];
      assert g[|g| - |rest| + i] == '*' == g[|g| - |rest| + i + 1];
    }
  }

  /** Whatever the glob and the path: the pattern matches as the glob does, but for `**` at line terminators. */
  lemma {:induction false} CompilerMeansExactly(g: string, p: string)
    ensures Test("^" + Compile(g) + "$", p) <==> PatternMatches(g, p)
  {
    var pattern := "^" + Compile(g) + "$";
    ReadsAsMeant(g);
    assert pattern[1..] == Compile(g) + "$";
    var ts := [Begin] + Meant(g);
    assert ReadPattern(pattern) == Some(ts);
    assert ts[1..] == Meant(g);
    MeantIsMeaning(g, p, true);
    assert p[0..] == p;
    if PatternMatches(g, p) {
      assert MatchesHere(ts, p[0..], true);
    }
  }

  lemma {:induction false} PatternIsGlob(g: string, p: string)
    requires SingleLine(p) || !HasDoubleStar(g)
    ensures PatternMatches(g, p) <==> GlobMatches(g, p)
    decreases |g|
  {
    if g != "" && g[0] == '*' {
      SuffixDoubleStar(g, AfterStar(g));
      assert DoubleStar(g) ==> HasDoubleStar(g);
      forall k | 0 <= k <= |p|
        ensures PatternMatches(AfterStar(g), p[k..]) <==> GlobMatches(AfterStar(g), p[k..])
        ensures DoubleStar(g) ==> SingleLine(p[..k])
      {
        PatternIsGlob(AfterStar(g), p[k..]);
      }
    } else if g != "" && p != "" {
      SuffixDoubleStar(g, g[1..]);
      PatternIsGlob(g[1..], p[1..]);
    }
  }

  /**
   The compiled glob tests true on exactly the paths that the glob matches: on every path without
   a line terminator, and on every path whatever if the glob has no `**`.
   */
  lemma {:induction false} CompilerPreservesMeaning(g: string, p: string)
    requires SingleLine(p) || !HasDoubleStar(g)
    ensures Test("^" + Compile(g) + "$", p) <==> GlobMatches(g, p)
  {
    CompilerMeansExactly(g, p);
    PatternIsGlob(g, p);
  }

  // ---------------------------------------------------------------- globs without stars and question marks

  predicate NoGlobCharacters(s: string) {
    forall i | 0 <= i < |s| :: s[i] != '*' && s[i] != '?'
  }

  /** A text without glob characters matches itself only; followed by `**` it matches what it begins. */
  lemma {:induction false} LiteralGlob(s: string, p: string)
    requires NoGlobCharacters(s)
    ensures GlobMatches(s, p) <==> p == s
    ensures GlobMatches(s + "**", p) <==> s <= p
    decreases |s|
  {
    if s == "" {
      assert s + "**" == "**" && "**"[2..] == "";
      assert p[|p|..] == "";
      assert GlobMatches("", p[|p|..]);
    } else {
      assert (s + "**")[1..] == s[1..] + "**";
      if p != "" {
        LiteralGlob(s[1..], p[1..]);
        assert s == [s[0]] + s[1..] && p == [p[0]] + p[1..];
      }
    }
  }

  // ---------------------------------------------------------------- the loop

  lemma {:induction false} Extends(re: string, g: string)
    requires g != ""
    ensures (re + Emitted(g)) + Compile(Rest(g)) == re + Compile(g)
  {
  }

  /** The pattern the loop builds is anchored, and tests true on exactly what the glob matches. */
  method GlobToRegExp(glob: string) returns (pattern: string)
    ensures pattern == "^" + Compile(glob) + "$"
    ensures forall p :: Test(pattern, p) <==> PatternMatches(glob, p)
    ensures forall p | SingleLine(p) || !HasDoubleStar(glob) :: Test(pattern, p) <==> GlobMatches(glob, p)
  {
    var re := "";
    var i := 0;
    while i < |glob|
      invariant 0 <= i <= |glob|
      invariant re + Compile(glob[i..]) == Compile(glob)
    {
      ghost var g := glob[i..];
      ghost var before := re;
      var c := glob[i];
      if c == '*' {
        if i + 1 < |glob| && glob[i + 1] == '*' {
          re := re + ".*";
          i := i + 1;
          if i + 1 < |glob| && glob[i + 1] == '/' {
            i := i + 1;
          }
        } else {
          re := re + "[^/]*";
        }
      } else if c == '?' {
        re := re + "[^/]";
      } else if c in SPECIAL {
        re := re + ['\\', c];
      } else {
        re := re + [c];
      }
      i := i + 1;
      assert glob[i..] == Rest(g);
      assert re == before + Emitted(g);
      Extends(before, g);
    }
    pattern := "^" + re + "$";
    assert glob[i..] == "";
    assert re + "" == re;
    forall p
      ensures Test(pattern, p) <==> PatternMatches(glob, p)
    {
      CompilerMeansExactly(glob, p);
    }
    forall p | SingleLine(p) || !HasDoubleStar(glob)
      ensures Test(pattern, p) <==> GlobMatches(glob, p)
    {
      CompilerPreservesMeaning(glob, p);
    }
  }
}
