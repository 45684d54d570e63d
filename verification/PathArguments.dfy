/** Path arguments and what they cover (`pathArgToRegExp` in scripts/check-vitest-coverage.ts). */
module PathArguments {
  import opened Prelude
  import opened Regex
  import opened GlobCompiler

  // ---------------------------------------------------------------- patterns of plain text

  lemma {:induction false} LiteralPattern(s: string, p: string)
    requires NoGlobCharacters(s)
    ensures PatternMatches(s, p) <==> p == s
    decreases |s|
  {
    if s != "" && p != "" {
      LiteralPattern(s[1..], p[1..]);
      assert s == [s[0]] + s[1..] && p == [p[0]] + p[1..];
    }
  }

  /** The path begins with the text and goes on without a line terminator. */
  predicate GoesOn(s: string, p: string) {
    s <= p && SingleLine(p[|s|..])
  }

  lemma {:induction false} PrefixPattern(s: string, p: string)
    requires NoGlobCharacters(s)
    ensures PatternMatches(s + "**", p) <==> GoesOn(s, p)
    decreases |s|
  {
    if s == "" {
      assert s + "**" == "**" && "**"[2..] == "";
      assert p[|p|..] == "" && p[..|p|] == p == p[0..];
      assert PatternMatches("", p[|p|..]);
    } else {
      assert (s + "**")[1..] == s[1..] + "**";
      if p != "" {
        PrefixPattern(s[1..], p[1..]);
        assert s == [s[0]] + s[1..] && p == [p[0]] + p[1..];
        assert |s| <= |p| ==> p[1..][|s[1..]|..] == p[|s|..];
      }
    }
  }

  // ---------------------------------------------------------------- arguments

  predicate Contains(s: string, part: string) {
    exists i | 0 <= i <= |s| :: part <= s[i..]
  }

  predicate EndsWith(s: string, end: string) {
    |end| <= |s| && s[|s| - |end|..] == end
  }

  /** One trailing slash is dropped, no more. */
  function Clean(arg: string): string {
    if arg != "" && arg[|arg| - 1] == '/' then arg[..|arg| - 1] else arg
  }

  predicate NamesFile(clean: string) {
    Contains(clean, ".test.") || EndsWith(clean, ".e2e.ts")
  }

  /** The glob that a path argument stands for: a file itself, a directory what is beneath it. */
  function GlobOf(arg: string): string {
    if NamesFile(Clean(arg)) then Clean(arg) else Clean(arg) + "/**"
  }

  lemma {:induction false} DirectoryCovers(clean: string, p: string)
    requires NoGlobCharacters(clean)
    ensures Test("^" + Compile(clean + "/**") + "$", p) <==> GoesOn(clean + "/", p)
  {
    CompilerMeansExactly(clean + "/**", p);
    assert clean + "/**" == (clean + "/") + "**";
    assert NoGlobCharacters(clean + "/");
    PrefixPattern(clean + "/", p);
  }

  lemma {:induction false} CleanIsPlain(arg: string)
    requires forall c | c in arg :: c !in "*?"
    ensures NoGlobCharacters(Clean(arg))
  {
    assert forall i | 0 <= i < |arg| :: arg[i] in arg;
  }

  lemma {:induction false} GoesOnWith(s: string, p: string)
    ensures GoesOn(s, p) <==> s <= p && forall c | c in p[|s|..] :: c !in "\n\r\U{2028}\U{2029}"
  {
    if s <= p {
      var rest := p[|s|..];
      assert forall i | 0 <= i < |rest| :: rest[i] in rest;
    }
  }

  /**
   Whatever the path: a plain argument, one trailing slash aside, tests true on itself only if it names
   a test file, and otherwise on the paths under it that go on without a line terminator.
   */
  lemma {:induction false} PathArgCovers(arg: string, p: string)
    requires forall c | c in arg :: c !in "*?"
    ensures var clean := if arg != "" && arg[|arg| - 1] == '/' then arg[..|arg| - 1] else arg;
      var namesFile := (exists i | 0 <= i <= |clean| :: ".test." <= clean[i..])
                       || (|clean| >= 7 && clean[|clean| - 7..] == ".e2e.ts");
      Test("^" + Compile(GlobOf(arg)) + "$", p) <==>
      if namesFile then p == clean
      else clean + "/" <= p && forall c | c in p[|clean| + 1..] :: c !in "\n\r\U{2028}\U{2029}"
  {
    var clean := Clean(arg);
    CleanIsPlain(arg);
    if NamesFile(clean) {
      CompilerMeansExactly(clean, p);
      LiteralPattern(clean, p);
    } else {
      DirectoryCovers(clean, p);
      GoesOnWith(clean + "/", p);
    }
  }

  method PathArgToRegExp(arg: string) returns (pattern: string)
    ensures var clean := if arg != "" && arg[|arg| - 1] == '/' then arg[..|arg| - 1] else arg;
      var namesFile := (exists i | 0 <= i <= |clean| :: ".test." <= clean[i..])
                       || (|clean| >= 7 && clean[|clean| - 7..] == ".e2e.ts");
      && pattern == "^" + Compile(if namesFile then clean else clean + "/**") + "$"
      && forall p | SingleLine(p) :: Test(pattern, p) <==> GlobMatches(if namesFile then clean else clean + "/**", p)
    ensures pattern == "^" + Compile(GlobOf(arg)) + "$"
    ensures forall p :: Test(pattern, p) <==> PatternMatches(GlobOf(arg), p)
  {
    var clean := Clean(arg);
    if NamesFile(clean) {
      pattern := GlobToRegExp(clean);
    } else {
      pattern := GlobToRegExp(clean + "/**");
    }
  }
}
