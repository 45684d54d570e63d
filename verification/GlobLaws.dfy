/**
 What the compiled pattern of a glob accepts, piece by piece of the glob (scripts/check-vitest-coverage.ts):
 laws on the test itself that say for every glob and every path what it answers.
 */
module GlobLaws {
  import opened Regex
  import opened GlobCompiler

  /** The empty glob: the empty path. */
  lemma {:induction false} EmptyAccepts(p: string)
    ensures Test("^" + Compile("") + "$", p) <==> p == ""
  {
    CompilerMeansExactly("", p);
  }

  /** A character that is neither a star nor a question mark: itself, special characters of patterns included. */
  lemma {:induction false} CharacterAccepts(c: char, g: string, p: string)
    requires c !in "*?"
    ensures Test("^" + Compile([c] + g) + "$", p) <==>
      p != "" && p[0] == c && Test("^" + Compile(g) + "$", p[1..])
  {
    assert ([c] + g)[1..] == g;
    CompilerMeansExactly([c] + g, p);
    if p != "" {
      CompilerMeansExactly(g, p[1..]);
    }
  }

  /** A question mark: one character that is not a slash. */
  lemma {:induction false} QuestionMarkAccepts(g: string, p: string)
    ensures Test("^" + Compile("?" + g) + "$", p) <==>
      p != "" && p[0] != '/' && Test("^" + Compile(g) + "$", p[1..])
  {
    assert ("?" + g)[1..] == g;
    CompilerMeansExactly("?" + g, p);
    if p != "" {
      CompilerMeansExactly(g, p[1..]);
    }
  }

  lemma {:induction false} RestAccepts(g: string, p: string)
    ensures forall k | 0 <= k <= |p| :: Test("^" + Compile(g) + "$", p[k..]) <==> PatternMatches(g, p[k..])
  {
    forall k | 0 <= k <= |p|
      ensures Test("^" + Compile(g) + "$", p[k..]) <==> PatternMatches(g, p[k..])
    {
      CompilerMeansExactly(g, p[k..]);
    }
  }

  /** A single star: any characters that are not slashes. */
  lemma {:induction false} StarAccepts(g: string, p: string)
    requires g == "" || g[0] != '*'
    ensures Test("^" + Compile("*" + g) + "$", p) <==>
      exists k | 0 <= k <= |p| :: '/' !in p[..k] && Test("^" + Compile(g) + "$", p[k..])
  {
    assert AfterStar("*" + g) == g;
    CompilerMeansExactly("*" + g, p);
    RestAccepts(g, p);
    assert forall k | 0 <= k <= |p| :: '/' !in p[..k] <==> NoSlash(p[..k]);
  }

  lemma {:induction false} DoubleStarSpans(g: string, p: string)
    requires DoubleStar(g)
    ensures PatternMatches(g, p) <==> exists k | 0 <= k <= |p| ::
      (forall c | c in p[..k] :: c !in "\n\r\U{2028}\U{2029}") && PatternMatches(AfterStar(g), p[k..])
  {
    forall k | 0 <= k <= |p|
      ensures SingleLine(p[..k]) <==> forall c | c in p[..k] :: c !in "\n\r\U{2028}\U{2029}"
    {
      assert forall i | 0 <= i < k :: p[..k][i] in p[..k];
    }
  }

  /** A double star: any characters that are not line terminators. */
  lemma {:induction false} DoubleStarAccepts(g: string, p: string)
    requires g == "" || g[0] != '/'
    ensures Test("^" + Compile("**" + g) + "$", p) <==> exists k | 0 <= k <= |p| ::
      (forall c | c in p[..k] :: c !in "\n\r\U{2028}\U{2029}") && Test("^" + Compile(g) + "$", p[k..])
  {
    assert AfterStar("**" + g) == g;
    CompilerMeansExactly("**" + g, p);
    DoubleStarSpans("**" + g, p);
    RestAccepts(g, p);
  }

  /** A double star and a slash: the same, the slash goes with the stars. */
  lemma {:induction false} DoubleStarSlashAccepts(g: string, p: string)
    ensures Test("^" + Compile("**/" + g) + "$", p) <==> exists k | 0 <= k <= |p| ::
      (forall c | c in p[..k] :: c !in "\n\r\U{2028}\U{2029}") && Test("^" + Compile(g) + "$", p[k..])
  {
    assert AfterStar("**/" + g) == g;
    CompilerMeansExactly("**/" + g, p);
    DoubleStarSpans("**/" + g, p);
    RestAccepts(g, p);
  }
}
