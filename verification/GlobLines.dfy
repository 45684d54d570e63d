/**
 Globs and line terminators (scripts/check-vitest-coverage.ts): for which globs the compiled pattern
 matches the same paths as the glob, among all paths there are.
 */
module GlobLines {
  import opened Prelude
  import opened Regex
  import opened GlobCompiler

  /** How many line feeds of `s` stand at its beginning or behind a slash. */
  function Marks(s: string, begins: bool): nat {
    if s == "" then 0
    else (if begins && s[0] == '\n' then 1 else 0) + Marks(s[1..], s[0] == '/')
  }

  lemma {:induction false} MarksSplit(s: string, k: nat, begins: bool)
    requires k <= |s|
    ensures Marks(s[..k], begins) <= Marks(s, begins) <= Marks(s[..k], begins) + Marks(s[k..], true)
    decreases k
  {
    if k == 0 {
      assert s[..0] == "" && s[0..] == s;
    } else {
      assert s[..k][1..] == s[1..][..k - 1] && s[1..][k - 1..] == s[k..];
      MarksSplit(s[1..], k - 1, s[0] == '/');
    }
  }

  lemma {:induction false} NoMarks(s: string, begins: bool)
    requires SingleLine(s) || (NoSlash(s) && !begins)
    ensures Marks(s, begins) == 0
  {
    if s != "" {
      NoMarks(s[1..], s[0] == '/');
    }
  }

  lemma {:induction false} FewMarks(s: string)
    requires NoSlash(s)
    ensures Marks(s, true) <= 1
  {
    if s != "" {
      NoMarks(s[1..], false);
    }
  }

  /** A pattern takes at most one mark with each of its characters: `**` takes none. */
  lemma {:induction false} PatternTakesFewMarks(g: string, p: string)
    requires PatternMatches(g, p)
    ensures Marks(p, true) <= |g|
    decreases |g|
  {
    if g != "" && g[0] == '*' {
      var k :| 0 <= k <= |p| && (if DoubleStar(g) then SingleLine(p[..k]) else NoSlash(p[..k]))
        && PatternMatches(AfterStar(g), p[k..]);
      PatternTakesFewMarks(AfterStar(g), p[k..]);
      MarksSplit(p, k, true);
      if DoubleStar(g) {
        NoMarks(p[..k], true);
      } else {
        FewMarks(p[..k]);
      }
    } else if g != "" {
      PatternTakesFewMarks(g[1..], p[1..]);
      MarksSplit(p, 1, true);
      assert p[..1][1..] == "";
    }
  }

  function Lines(n: nat): string {
    if n == 0 then "" else "\n/" + Lines(n - 1)
  }

  lemma {:induction false} LinesAreMarked(n: nat, begins: bool)
    ensures Marks(Lines(n), begins) + 1 >= n && Marks(Lines(n), true) == n
  {
    if n > 0 {
      LinesAreMarked(n - 1, true);
      var s := Lines(n);
      assert s[1..] == "/" + Lines(n - 1) && s[1..][1..] == Lines(n - 1);
    }
  }

  /** A path that the glob matches, with `lines` in the place of each `**` and `letter` of each `?`. */
  function Filled(g: string, lines: string, letter: char): string
    decreases |g|
  {
    if g == "" then ""
    else if g[0] == '*' then (if DoubleStar(g) then lines else "") + Filled(AfterStar(g), lines, letter)
    else [if g[0] == '?' then letter else g[0]] + Filled(g[1..], lines, letter)
  }

  lemma {:induction false} FilledMatches(g: string, lines: string, letter: char)
    requires letter != '/'
    ensures GlobMatches(g, Filled(g, lines, letter))
    decreases |g|
  {
    if g != "" && g[0] == '*' {
      var p, k := Filled(g, lines, letter), if DoubleStar(g) then |lines| else 0;
      FilledMatches(AfterStar(g), lines, letter);
      assert p[k..] == Filled(AfterStar(g), lines, letter);
      assert NoSlash(p[..0]);
    } else if g != "" {
      FilledMatches(g[1..], lines, letter);
      assert Filled(g, lines, letter)[1..] == Filled(g[1..], lines, letter);
    }
  }

  lemma {:induction false} FilledIsMarked(g: string, n: nat, begins: bool)
    requires HasDoubleStar(g)
    ensures Marks(Filled(g, Lines(n), 'a'), begins) + 1 >= n
    decreases |g|
  {
    var p := Filled(g, Lines(n), 'a');
    if DoubleStar(g) {
      MarksSplit(p, |Lines(n)|, begins);
      assert p[..|Lines(n)|] == Lines(n);
      LinesAreMarked(n, begins);
    } else {
      var i :| 0 <= i < |g| - 1 && g[i] == '*' == g[i + 1];
      var rest := if g[0] == '*' then AfterStar(g) else g[1..];
      assert rest == g[1..] && rest[i - 1] == '*' == rest[i];
      if g[0] == '*' {
        FilledIsMarked(rest, n, begins);
        assert p == Filled(rest, Lines(n), 'a');
      } else {
        FilledIsMarked(rest, n, p[0] == '/');
        assert p[1..] == Filled(rest, Lines(n), 'a');
      }
    }
  }

  /** The pattern matches exactly the paths of the glob, on every path there is, if and only if the glob has no `**`. */
  lemma {:induction false} ExactOnEveryPathIff(g: string)
    ensures (forall p :: Test("^" + Compile(g) + "$", p) <==> GlobMatches(g, p)) <==> !HasDoubleStar(g)
  {
    if HasDoubleStar(g) {
      var p := Filled(g, Lines(|g| + 2), 'a');
      FilledMatches(g, Lines(|g| + 2), 'a');
      FilledIsMarked(g, |g| + 2, true);
      if PatternMatches(g, p) {
        PatternTakesFewMarks(g, p);
      }
      CompilerMeansExactly(g, p);
    } else {
      forall p
        ensures Test("^" + Compile(g) + "$", p) <==> GlobMatches(g, p)
      {
        CompilerPreservesMeaning(g, p);
      }
    }
  }

  /** With `**` the restriction is needed: `.` stops at a line terminator. */
  lemma {:induction false} LineTerminatorIsMissed()
    ensures GlobMatches("**", "\n") && !Test("^" + Compile("**") + "$", "\n")
  {
    assert "\n"[1..] == "" && "**"[2..] == "";
    assert GlobMatches("", "\n"[1..]);
    ReadsAsMeant("**");
    var pattern := "^" + Compile("**") + "$";
    assert pattern[1..] == Compile("**") + "$";
    var ts := [Begin] + Meant("**");
    assert ReadPattern(pattern) == Some(ts);
    assert Meant("**") == [Star(AnyChar), End];
    assert ts[1..] == [Star(AnyChar), End];
    assert ts[1..][1..] == [End];
    forall k | 0 <= k <= 1
      ensures !(AllSat(AnyChar, "\n"[..k]) && MatchesHere([End], "\n"[k..], k == 0))
    {
      if k == 1 {
        assert "\n"[..k][0] == '\n';
      }
    }
    assert "\n"[0..] == "\n";
    assert !MatchesHere([Star(AnyChar), End], "\n", true);
    forall i | 0 <= i <= 1
      ensures !MatchesHere(ts, "\n"[i..], i == 0)
    {
    }
  }
}
