/**
 The compiled globs against a reading in which a double star and its slash stand for whole path
 segments (scripts/check-vitest-coverage.ts).  The compiler drops the slash instead: it lets the
 double star end inside a name.
 */
module GlobSegments {
  import opened Prelude
  import opened Regex
  import opened GlobCompiler
  import opened GlobLines

  /** The glob begins with a double star and a slash. */
  predicate TakesSegments(g: string) {
    |g| > 2 && g[0] == '*' == g[1] && g[2] == '/'
  }

  /**
   Nothing, or a text up to a slash.  It is not anchored: where a double star stands inside a name, as
   in `a**` with its slash, the rest of that name counts as the first segment.
   */
  predicate WholeSegments(s: string) {
    s == "" || s[|s| - 1] == '/'
  }

  predicate SegmentsMatch(g: string, p: string)
    decreases |g|
  {
    if g == "" then p == ""
    else if g[0] == '*' then
      exists k | 0 <= k <= |p| ::
        && (if TakesSegments(g) then WholeSegments(p[..k]) else DoubleStar(g) || NoSlash(p[..k]))
        && SegmentsMatch(AfterStar(g), p[k..])
    else if g[0] == '?' then p != "" && p[0] != '/' && SegmentsMatch(g[1..], p[1..])
    else p != "" && p[0] == g[0] && SegmentsMatch(g[1..], p[1..])
  }

  // ---------------------------------------------------------------- the compiled pattern accepts at least these paths

  lemma {:induction false} SegmentsAreMatched(g: string, p: string)
    requires SegmentsMatch(g, p)
    ensures GlobMatches(g, p)
    decreases |g|
  {
    if g != "" && g[0] == '*' {
      var k :| 0 <= k <= |p|
        && (if TakesSegments(g) then WholeSegments(p[..k]) else DoubleStar(g) || NoSlash(p[..k]))
        && SegmentsMatch(AfterStar(g), p[k..]);
      SegmentsAreMatched(AfterStar(g), p[k..]);
    } else if g != "" {
      SegmentsAreMatched(g[1..], p[1..]);
    }
  }

  /**
   Whatever the glob: the pattern tests true on every path, without line terminators, that the segment reading
   matches.
   */
  lemma {:induction false} PatternCoversSegments(g: string, p: string)
    requires SegmentsMatch(g, p) && (SingleLine(p) || !HasDoubleStar(g))
    ensures Test("^" + Compile(g) + "$", p)
  {
    SegmentsAreMatched(g, p);
    CompilerPreservesMeaning(g, p);
  }

  // ---------------------------------------------------------------- when it accepts no more

  /** The glob begins, behind any question marks, with a star: what stands before it in a name is taken up by it. */
  predicate Elastic(g: string) {
    g != "" && (g[0] == '*' || (g[0] == '?' && Elastic(g[1..])))
  }

  /** Behind every double star with a slash the glob is elastic. */
  predicate AllElastic(g: string)
    decreases |g|
  {
    g != "" ==> (TakesSegments(g) ==> Elastic(AfterStar(g))) && AllElastic(Rest(g))
  }

  /** An elastic glob also matches with more of a name in front. */
  lemma {:induction false} ElasticTakes(g: string, name: string, p: string)
    requires Elastic(g) && AllElastic(g) && NoSlash(name) && SegmentsMatch(g, p)
    ensures SegmentsMatch(g, name + p)
    decreases |g|
  {
    if name == "" {
      assert name + p == p;
    } else if g[0] == '?' {
      QuestionTakes(g, name, p);
    } else {
      var k :| 0 <= k <= |p|
        && (if TakesSegments(g) then WholeSegments(p[..k]) else DoubleStar(g) || NoSlash(p[..k]))
        && SegmentsMatch(AfterStar(g), p[k..]);
      if TakesSegments(g) && k == 0 {
        assert p[k..] == p;
        ElasticTakes(AfterStar(g), name, p);
        assert (name + p)[..0] == "" && (name + p)[0..] == name + p;
      } else {
        StarTakes(g, name, p, k);
      }
    }
  }

  lemma {:induction false} StarTakes(g: string, name: string, p: string, k: nat)
    requires g != "" && g[0] == '*' && NoSlash(name) && k <= |p| && (TakesSegments(g) ==> k > 0)
    requires if TakesSegments(g) then WholeSegments(p[..k]) else DoubleStar(g) || NoSlash(p[..k])
    requires SegmentsMatch(AfterStar(g), p[k..])
    ensures SegmentsMatch(g, name + p)
  {
    var q, n := name + p, |name| + k;
    assert q[..n] == name + p[..k] && q[n..] == p[k..];
    assert k > 0 ==> q[..n][n - 1] == p[..k][k - 1];
  }

  lemma {:induction false} QuestionTakes(g: string, name: string, p: string)
    requires Elastic(g) && AllElastic(g) && g[0] == '?' && NoSlash(name) && name != "" && SegmentsMatch(g, p)
    ensures SegmentsMatch(g, name + p)
    decreases |g|, 0
  {
    var moved := name[1..] + [p[0]];
    assert (name + p)[0] == name[0] && (name + p)[1..] == moved + p[1..];
    ElasticTakes(g[1..], moved, p[1..]);
  }

  /** Any text is whole segments and the beginning of a name. */
  lemma {:induction false} LastName(s: string) returns (k: nat)
    ensures k <= |s| && WholeSegments(s[..k]) && NoSlash(s[k..])
  {
    k := |s|;
    if s != "" && s[|s| - 1] != '/' {
      var front := s[..|s| - 1];
      k := LastName(front);
      assert s[..k] == front[..k] && s[k..] == front[k..] + [s[|s| - 1]];
    }
  }

  lemma {:induction false} SegmentsTake(g: string, p: string, k: nat)
    requires TakesSegments(g) && AllElastic(g) && k <= |p| && SegmentsMatch(AfterStar(g), p[k..])
    ensures SegmentsMatch(g, p)
  {
    var n := LastName(p[..k]);
    var name := p[..k][n..];
    assert p[n..] == name + p[k..] && p[..n] == p[..k][..n];
    ElasticTakes(AfterStar(g), name, p[k..]);
  }

  lemma {:induction false} StarIsExact(g: string, p: string)
    requires g != "" && g[0] == '*' && AllElastic(g)
    requires forall k | 0 <= k <= |p| :: SegmentsMatch(AfterStar(g), p[k..]) <==> GlobMatches(AfterStar(g), p[k..])
    ensures SegmentsMatch(g, p) <==> GlobMatches(g, p)
  {
    if SegmentsMatch(g, p) {
      SegmentsAreMatched(g, p);
    }
    if GlobMatches(g, p) && TakesSegments(g) {
      var k :| 0 <= k <= |p| && GlobMatches(AfterStar(g), p[k..]);
      SegmentsTake(g, p, k);
    }
  }

  lemma {:induction false} ElasticIsExact(g: string, p: string)
    requires AllElastic(g)
    ensures SegmentsMatch(g, p) <==> GlobMatches(g, p)
    decreases |g|
  {
    if g != "" && g[0] == '*' {
      var rest := AfterStar(g);
      forall k | 0 <= k <= |p|
        ensures SegmentsMatch(rest, p[k..]) <==> GlobMatches(rest, p[k..])
      {
        ElasticIsExact(rest, p[k..]);
      }
      StarIsExact(g, p);
    } else if g != "" && p != "" {
      ElasticIsExact(g[1..], p[1..]);
    }
  }

  // ---------------------------------------------------------------- when it accepts more

  lemma {:induction false} AtLeastFilled(g: string, letter: char, p: string)
    requires SegmentsMatch(g, p)
    ensures |p| >= |Filled(g, "", letter)|
    decreases |g|
  {
    if g != "" && g[0] == '*' {
      var k :| 0 <= k <= |p| && SegmentsMatch(AfterStar(g), p[k..]);
      AtLeastFilled(AfterStar(g), letter, p[k..]);
    } else if g != "" {
      AtLeastFilled(g[1..], letter, p[1..]);
    }
  }

  /** A letter that the first character behind the question marks is not. */
  function OtherLetter(g: string): (letter: char)
    ensures letter in {'a', 'b'}
  {
    if g == "" then 'a' else if g[0] == '?' then OtherLetter(g[1..]) else if g[0] == 'a' then 'b' else 'a'
  }

  /** An inelastic glob has no room for one more letter in front. */
  lemma {:induction false} NoRoom(g: string)
    requires !Elastic(g)
    ensures var letter := OtherLetter(g);
      !SegmentsMatch(g, [letter] + Filled(g, "", letter))
  {
    if g != "" && g[0] == '?' {
      var letter := OtherLetter(g);
      NoRoom(g[1..]);
      assert ([letter] + Filled(g, "", letter))[1..] == [letter] + Filled(g[1..], "", letter);
    }
  }

  lemma {:induction false} BehindLiteral(pre: string, g: string, p: string)
    requires NoGlobCharacters(pre)
    ensures SegmentsMatch(pre + g, pre + p) <==> SegmentsMatch(g, p)
    ensures GlobMatches(pre + g, pre + p) <==> GlobMatches(g, p)
  {
    if pre == "" {
      assert pre + g == g && pre + p == p;
    } else {
      assert (pre + g)[1..] == pre[1..] + g && (pre + p)[1..] == pre[1..] + p;
      BehindLiteral(pre[1..], g, p);
    }
  }

  /** With an inelastic rest the pattern accepts a path in which the name before it does not end. */
  lemma {:induction false} InelasticAcceptsMore(rest: string)
    requires !Elastic(rest)
    ensures var letter := OtherLetter(rest);
      var p := [letter] + Filled(rest, "", letter);
      GlobMatches("**/" + rest, p) && !SegmentsMatch("**/" + rest, p)
  {
    var g, letter := "**/" + rest, OtherLetter(rest);
    var p := [letter] + Filled(rest, "", letter);
    assert AfterStar(g) == rest && TakesSegments(g);
    FilledMatches(rest, "", letter);
    assert p[1..] == Filled(rest, "", letter);
    assert DoubleStar(g) && GlobMatches(AfterStar(g), p[1..]);
    forall k | 0 <= k <= |p| && WholeSegments(p[..k])
      ensures !SegmentsMatch(rest, p[k..])
    {
      if k == 0 {
        NoRoom(rest);
        assert p[0..] == p;
      } else {
        assert p[..k][0] == letter;
        if SegmentsMatch(rest, p[k..]) {
          AtLeastFilled(rest, letter, p[k..]);
        }
      }
    }
  }

  /**
   For a glob whose first glob character begins a double star with a slash, and which is elastic
   behind any later one: the compiler reads it as whole segments, on every path, if and only if the
   glob goes on with a star behind any question marks.
   */
  lemma {:induction false} WholeSegmentsIff(pre: string, rest: string)
    requires NoGlobCharacters(pre) && AllElastic(rest)
    ensures (forall p :: GlobMatches(pre + "**/" + rest, p) <==> SegmentsMatch(pre + "**/" + rest, p)) <==>
      Elastic(rest)
  {
    var g := "**/" + rest;
    assert pre + "**/" + rest == pre + g;
    if Elastic(rest) {
      assert AfterStar(g) == rest == Rest(g);
      LiteralThenElastic(pre, g);
      forall p
        ensures GlobMatches(pre + g, p) <==> SegmentsMatch(pre + g, p)
      {
        ElasticIsExact(pre + g, p);
      }
    } else {
      InelasticDisagrees(pre, rest);
    }
  }

  /** Whatever the rest: if both readings agree on every path, the first double star goes on to a star. */
  lemma {:induction false} AgreementNeedsStar(pre: string, rest: string)
    requires NoGlobCharacters(pre)
    requires forall p :: GlobMatches(pre + "**/" + rest, p) <==> SegmentsMatch(pre + "**/" + rest, p)
    ensures Elastic(rest)
  {
    if !Elastic(rest) {
      InelasticDisagrees(pre, rest);
    }
  }

  lemma {:induction false} InelasticDisagrees(pre: string, rest: string)
    requires NoGlobCharacters(pre) && !Elastic(rest)
    ensures exists p :: GlobMatches(pre + "**/" + rest, p) && !SegmentsMatch(pre + "**/" + rest, p)
  {
    var g, letter := "**/" + rest, OtherLetter(rest);
    assert pre + "**/" + rest == pre + g;
    var p := [letter] + Filled(rest, "", letter);
    InelasticAcceptsMore(rest);
    BehindLiteral(pre, g, p);
    assert GlobMatches(pre + g, pre + p) && !SegmentsMatch(pre + g, pre + p);
  }

  lemma {:induction false} LiteralThenElastic(pre: string, g: string)
    requires NoGlobCharacters(pre) && AllElastic(g)
    ensures AllElastic(pre + g)
  {
    if pre == "" {
      assert pre + g == g;
    } else {
      var all := pre + g;
      assert all[0] == pre[0] && all[1..] == pre[1..] + g;
      assert !TakesSegments(all) && Rest(all) == pre[1..] + g;
      LiteralThenElastic(pre[1..], g);
    }
  }
}
