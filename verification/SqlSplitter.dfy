/** The dollar-quote-aware statement splitter (packages/db/index.ts). */
module SqlSplitter {

  /** White space and line terminators, as `String.prototype.trim` knows them (section 22.1.3.32 of ECMA-262). */
  predicate IsSpace(c: char) {
    || c in " \t\n\r\U{000B}\U{000C}\U{00A0}\U{1680}\U{2028}\U{2029}\U{202F}\U{205F}\U{3000}\U{FEFF}"
    || '\U{2000}' <= c <= '\U{200A}'
  }

  function TrimStart(s: string): string {
    if s != "" && IsSpace(s[0]) then TrimStart(s[1..]) else s
  }

  function TrimEnd(s: string): string {
    if s != "" && IsSpace(s[|s| - 1]) then TrimEnd(s[..|s| - 1]) else s
  }

  function Trim(s: string): string {
    TrimEnd(TrimStart(s))
  }

  predicate Trimmed(s: string) {
    s != "" ==> !IsSpace(s[0]) && !IsSpace(s[|s| - 1])
  }

  predicate DollarsAt(s: string, i: nat) {
    i + 1 < |s| && s[i] == '$' == s[i + 1]
  }

  // ---------------------------------------------------------------- reading a text from the left

  /** How many characters the token at the head of `s` has. */
  function TokenLength(s: string): (n: nat)
    requires s != ""
    ensures 1 <= n <= |s|
  {
    if DollarsAt(s, 0) then 2 else 1
  }

  /** Whether `s`, read with the quote state `quoted`, ends inside a dollar quote. */
  predicate EndsQuoted(s: string, quoted: bool)
    decreases |s|
  {
    if s == "" then quoted
    else EndsQuoted(s[TokenLength(s)..], if DollarsAt(s, 0) then !quoted else quoted)
  }

  /** No semicolon of `s` stands outside the dollar quotes. */
  predicate Solid(s: string, quoted: bool)
    decreases |s|
  {
    if s == "" then true
    else
      && (quoted || s[0] != ';')
      && Solid(s[TokenLength(s)..], if DollarsAt(s, 0) then !quoted else quoted)
  }

  /** The texts of the dollar quotes that are closed in `s`; `open` is what the open one holds so far. */
  function Blocks(s: string, quoted: bool, open: string): seq<string>
    decreases |s|
  {
    if s == "" then []
    else if DollarsAt(s, 0) then
      (if quoted then [open] else []) + Blocks(s[2..], !quoted, "")
    else Blocks(s[1..], quoted, if quoted then open + [s[0]] else "")
  }

  // ---------------------------------------------------------------- the splitter

  function Kept(piece: string): seq<string> {
    if Trim(piece) == "" then [] else [Trim(piece)]
  }

  /** The statements of `s`, read after `current` in the quote state `quoted`. */
  function Statements(s: string, quoted: bool, current: string): seq<string>
    decreases |s|
  {
    if s == "" then Kept(current)
    else if DollarsAt(s, 0) then Statements(s[2..], !quoted, current + "$$")
    else if !quoted && s[0] == ';' then Kept(current) + Statements(s[1..], false, "")
    else Statements(s[1..], quoted, current + [s[0]])
  }

  function Split(s: string): seq<string> {
    Statements(s, false, "")
  }

  function Join(pieces: seq<string>): string {
    if pieces == [] then "" else if |pieces| == 1 then pieces[0]
    else pieces[0] + ";" + Join(pieces[1..])
  }

  /** What a statement list looks like: no blank ends, no cut inside, and only the last may stay open. */
  ghost predicate WellCut(pieces: seq<string>) {
    forall i | 0 <= i < |pieces| ::
      && pieces[i] != "" && Trimmed(pieces[i]) && Solid(pieces[i], false)
      && (i < |pieces| - 1 ==> !EndsQuoted(pieces[i], false))
  }

  // ---------------------------------------------------------------- reading is compositional

  /** The last token of `s` is a single dollar sign. */
  predicate LoneEnd(s: string)
    decreases |s|
  {
    s != "" && if s == "$" then true else LoneEnd(s[TokenLength(s)..])
  }

  /** Reading `s` and then `t` reads the same tokens as reading `s + t`. */
  predicate Boundary(s: string, t: string) {
    LoneEnd(s) ==> t == "" || t[0] != '$'
  }

  /** The text that the open quote at the end of `s` holds. */
  function OpenText(s: string, quoted: bool, open: string): string
    decreases |s|
  {
    if s == "" then open
    else if DollarsAt(s, 0) then OpenText(s[2..], !quoted, "")
    else OpenText(s[1..], quoted, if quoted then open + [s[0]] else "")
  }

  lemma {:induction false} HeadToken(s: string, t: string)
    requires s != "" && Boundary(s, t)
    ensures DollarsAt(s + t, 0) == DollarsAt(s, 0)
    ensures (s + t)[TokenLength(s)..] == s[TokenLength(s)..] + t
    ensures Boundary(s[TokenLength(s)..], t)
  {
  }

  lemma {:induction false} ReadAppend(s: string, t: string, quoted: bool, open: string)
    requires Boundary(s, t)
    ensures EndsQuoted(s + t, quoted) == EndsQuoted(t, EndsQuoted(s, quoted))
    ensures Solid(s + t, quoted) == (Solid(s, quoted) && Solid(t, EndsQuoted(s, quoted)))
    ensures Blocks(s + t, quoted, open) ==
      Blocks(s, quoted, open) + Blocks(t, EndsQuoted(s, quoted), OpenText(s, quoted, open))
    ensures OpenText(s + t, quoted, open) == OpenText(t, EndsQuoted(s, quoted), OpenText(s, quoted, open))
    ensures LoneEnd(s + t) == if t == "" then LoneEnd(s) else LoneEnd(t)
  {
    FlagsAppend(s, t, quoted);
    BlocksAppend(s, t, quoted, open);
  }

  lemma {:induction false} FlagsAppend(s: string, t: string, quoted: bool)
    requires Boundary(s, t)
    ensures EndsQuoted(s + t, quoted) == EndsQuoted(t, EndsQuoted(s, quoted))
    ensures Solid(s + t, quoted) == (Solid(s, quoted) && Solid(t, EndsQuoted(s, quoted)))
    ensures LoneEnd(s + t) == if t == "" then LoneEnd(s) else LoneEnd(t)
    decreases |s|
  {
    if s == "" {
      assert s + t == t;
    } else {
      HeadToken(s, t);
      FlagsAppend(s[TokenLength(s)..], t, if DollarsAt(s, 0) then !quoted else quoted);
    }
  }

  lemma {:induction false} BlocksAppend(s: string, t: string, quoted: bool, open: string)
    requires Boundary(s, t)
    ensures Blocks(s + t, quoted, open) ==
      Blocks(s, quoted, open) + Blocks(t, EndsQuoted(s, quoted), OpenText(s, quoted, open))
    ensures OpenText(s + t, quoted, open) == OpenText(t, EndsQuoted(s, quoted), OpenText(s, quoted, open))
    decreases |s|
  {
    if s == "" {
      assert s + t == t;
    } else {
      HeadToken(s, t);
      if DollarsAt(s, 0) {
        BlocksAppend(s[2..], t, !quoted, "");
      } else {
        BlocksAppend(s[1..], t, quoted, if quoted then open + [s[0]] else "");
      }
    }
  }

  lemma {:induction false} SpaceIsNoToken(c: char)
    requires IsSpace(c)
    ensures c != '$' && c != ';'
  {
  }

  // ---------------------------------------------------------------- trimming keeps what was read

  ghost predicate SameReading(s: string, t: string) {
    && Solid(s, false) == Solid(t, false)
    && EndsQuoted(s, false) == EndsQuoted(t, false)
    && Blocks(s, false, "") == Blocks(t, false, "")
  }

  lemma {:induction false} TrimStartReads(s: string)
    ensures SameReading(s, TrimStart(s))
    ensures TrimStart(s) != "" ==> !IsSpace(TrimStart(s)[0])
    decreases |s|
  {
    if s != "" && IsSpace(s[0]) {
      SpaceIsNoToken(s[0]);
      TrimStartReads(s[1..]);
    }
  }

  lemma {:induction false} TrimEndReads(s: string)
    ensures SameReading(s, TrimEnd(s))
    ensures TrimEnd(s) != "" ==> TrimEnd(s)[0] == s[0] && !IsSpace(TrimEnd(s)[|TrimEnd(s)| - 1])
    decreases |s|
  {
    if s != "" && IsSpace(s[|s| - 1]) {
      var front, last := s[..|s| - 1], s[|s| - 1..];
      SpaceIsNoToken(last[0]);
      assert s == front + last && last[1..] == "";
      ReadAppend(front, last, false, "");
      TrimEndReads(front);
    }
  }

  lemma {:induction false} TrimReads(s: string)
    ensures SameReading(s, Trim(s)) && Trimmed(Trim(s))
  {
    TrimStartReads(s);
    TrimEndReads(TrimStart(s));
  }

  lemma {:induction false} TrimStartDrops(s: string)
    ensures |TrimStart(s)| <= |s| && TrimStart(s) == s[|s| - |TrimStart(s)|..]
    ensures forall k | 0 <= k < |s| - |TrimStart(s)| :: IsSpace(s[k])
  {
    if s != "" && IsSpace(s[0]) {
      TrimStartDrops(s[1..]);
      assert forall k | 1 <= k < |s| - |TrimStart(s)| :: s[k] == s[1..][k - 1];
    }
  }

  lemma {:induction false} TrimEndDrops(s: string)
    ensures TrimEnd(s) <= s
    ensures forall k | |TrimEnd(s)| <= k < |s| :: IsSpace(s[k])
  {
    if s != "" && IsSpace(s[|s| - 1]) {
      var front := s[..|s| - 1];
      TrimEndDrops(front);
      forall k | |TrimEnd(front)| <= k < |s|
        ensures IsSpace(s[k])
      {
        assert k < |front| ==> front[k] == s[k];
      }
    }
  }

  /** Trimming takes blanks off the two ends, all of them and nothing else. */
  lemma {:induction false} TrimDropsBlankEnds(s: string) returns (i: nat, j: nat)
    ensures i <= j <= |s| && Trim(s) == s[i..j] && Trimmed(Trim(s))
    ensures forall k | 0 <= k < i || j <= k < |s| :: IsSpace(s[k])
  {
    assert Trimmed(Trim(s)) by {
      TrimReads(s);
    }
    var rest := TrimStart(s);
    TrimStartDrops(s);
    TrimEndDrops(rest);
    i := |s| - |rest|;
    j := i + |Trim(s)|;
    PrefixOfSuffix(s, rest, Trim(s));
  }

  /** A text `kept` at the head of `rest`, which is the end of `s`. */
  lemma {:induction false} PrefixOfSuffix(s: string, rest: string, kept: string)
    requires |kept| <= |rest| <= |s| && rest == s[|s| - |rest|..] && kept == rest[..|kept|]
    requires forall k | |kept| <= k < |rest| :: IsSpace(rest[k])
    ensures var i := |s| - |rest|;
      kept == s[i..i + |kept|] && forall k | i + |kept| <= k < |s| :: IsSpace(s[k])
  {
    var i := |s| - |rest|;
    forall k | i + |kept| <= k < |s|
      ensures IsSpace(s[k])
    {
      assert s[k] == rest[k - i];
    }
  }

  // ---------------------------------------------------------------- the splitter cuts well

  /** `current` is what has been read since the last cut, and `s` what follows it. */
  ghost predicate Midway(s: string, quoted: bool, current: string) {
    Solid(current, false) && EndsQuoted(current, false) == quoted && Boundary(current, s)
  }

  lemma {:induction false} Advance(s: string, quoted: bool, current: string)
    requires Midway(s, quoted, current) && s != "" && !(!quoted && s[0] == ';')
    ensures var n, quoted' := TokenLength(s), if DollarsAt(s, 0) then !quoted else quoted;
      Midway(s[n..], quoted', current + s[..n])
  {
    var n := TokenLength(s);
    var token := s[..n];
    assert token[n..] == "";
    ReadAppend(current, token, false, "");
  }

  lemma {:induction false} TokenStep(s: string, quoted: bool, current: string)
    requires s != "" && !(!quoted && s[0] == ';')
    ensures var n, quoted' := TokenLength(s), if DollarsAt(s, 0) then !quoted else quoted;
      Statements(s, quoted, current) == Statements(s[n..], quoted', current + s[..n])
  {
    assert s[..TokenLength(s)] == if DollarsAt(s, 0) then "$$" else [s[0]];
  }

  lemma {:induction false} StatementsWellCut(s: string, quoted: bool, current: string)
    requires Midway(s, quoted, current)
    ensures WellCut(Statements(s, quoted, current))
    decreases |s|
  {
    TrimReads(current);
    if s != "" {
      if !quoted && s[0] == ';' {
        StatementsWellCut(s[1..], false, "");
      } else {
        Advance(s, quoted, current);
        TokenStep(s, quoted, current);
        var n := TokenLength(s);
        StatementsWellCut(s[n..], if DollarsAt(s, 0) then !quoted else quoted, current + s[..n]);
      }
    }
  }

  function AllBlocks(pieces: seq<string>): seq<string> {
    if pieces == [] then [] else Blocks(pieces[0], false, "") + AllBlocks(pieces[1..])
  }

  lemma {:induction false} AllBlocksAppend(a: seq<string>, b: seq<string>)
    ensures AllBlocks(a + b) == AllBlocks(a) + AllBlocks(b)
  {
    if a == [] {
      assert a + b == b;
    } else {
      assert (a + b)[1..] == a[1..] + b;
      AllBlocksAppend(a[1..], b);
    }
  }

  lemma {:induction false} KeptBlocks(piece: string)
    ensures AllBlocks(Kept(piece)) == Blocks(piece, false, "")
  {
    TrimReads(piece);
    assert Kept(piece) != [] ==> Kept(piece)[1..] == [];
  }

  lemma {:induction false} StatementsKeepBlocks(s: string, quoted: bool, current: string)
    requires Midway(s, quoted, current)
    ensures AllBlocks(Statements(s, quoted, current)) ==
      Blocks(current, false, "") + Blocks(s, quoted, OpenText(current, false, ""))
    decreases |s|
  {
    KeptBlocks(current);
    if s != "" {
      if !quoted && s[0] == ';' {
        StatementsKeepBlocks(s[1..], false, "");
        AllBlocksAppend(Kept(current), Statements(s[1..], false, ""));
        BlocksUnquoted(s[1..], OpenText(current, false, ""), "");
        BlocksUnquoted(s, OpenText(current, false, ""), "");
      } else {
        Advance(s, quoted, current);
        TokenStep(s, quoted, current);
        var n := TokenLength(s);
        StatementsKeepBlocks(s[n..], if DollarsAt(s, 0) then !quoted else quoted, current + s[..n]);
        BlocksMove(s, quoted, current);
      }
    }
  }

  /** Moving one token from the rest to what was read moves its blocks along. */
  lemma {:induction false} BlocksMove(s: string, quoted: bool, current: string)
    requires Midway(s, quoted, current) && s != "" && !(!quoted && s[0] == ';')
    ensures var n, quoted' := TokenLength(s), if DollarsAt(s, 0) then !quoted else quoted;
      Blocks(current + s[..n], false, "") + Blocks(s[n..], quoted', OpenText(current + s[..n], false, "")) ==
        Blocks(current, false, "") + Blocks(s, quoted, OpenText(current, false, ""))
  {
    var token := s[..TokenLength(s)];
    assert token[|token|..] == "";
    ReadAppend(current, token, false, "");
    BlocksOfToken(s, quoted, OpenText(current, false, ""));
  }

  /** Outside a quote there is no open text to carry. */
  lemma {:induction false} BlocksUnquoted(s: string, open: string, open': string)
    ensures Blocks(s, false, open) == Blocks(s, false, open')
  {
  }

  lemma {:induction false} TokenBoundary(s: string)
    requires s != ""
    ensures Boundary(s[..TokenLength(s)], s[TokenLength(s)..])
  {
    var t := s[..TokenLength(s)];
    assert t[|t|..] == "";
    if DollarsAt(s, 0) {
      assert t[1] == '$' && TokenLength(t) == 2;
      assert !LoneEnd(t);
    } else if s[0] == '$' {
      assert |s| > 1 ==> s[1..][0] != '$';
    } else {
      assert t[0] != '$';
      assert !LoneEnd(t);
    }
  }

  lemma {:induction false} BlocksOfToken(s: string, quoted: bool, open: string)
    requires s != ""
    ensures var n, quoted' := TokenLength(s), if DollarsAt(s, 0) then !quoted else quoted;
      Blocks(s, quoted, open) == Blocks(s[..n], quoted, open) + Blocks(s[n..], quoted', OpenText(s[..n], quoted, open))
  {
    var n := TokenLength(s);
    assert s[..n] + s[n..] == s && s[..n][n..] == "";
    assert DollarsAt(s, 0) ==> DollarsAt(s[..n], 0);
    assert EndsQuoted(s[..n], quoted) == if DollarsAt(s, 0) then !quoted else quoted;
    TokenBoundary(s);
    ReadAppend(s[..n], s[n..], quoted, open);
  }

  // ---------------------------------------------------------------- splitting again

  lemma {:induction false} StatementsSkip(p: string, t: string, quoted: bool, current: string)
    requires Solid(p, quoted) && Boundary(p, t)
    ensures Statements(p + t, quoted, current) == Statements(t, EndsQuoted(p, quoted), current + p)
    decreases |p|
  {
    if p == "" {
      assert p + t == t && current + p == current;
    } else {
      HeadToken(p, t);
      var n := TokenLength(p);
      StatementsSkip(p[n..], t, if DollarsAt(p, 0) then !quoted else quoted, current + p[..n]);
      TokenStep(p + t, quoted, current);
      SkipParts(p, t, n, current);
    }
  }

  lemma {:induction false} SkipParts(p: string, t: string, n: nat, current: string)
    requires n <= |p|
    ensures (p + t)[..n] == p[..n] && current + p[..n] + p[n..] == current + p
  {
  }

  lemma {:induction false} KeptWhole(p: string)
    requires p != "" && Trimmed(p)
    ensures Kept(p) == [p]
  {
    assert TrimStart(p) == p;
    assert TrimEnd(p) == p;
  }

  lemma {:induction false} SplitOne(p: string)
    requires p != "" && Trimmed(p) && Solid(p, false)
    ensures Split(p) == [p]
  {
    assert p + "" == p && "" + p == p;
    StatementsSkip(p, "", false, "");
    KeptWhole(p);
  }

  lemma {:induction false} SplitFirst(p: string, rest: string)
    requires p != "" && Trimmed(p) && Solid(p, false) && !EndsQuoted(p, false)
    ensures Split(p + ";" + rest) == [p] + Split(rest)
  {
    var t := ";" + rest;
    assert p + ";" + rest == p + t && "" + p == p && t[1..] == rest;
    StatementsSkip(p, t, false, "");
    KeptWhole(p);
  }

  lemma {:induction false} SplitJoined(pieces: seq<string>)
    requires WellCut(pieces)
    ensures Split(Join(pieces)) == pieces
  {
    if |pieces| == 1 {
      SplitOne(pieces[0]);
    } else if pieces != [] {
      var rest := pieces[1..];
      forall i | 0 <= i < |rest|
        ensures rest[i] == pieces[i + 1]
      {
      }
      SplitJoined(rest);
      SplitFirst(pieces[0], Join(rest));
    }
  }

  /** Splitting, joining with semicolons and splitting again gives the same statements, for every text. */
  lemma {:induction false} SplitJoinSplit(s: string)
    ensures Split(Join(Split(s))) == Split(s)
  {
    StatementsWellCut(s, false, "");
    SplitJoined(Split(s));
  }

  /** No statement holds a top-level semicolon, and the closed dollar quotes all survive whole and in order. */
  lemma {:induction false} SplitCutsWell(s: string)
    ensures WellCut(Split(s))
    ensures AllBlocks(Split(s)) == Blocks(s, false, "")
  {
    StatementsWellCut(s, false, "");
    StatementsKeepBlocks(s, false, "");
  }

  // ---------------------------------------------------------------- the text is the statements and what is between

  /** The pieces in order, with a gap before each and one behind the last. */
  function Weave(gaps: seq<string>, pieces: seq<string>): string
    requires |gaps| == |pieces| + 1
  {
    if pieces == [] then gaps[0] else gaps[0] + pieces[0] + Weave(gaps[1..], pieces[1..])
  }

  ghost predicate IsGap(g: string) {
    forall k | 0 <= k < |g| :: g[k] == ';' || IsSpace(g[k])
  }

  ghost predicate Woven(s: string, pieces: seq<string>, gaps: seq<string>) {
    |gaps| == |pieces| + 1 && s == Weave(gaps, pieces) && forall n | 0 <= n < |gaps| :: IsGap(gaps[n])
  }

  lemma {:induction false} WovenOne(piece: string, i: nat, j: nat)
    requires i <= j <= |piece|
    ensures piece == Weave([piece[..i], piece[j..]], [piece[i..j]])
  {
    assert [piece[..i], piece[j..]][1..] == [piece[j..]] && [piece[i..j]][1..] == [];
    assert piece == piece[..i] + piece[i..j] + piece[j..];
  }

  lemma {:induction false} WovenPiece(piece: string) returns (gaps: seq<string>)
    ensures Woven(piece, Kept(piece), gaps)
  {
    var i, j := TrimDropsBlankEnds(piece);
    if Trim(piece) == "" {
      gaps := [piece];
    } else {
      gaps := [piece[..i], piece[j..]];
      WovenOne(piece, i, j);
    }
  }

  lemma {:induction false} GapsMerge(g: string, h: string)
    requires IsGap(g) && IsGap(h)
    ensures IsGap(g + ";" + h)
  {
  }

  /** A gap in front of a woven text widens its first gap. */
  lemma {:induction false} WovenBehindGap(g: string, s: string, pieces: seq<string>, gaps: seq<string>)
    requires IsGap(g) && Woven(s, pieces, gaps)
    ensures Woven(g + ";" + s, pieces, [g + ";" + gaps[0]] + gaps[1..])
  {
    GapsMerge(g, gaps[0]);
    var wider := [g + ";" + gaps[0]] + gaps[1..];
    assert wider[1..] == gaps[1..];
    if pieces == [] {
      assert g + ";" + s == wider[0];
    } else {
      assert g + ";" + s == wider[0] + pieces[0] + Weave(gaps[1..], pieces[1..]);
    }
  }

  lemma {:induction false} WovenBehindPiece(g: string, p: string, s: string, pieces: seq<string>, gaps: seq<string>)
    requires IsGap(g) && Woven(s, pieces, gaps)
    ensures Woven(g + p + s, [p] + pieces, [g] + gaps)
  {
    assert ([g] + gaps)[1..] == gaps && ([p] + pieces)[1..] == pieces;
  }

  lemma {:induction false} WovenCut(piece: string, s: string, pieces: seq<string>, gaps: seq<string>)
    returns (all: seq<string>)
    requires Woven(s, pieces, gaps)
    ensures Woven(piece + ";" + s, Kept(piece) + pieces, all)
  {
    var i, j := TrimDropsBlankEnds(piece);
    if Trim(piece) == "" {
      WovenBehindGap(piece, s, pieces, gaps);
      all := [piece + ";" + gaps[0]] + gaps[1..];
      assert Kept(piece) + pieces == pieces;
    } else {
      WovenBehindGap(piece[j..], s, pieces, gaps);
      var rest := [piece[j..] + ";" + gaps[0]] + gaps[1..];
      WovenBehindPiece(piece[..i], piece[i..j], piece[j..] + ";" + s, pieces, rest);
      all := [piece[..i]] + rest;
      ThreeParts(piece, i, j, s);
    }
  }

  lemma {:induction false} ThreeParts(piece: string, i: nat, j: nat, s: string)
    requires i <= j <= |piece|
    ensures piece + ";" + s == piece[..i] + piece[i..j] + (piece[j..] + ";" + s)
  {
  }

  lemma {:induction false} CutText(current: string, s: string)
    requires s != "" && s[0] == ';'
    ensures current + s == current + ";" + s[1..] && "" + s[1..] == s[1..]
  {
  }

  lemma {:induction false} MoveText(current: string, s: string, n: nat)
    requires n <= |s|
    ensures current + s == current + s[..n] + s[n..]
  {
  }

  lemma {:induction false} StatementsAreWoven(s: string, quoted: bool, current: string) returns (gaps: seq<string>)
    ensures Woven(current + s, Statements(s, quoted, current), gaps)
    decreases |s|
  {
    if s == "" {
      gaps := WovenPiece(current);
      assert current + s == current;
    } else if !DollarsAt(s, 0) && !quoted && s[0] == ';' {
      CutText(current, s);
      var rest := StatementsAreWoven(s[1..], false, "");
      gaps := WovenCut(current, s[1..], Statements(s[1..], false, ""), rest);
    } else {
      var n := TokenLength(s);
      TokenStep(s, quoted, current);
      MoveText(current, s, n);
      gaps := StatementsAreWoven(s[n..], if DollarsAt(s, 0) then !quoted else quoted, current + s[..n]);
    }
  }

  /**
   The text is the statements in order with gaps around them: no statement is empty or has a blank end,
   and every character of a gap is a semicolon or a blank.
   */
  lemma {:induction false} SplitLosesOnlyBlanks(s: string) returns (gaps: seq<string>)
    ensures |gaps| == |Split(s)| + 1 && s == Weave(gaps, Split(s))
    ensures forall n, k | 0 <= n < |gaps| && 0 <= k < |gaps[n]| ::
      || gaps[n][k] in "; \t\n\r\U{000B}\U{000C}\U{00A0}\U{1680}\U{2028}\U{2029}\U{202F}\U{205F}\U{3000}\U{FEFF}"
      || '\U{2000}' <= gaps[n][k] <= '\U{200A}'
    ensures forall p, c: char | p in Split(s) && (p == "" || c == p[0] || c == p[|p| - 1]) ::
      && p != ""
      && c !in " \t\n\r\U{000B}\U{000C}\U{00A0}\U{1680}\U{2028}\U{2029}\U{202F}\U{205F}\U{3000}\U{FEFF}"
      && !('\U{2000}' <= c <= '\U{200A}')
  {
    gaps := StatementsAreWoven(s, false, "");
    assert "" + s == s;
    StatementsWellCut(s, false, "");
    forall n, k | 0 <= n < |gaps| && 0 <= k < |gaps[n]|
      ensures gaps[n][k] == ';' || IsSpace(gaps[n][k])
    {
      assert IsGap(gaps[n]);
    }
  }

  // ---------------------------------------------------------------- nothing but blanks and semicolons is lost

  /** The text without its blanks and semicolons. */
  function Ink(s: string): string {
    if s == "" then ""
    else if s[0] in "; \t\n\r\U{000B}\U{000C}\U{00A0}\U{1680}\U{2028}\U{2029}\U{202F}\U{205F}\U{3000}\U{FEFF}"
         || '\U{2000}' <= s[0] <= '\U{200A}'
    then Ink(s[1..])
    else [s[0]] + Ink(s[1..])
  }

  lemma {:induction false} InkAppend(a: string, b: string)
    ensures Ink(a + b) == Ink(a) + Ink(b)
  {
    if a == "" {
      assert a + b == b;
    } else {
      assert (a + b)[1..] == a[1..] + b;
      InkAppend(a[1..], b);
    }
  }

  lemma {:induction false} GapHasNoInk(g: string)
    requires IsGap(g)
    ensures Ink(g) == ""
  {
    if g != "" {
      assert forall k | 0 <= k < |g| - 1 :: g[1..][k] == g[k + 1];
      GapHasNoInk(g[1..]);
    }
  }

  lemma {:induction false} InkOfThree(a: string, b: string, c: string)
    ensures Ink(a + b + c) == Ink(a) + Ink(b) + Ink(c)
  {
    InkAppend(a + b, c);
    InkAppend(a, b);
  }

  lemma {:induction false} InkOfJoin(piece: string, rest: seq<string>)
    ensures Ink(Join([piece] + rest)) == Ink(piece) + Ink(Join(rest))
  {
    assert ([piece] + rest)[1..] == rest;
    if rest != [] {
      assert Ink(";") == "";
      InkOfThree(piece, ";", Join(rest));
    }
  }

  lemma {:induction false} InkBehindGap(g: string, piece: string, rest: string)
    requires IsGap(g)
    ensures Ink(g + piece + rest) == Ink(piece) + Ink(rest)
  {
    GapHasNoInk(g);
    InkOfThree(g, piece, rest);
    assert "" + Ink(piece) == Ink(piece);
  }

  lemma {:induction false} InkOfWeave(gaps: seq<string>, pieces: seq<string>)
    requires |gaps| == |pieces| + 1 && forall n | 0 <= n < |gaps| :: IsGap(gaps[n])
    ensures Ink(Weave(gaps, pieces)) == Ink(Join(pieces))
  {
    assert IsGap(gaps[0]);
    if pieces == [] {
      GapHasNoInk(gaps[0]);
    } else {
      var between, rest := gaps[1..], pieces[1..];
      assert forall n | 0 <= n < |between| :: between[n] == gaps[n + 1];
      InkOfWeave(between, rest);
      InkBehindGap(gaps[0], pieces[0], Weave(between, rest));
      InkOfJoin(pieces[0], rest);
      assert [pieces[0]] + rest == pieces;
    }
  }

  /** Nothing is lost but blanks and semicolons: without them, the joined statements are the text. */
  lemma {:induction false} SplitKeepsInk(s: string)
    ensures Ink(Join(Split(s))) == Ink(s)
  {
    var gaps := StatementsAreWoven(s, false, "");
    assert "" + s == s;
    InkOfWeave(gaps, Split(s));
  }

  // ---------------------------------------------------------------- where the text is cut

  lemma {:induction false} NoDollars(a: string, quoted: bool)
    requires forall k | 0 <= k < |a| - 1 :: !(a[k] == '$' && a[k + 1] == '$')
    ensures EndsQuoted(a, quoted) == quoted && (quoted ==> Solid(a, quoted))
    decreases |a|
  {
    if a != "" {
      assert !DollarsAt(a, 0);
      assert forall k | 0 <= k < |a| - 1 :: a[1..][k] == a[k + 1];
      NoDollars(a[1..], quoted);
    }
  }

  lemma {:induction false} CutAt(a: string, b: string, quoted: bool, current: string)
    requires !EndsQuoted(a, quoted)
    ensures Statements(a + (";" + b), quoted, current) == Statements(a, quoted, current) + Statements(b, false, "")
    decreases |a|
  {
    var t := ";" + b;
    if a == "" {
      assert a + t == t && t[1..] == b;
    } else {
      HeadToken(a, t);
      var n := TokenLength(a);
      if !DollarsAt(a, 0) && !quoted && a[0] == ';' {
        CutAt(a[1..], b, false, "");
        assert Kept(current) + (Statements(a[1..], false, "") + Statements(b, false, "")) ==
          Kept(current) + Statements(a[1..], false, "") + Statements(b, false, "");
      } else {
        CutAt(a[n..], b, if DollarsAt(a, 0) then !quoted else quoted, current + a[..n]);
        TokenStep(a, quoted, current);
        TokenStep(a + t, quoted, current);
        assert (a + t)[..n] == a[..n];
      }
    }
  }

  /** A semicolon behind a text without two dollar signs in a row cuts, whatever follows. */
  lemma {:induction false} SplitsAtSemicolon(a: string, b: string)
    requires forall k | 0 <= k < |a| - 1 :: !(a[k] == '$' && a[k + 1] == '$')
    ensures Split(a + ";" + b) == Split(a) + Split(b)
  {
    NoDollars(a, false);
    CutAt(a, b, false, "");
    assert a + ";" + b == a + (";" + b);
  }

  /** A dollar quote is one statement, whatever semicolons it holds. */
  lemma {:induction false} QuotedIsOnePiece(body: string)
    requires forall k | 0 <= k < |body| - 1 :: !(body[k] == '$' && body[k + 1] == '$')
    requires body != "" ==> body[|body| - 1] != '$'
    ensures Split("$$" + body + "$$") == ["$$" + body + "$$"]
  {
    var p := "$$" + body + "$$";
    assert p[2..] == body + "$$";
    NoDollars(body, true);
    NoLoneEnd(body);
    assert "$$"[2..] == "" && Solid("$$", true);
    FlagsAppend(body, "$$", true);
    SplitOne(p);
  }

  lemma {:induction false} NoLoneEnd(s: string)
    requires s != "" ==> s[|s| - 1] != '$'
    ensures !LoneEnd(s)
    decreases |s|
  {
    if s != "" {
      NoLoneEnd(s[TokenLength(s)..]);
    }
  }

  // ---------------------------------------------------------------- the loop

  lemma {:induction false} StatementsNext(s: string, i: nat, quoted: bool, current: string)
    requires i < |s|
    ensures Statements(s[i..], quoted, current) ==
      if DollarsAt(s, i) then Statements(s[i + 2..], !quoted, current + "$$")
      else if !quoted && s[i] == ';' then Kept(current) + Statements(s[i + 1..], false, "")
      else Statements(s[i + 1..], quoted, current + [s[i]])
  {
    assert DollarsAt(s[i..], 0) == DollarsAt(s, i);
    assert s[i..][1..] == s[i + 1..];
    assert DollarsAt(s, i) ==> s[i..][2..] == s[i + 2..];
  }

  lemma {:induction false} KeptNext(statements: seq<string>, piece: string, rest: seq<string>)
    ensures (if |Trim(piece)| > 0 then statements + [Trim(piece)] else statements) + rest ==
      statements + (Kept(piece) + rest)
  {
    if Trim(piece) == "" {
      assert Kept(piece) + rest == rest;
    }
  }

  method SplitSqlStatements(sqlStr: string) returns (statements: seq<string>)
    ensures statements == Split(sqlStr)
    ensures Ink(Join(statements)) == Ink(sqlStr)
    ensures WellCut(statements) && AllBlocks(statements) == Blocks(sqlStr, false, "")
  {
    statements := [];
    var current := "";
    var inDollarQuote := false;
    var i := 0;
    while i < |sqlStr|
      invariant 0 <= i <= |sqlStr|
      invariant statements + Statements(sqlStr[i..], inDollarQuote, current) == Split(sqlStr)
    {
      StatementsNext(sqlStr, i, inDollarQuote, current);
      if DollarsAt(sqlStr, i) {
        inDollarQuote := !inDollarQuote;
        current := current + "$$";
        i := i + 2;
        continue;
      }
      if !inDollarQuote && sqlStr[i] == ';' {
        KeptNext(statements, current, Statements(sqlStr[i + 1..], false, ""));
        var trimmed := Trim(current);
        if |trimmed| > 0 {
          statements := statements + [trimmed];
        }
        current := "";
        i := i + 1;
        continue;
      }
      current := current + [sqlStr[i]];
      i := i + 1;
    }
    assert sqlStr[i..] == "";
    KeptNext(statements, current, []);
    var trailing := Trim(current);
    if |trailing| > 0 {
      statements := statements + [trailing];
    }
    SplitCutsWell(sqlStr);
    SplitKeepsInk(sqlStr);
  }
}
