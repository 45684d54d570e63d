/** Shell quoting (scripts/gcp/common.ts) against a reader of the POSIX shell grammar. */
module ShellQuote {
  import opened Prelude

  // ---------------------------------------------------------------- the quoter

  /** `value.split(separator)` for a one-character separator. */
  function Split(value: string, separator: char): (parts: seq<string>)
    ensures parts != []
  {
    if value == "" then [""]
    else
      var rest := Split(value[1..], separator);
      if value[0] == separator then [""] + rest else [[value[0]] + rest[0]] + rest[1..]
  }

  function Join(parts: seq<string>, glue: string): string
    requires parts != []
  {
    if |parts| == 1 then parts[0] else parts[0] + glue + Join(parts[1..], glue)
  }

  function Quote(value: string): string {
    "'" + Join(Split(value, '\''), "'\"'\"'") + "'"
  }

  // ---------------------------------------------------------------- the reader

  datatype Mode = Outside | Single | Double

  /**
   The words that a POSIX shell reads from one line: quoting by sections 2.2.1 to 2.2.3 of the
   Shell Command Language of POSIX.1-2017, words separated by blanks.  `word` is the word being
   read, if one has begun.  Expansions, operators, comments and open quotes read as `None`.
   */
  function Words(s: string, mode: Mode, word: Option<string>): Option<seq<string>>
    decreases |s|
  {
    if s == "" then
      if mode != Outside then None else Some(if word.Some? then [word.value] else [])
    else
      var begun := if word.Some? then word.value else "";
      match mode
      case Single =>
        if s[0] == '\'' then Words(s[1..], Outside, Some(begun))
        else Words(s[1..], Single, Some(begun + [s[0]]))
      case Double =>
        if s[0] == '"' then Words(s[1..], Outside, Some(begun))
        else if s[0] in "$`" then None
        else if s[0] == '\\' && |s| > 1 && s[1] == '\n' then None
        else if s[0] == '\\' && |s| > 1 && s[1] in "$`\"\\" then Words(s[2..], Double, Some(begun + [s[1]]))
        else Words(s[1..], Double, Some(begun + [s[0]]))
      case Outside =>
        if s[0] == '\'' then Words(s[1..], Single, Some(begun))
        else if s[0] == '"' then Words(s[1..], Double, Some(begun))
        else if s[0] == '\\' then if |s| > 1 && s[1] != '\n' then Words(s[2..], Outside, Some(begun + [s[1]])) else None
        else if s[0] in " \t" then
          match Words(s[1..], Outside, None)
          case None => None
          case Some(rest) => Some((if word.Some? then [word.value] else []) + rest)
        else if s[0] in "|&;<>()$`*?[#~=%!{}\n" then None
        else Words(s[1..], Outside, Some(begun + [s[0]]))
  }

  function ReadLine(s: string): Option<seq<string>> {
    Words(s, Outside, None)
  }

  // ---------------------------------------------------------------- round trip

  /** The quoter written character by character. */
  function Escaped(value: string): string {
    if value == "" then ""
    else (if value[0] == '\'' then "'\"'\"'" else [value[0]]) + Escaped(value[1..])
  }

  lemma {:induction false} SplitJoinEscapes(value: string)
    ensures Join(Split(value, '\''), "'\"'\"'") == Escaped(value)
  {
    if value != "" {
      SplitJoinEscapes(value[1..]);
      var rest := Split(value[1..], '\'');
      var glue := "'\"'\"'";
      if value[0] == '\'' {
        assert ([""] + rest)[1..] == rest;
        assert "" + glue + Join(rest, glue) == glue + Join(rest, glue);
      } else {
        var parts := [[value[0]] + rest[0]] + rest[1..];
        assert parts[1..] == rest[1..];
        if |rest| > 1 {
          assert [value[0]] + rest[0] + glue + Join(rest[1..], glue) ==
            [value[0]] + (rest[0] + glue + Join(rest[1..], glue));
        }
      }
    }
  }

  /** The quoted text, character by character: only single quotes are written in another way. */
  lemma {:induction false} QuoteByCharacter(c: char, value: string)
    ensures Quote("") == "''"
    ensures Quote([c] + value) == "'" + (if c == '\'' then "'\"'\"'" else [c]) + Quote(value)[1..]
  {
    SplitJoinEscapes("");
    SplitJoinEscapes(value);
    SplitJoinEscapes([c] + value);
    assert ([c] + value)[1..] == value;
    Enclosed(if c == '\'' then "'\"'\"'" else [c], Escaped(value));
  }

  lemma {:induction false} Enclosed(head: string, tail: string)
    ensures "'" + (head + tail) + "'" == "'" + head + ("'" + tail + "'")[1..]
  {
    assert ("'" + tail + "'")[1..] == tail + "'";
  }

  /** Out of the single quotes, a quoted quote, and back in: the reader gains one quote character. */
  lemma {:induction false} ReadsQuotedQuote(rest: string, word: string)
    ensures Words("'\"'\"'" + rest, Single, Some(word)) == Words(rest, Single, Some(word + "'"))
  {
    var s := "'\"'\"'" + rest;
    assert s[1..] == "\"'\"'" + rest;
    assert s[2..] == "'\"'" + rest;
    assert s[3..] == "\"'" + rest;
    assert s[4..] == "'" + rest;
    assert s[5..] == rest;
    calc {
      Words(s, Single, Some(word));
      Words(s[1..], Outside, Some(word));
      { assert s[1..][1..] == s[2..]; }
      Words(s[2..], Double, Some(word));
      { assert s[2..][1..] == s[3..]; }
      Words(s[3..], Double, Some(word + "'"));
      { assert s[3..][1..] == s[4..]; }
      Words(s[4..], Outside, Some(word + "'"));
      { assert s[4..][1..] == rest; }
      Words(rest, Single, Some(word + "'"));
    }
  }

  lemma {:induction false} ReadsEscaped(value: string, word: string, rest: string)
    ensures Words(Escaped(value) + "'" + rest, Single, Some(word)) == Words(rest, Outside, Some(word + value))
    decreases |value|
  {
    if value == "" {
      assert ("" + "'" + rest)[1..] == rest;
      assert word + value == word;
    } else {
      var tail := Escaped(value[1..]) + "'" + rest;
      assert word + [value[0]] + value[1..] == word + value;
      ReadsEscaped(value[1..], word + [value[0]], rest);
      EscapedSplits(value, rest);
      if value[0] == '\'' {
        ReadsQuotedQuote(tail, word);
      } else {
        ReadsPlain(value[0], tail, word);
      }
    }
  }

  lemma {:induction false} EscapedSplits(value: string, rest: string)
    requires value != ""
    ensures Escaped(value) + "'" + rest ==
      (if value[0] == '\'' then "'\"'\"'" else [value[0]]) + (Escaped(value[1..]) + "'" + rest)
  {
  }

  lemma {:induction false} ReadsPlain(c: char, tail: string, word: string)
    requires c != '\''
    ensures Words([c] + tail, Single, Some(word)) == Words(tail, Single, Some(word + [c]))
  {
    assert ([c] + tail)[1..] == tail;
  }

  lemma {:induction false} ReadsQuoted(value: string, rest: string)
    ensures Words(Quote(value) + rest, Outside, None) == Words(rest, Outside, Some(value))
  {
    SplitJoinEscapes(value);
    assert (Quote(value) + rest)[1..] == Escaped(value) + "'" + rest;
    ReadsEscaped(value, "", rest);
    assert "" + value == value;
  }

  /** Every string is read back from its quoted form as exactly one word, itself. */
  lemma {:induction false} QuoteRoundTrip(value: string)
    ensures ReadLine(Quote(value)) == Some([value])
  {
    ReadsQuoted(value, "");
    assert Quote(value) + "" == Quote(value);
  }

  /** In front of more words the quoted form still reads as one word, and the others are not touched. */
  lemma {:induction false} QuotedWordStaysApart(value: string, rest: string, words: seq<string>)
    requires ReadLine(rest) == Some(words)
    ensures ReadLine(Quote(value) + " " + rest) == Some([value] + words)
  {
    ReadsQuoted(value, " " + rest);
    assert Quote(value) + " " + rest == Quote(value) + (" " + rest);
    assert (" " + rest)[1..] == rest;
  }
}
