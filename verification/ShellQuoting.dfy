/** Quoting a path for the shell, and the shell reading it back.

    The reader follows sections 2.2.1 (escape character) and 2.2.2 (single quotes) of
    the POSIX.1-2017 Shell Command Language, and ends a word at an unquoted blank,
    newline or operator. */
module ShellQuoting {
  import opened Text

  const QUOTED_QUOTE := "'\\''"

  function Escape(path: string): string {
    "'" + Replace(path, "'", QUOTED_QUOTE) + "'"
  }

  predicate EndsWord(c: char) { c in " \t\n|&;<>()" }

  /** Characters with an unquoted meaning that the reader does not model. */
  predicate Special(c: char) { c in "$`\"*?[#~=%" }

  /** Read on outside quotes, with `word` already read; the word and the text after it. */
  function Unquoted(s: string, word: string): Option<(string, string)>
    decreases |s|
  {
    if s == "" then Some((word, s))
    else if s[0] == '\'' then SingleQuoted(s[1..], word)
    else if s[0] == '\\' then
      if |s| == 1 then None
      else if s[1] == '\n' then Unquoted(s[2..], word)
      else Unquoted(s[2..], word + [s[1]])
    else if EndsWord(s[0]) then Some((word, s))
    else if Special(s[0]) then None
    else Unquoted(s[1..], word + [s[0]])
  }

  function SingleQuoted(s: string, word: string): Option<(string, string)>
    decreases |s|
  {
    if s == "" then None
    else if s[0] == '\'' then Unquoted(s[1..], word)
    else SingleQuoted(s[1..], word + [s[0]])
  }

  lemma {:induction false} ReadPlain(c: char, tail: string, word: string)
    requires c != '\''
    ensures SingleQuoted([c] + tail, word) == SingleQuoted(tail, word + [c])
  {
    assert ([c] + tail)[1..] == tail;
  }

  /** Closing the quote, an escaped quote, and opening again reads as one quote. */
  lemma {:induction false} ReadQuote(tail: string, word: string)
    ensures SingleQuoted(QUOTED_QUOTE + tail, word) == SingleQuoted(tail, word + ['\''])
  {
    var s, reopened := QUOTED_QUOTE + tail, "'" + tail;
    assert s[1..] == "\\'" + reopened;
    assert s[1..][2..] == reopened;
    assert reopened[1..] == tail;
    assert Unquoted(reopened, word + ['\'']) == SingleQuoted(tail, word + ['\'']);
    assert Unquoted(s[1..], word) == Unquoted(reopened, word + ['\'']);
  }

  function Quote(c: char): string { if c == '\'' then QUOTED_QUOTE else [c] }

  lemma ReadStep(c: char, tail: string, word: string)
    ensures SingleQuoted(Quote(c) + tail, word) == SingleQuoted(tail, word + [c])
  {
    if c == '\'' {
      ReadQuote(tail, word);
    } else {
      ReadPlain(c, tail, word);
    }
  }

  lemma {:induction false} ReadEnd(rest: string, word: string)
    requires rest == "" || EndsWord(rest[0])
    ensures SingleQuoted("'" + rest, word) == Some((word, rest))
  {
    assert ("'" + rest)[1..] == rest;
  }

  lemma {:induction false} ReadBody(path: string, end: string, word: string)
    ensures SingleQuoted(Replace(path, "'", QUOTED_QUOTE) + end, word) == SingleQuoted(end, word + path)
    decreases |path|
  {
    if path == "" {
      assert Replace(path, "'", QUOTED_QUOTE) + end == end;
      assert word + path == word;
    } else {
      var c := path[0];
      ReplaceChar(path, '\'', QUOTED_QUOTE);
      var body := Replace(path[1..], "'", QUOTED_QUOTE);
      ReadBody(path[1..], end, word + [c]);
      assert word + [c] + path[1..] == word + path;
      assert Quote(c) + body + end == Quote(c) + (body + end);
      ReadStep(c, body + end, word);
    }
  }

  /** A quoted path is read back as one word, the path itself, wherever it stands in a command. */
  lemma {:induction false} ReadsBack(path: string, rest: string)
    requires rest == "" || EndsWord(rest[0])
    ensures Unquoted(Escape(path) + rest, "") == Some((path, rest))
  {
    var s := Escape(path) + rest;
    assert s[1..] == Replace(path, "'", QUOTED_QUOTE) + ("'" + rest);
    ReadBody(path, "'" + rest, "");
    ReadEnd(rest, path);
    assert "" + path == path;
  }
}
