/** Lines of a text: taken apart as `str::lines` does it, and put together. */
module Lines {
  import opened Text

  function StripCr(s: string): string {
    if s != "" && s[|s| - 1] == '\r' then s[..|s| - 1] else s
  }

  /** `str::lines`. */
  function StrLines(s: string): seq<string>
    decreases |s|
  {
    match Find(s, "\n")
    case None => if s == "" then [] else [s]
    case Some(i) => [StripCr(s[..i])] + StrLines(s[i + 1..])
  }

  function Unlines(lines: seq<string>): string {
    if lines == [] then "" else lines[0] + "\n" + Unlines(lines[1..])
  }

  lemma {:induction false} UnlinesConcat(a: seq<string>, b: seq<string>)
    ensures Unlines(a + b) == Unlines(a) + Unlines(b)
  {
    if a == [] {
      assert a + b == b;
    } else {
      UnlinesConcat(a[1..], b);
      assert (a + b)[1..] == a[1..] + b;
    }
  }

  lemma UnlinesSnoc(lines: seq<string>, line: string)
    ensures Unlines(lines + [line]) == Unlines(lines) + line + "\n"
  {
    UnlinesConcat(lines, [line]);
    assert [line][1..] == [] && Unlines([line]) == line + "\n";
  }

  function Stripped(lines: seq<string>): seq<string> {
    if lines == [] then [] else [StripCr(lines[0])] + Stripped(lines[1..])
  }

  lemma {:induction false} LinesOfUnlines(lines: seq<string>)
    requires forall l :: l in lines ==> '\n' !in l
    ensures StrLines(Unlines(lines)) == Stripped(lines)
  {
    if lines != [] {
      var line, rest := lines[0], Unlines(lines[1..]);
      LinesOfUnlines(lines[1..]);
      NewlineEnds(line, rest);
    }
  }

  lemma {:induction false} NewlineEnds(line: string, rest: string)
    requires '\n' !in line
    ensures StrLines(line + "\n" + rest) == [StripCr(line)] + StrLines(rest)
  {
    var s := line + "\n" + rest;
    MatchBetween(line, "\n", rest);
    forall j | 0 <= j < |line| ensures !MatchAt(s, "\n", j) {
      assert s[j..j + 1] == [line[j]];
    }
    FindIs(s, "\n", |line|);
    assert s[..|line|] == line && s[|line| + 1..] == rest;
  }

  lemma {:induction false} StrLinesClean(s: string)
    ensures forall l :: l in StrLines(s) ==> '\n' !in l
    decreases |s|
  {
    var found := Find(s, "\n");
    if found.Some? {
      StrLinesClean(s[found.value + 1..]);
      BeforeFirstMatch(s, "\n", found.value);
      OccursChar(s[..found.value], '\n');
    } else {
      OccursChar(s, '\n');
    }
  }
}
