/** Grouping the lines of a memory document into entries. */
module MemoryEntries {
  import opened Lines
  import opened Text
  import opened Trimming

  /** A bullet or paragraph with its wrapped or nested lines, and the heading it sits under. */
  datatype MemoryEntry = MemoryEntry(heading: Option<string>, lines: seq<string>)

  predicate IsDigit(c: char) { '0' <= c <= '9' }

  function AfterDigits(line: string): string {
    if line != "" && IsDigit(line[0]) then AfterDigits(line[1..]) else line
  }

  predicate StartsItem(line: string) {
    var rest := AfterDigits(line);
    || StartsWith(line, "- ") || StartsWith(line, "* ") || StartsWith(line, "+ ")
    || (|rest| < |line| && (StartsWith(rest, ". ") || StartsWith(rest, ") ")))
  }

  predicate IsBlank(line: string) { Trim(line) == "" }
  predicate IsHeading(line: string) { StartsWith(Trim(line), "#") }
  predicate IsContent(line: string) { !IsBlank(line) && !IsHeading(line) }

  /** A content line, the heading over it, and whether an entry begins with it. */
  datatype Placed = Placed(heading: Option<string>, line: string, first: bool)

  /** The heading in force after some lines. */
  function LatestHeading(lines: seq<string>): Option<string> {
    if lines == [] then None
    else if IsHeading(lines[|lines| - 1]) then Some(Trim(lines[|lines| - 1]))
    else LatestHeading(lines[..|lines| - 1])
  }

  /** Where every content line belongs, read off the document line by line. */
  function Placement(lines: seq<string>): seq<Placed> {
    if lines == [] then []
    else
      var before, line := lines[..|lines| - 1], lines[|lines| - 1];
      Placement(before) +
      if !IsContent(line) then []
      else [Placed(LatestHeading(before), line,
                   StartsItem(line) || before == [] || !IsContent(before[|before| - 1]))]
  }

  function PlacedLines(heading: Option<string>, lines: seq<string>): seq<Placed> {
    if lines == [] then []
    else PlacedLines(heading, lines[..|lines| - 1]) + [Placed(heading, lines[|lines| - 1], |lines| == 1)]
  }

  /** The lines of some entries, in order. */
  function Flatten(entries: seq<MemoryEntry>): seq<Placed> {
    if entries == [] then []
    else Flatten(entries[..|entries| - 1]) + PlacedLines(entries[|entries| - 1].heading, entries[|entries| - 1].lines)
  }

  lemma FlattenOpen(entries: seq<MemoryEntry>, heading: Option<string>, line: string)
    ensures Flatten(entries + [MemoryEntry(heading, [line])]) == Flatten(entries) + [Placed(heading, line, true)]
  {
    var e := MemoryEntry(heading, [line]);
    assert (entries + [e])[..|entries|] == entries;
    assert PlacedLines(heading, [line][..0]) == [];
  }

  lemma FlattenExtend(entries: seq<MemoryEntry>, last: MemoryEntry, line: string)
    requires entries != [] && last == entries[|entries| - 1] && last.lines != []
    ensures Flatten(entries[|entries| - 1 := last.(lines := last.lines + [line])])
         == Flatten(entries) + [Placed(last.heading, line, false)]
  {
    var n := |entries| - 1;
    var longer := last.(lines := last.lines + [line]);
    assert entries[n := longer][..n] == entries[..n];
    assert longer.lines[..|longer.lines| - 1] == last.lines;
  }

  predicate AllDigits(s: string) { forall c :: c in s ==> '0' <= c <= '9' }

  lemma {:induction false} DigitsTaken(digits: string, rest: string)
    requires AllDigits(digits) && (rest != "" ==> !IsDigit(rest[0]))
    ensures AfterDigits(digits + rest) == rest
  {
    if digits == "" {
      assert digits + rest == rest;
    } else {
      assert digits[0] in digits && (digits + rest)[1..] == digits[1..] + rest;
      assert forall c :: c in digits[1..] ==> c in digits;
      DigitsTaken(digits[1..], rest);
    }
  }

  lemma {:induction false} DigitsGiven(line: string) returns (digits: string)
    ensures AllDigits(digits) && line == digits + AfterDigits(line)
  {
    digits := "";
    if line != "" && IsDigit(line[0]) {
      var more := DigitsGiven(line[1..]);
      digits := [line[0]] + more;
      assert line == [line[0]] + line[1..];
    }
  }

  /** A line that a marker and a space begin: a bullet, or a number with a dot or a bracket. */
  ghost predicate Marked(line: string, marker: string, rest: string) {
    && line == marker + " " + rest
    && (marker in {"-", "*", "+"} || (|marker| >= 2 && AllDigits(marker[..|marker| - 1])
                                      && marker[|marker| - 1] in {'.', ')'}))
  }

  lemma NumberMarked(line: string, marker: string, rest: string)
    requires |marker| >= 2 && Marked(line, marker, rest)
    ensures StartsItem(line)
  {
    var digits, tail := marker[..|marker| - 1], [marker[|marker| - 1], ' '] + rest;
    assert line == digits + tail;
    DigitsTaken(digits, tail);
    assert tail[..2] == [marker[|marker| - 1], ' '];
  }

  lemma BulletMarked(line: string, marker: string)
    requires marker in {"-", "*", "+"}
    ensures StartsWith(line, marker + " ") <==> exists rest :: line == marker + " " + rest
  {
    if StartsWith(line, marker + " ") {
      assert line == marker + " " + line[2..];
    }
  }

  lemma NumberGiven(line: string) returns (marker: string, rest: string)
    requires var after := AfterDigits(line);
             |after| < |line| && (StartsWith(after, ". ") || StartsWith(after, ") "))
    ensures Marked(line, marker, rest)
  {
    var after := AfterDigits(line);
    var digits := DigitsGiven(line);
    marker, rest := digits + after[..1], after[2..];
    assert marker[..|marker| - 1] == digits;
    assert after == after[..1] + " " + rest;
  }

  /** An item starts with a marker. */
  lemma StartsItemIs(line: string)
    ensures StartsItem(line) <==> exists marker, rest :: Marked(line, marker, rest)
  {
    BulletMarked(line, "-");
    BulletMarked(line, "*");
    BulletMarked(line, "+");
    var after := AfterDigits(line);
    if |after| < |line| && (StartsWith(after, ". ") || StartsWith(after, ") ")) {
      var marker, rest := NumberGiven(line);
    } else if StartsItem(line) {
      var marker := if StartsWith(line, "- ") then "-" else if StartsWith(line, "* ") then "*" else "+";
      var rest :| line == marker + " " + rest;
      assert Marked(line, marker, rest);
    }
    if marker, rest :| Marked(line, marker, rest) {
      if |marker| >= 2 {
        NumberMarked(line, marker, rest);
      }
    }
  }

  /** A blank line is white space, a heading has a hash behind white space. */
  lemma LineKinds(line: string)
    ensures IsBlank(line) <==> AllWhite(line)
    ensures IsHeading(line) <==> exists a, b :: AllWhite(a) && line == a + "#" + b
  {
    var a, b := TrimParts(line);
    if Trim(line) == "" {
      assert line == a + b;
    }
    if AllWhite(line) {
      TrimIs(line, "", "");
      assert line + "" + "" == line;
    }
    if StartsWith(Trim(line), "#") {
      assert line == a + "#" + (Trim(line)[1..] + b);
    }
    if x, y :| AllWhite(x) && line == x + "#" + y {
      HashTrimmed(line, x, y);
    }
  }

  lemma HashTrimmed(line: string, x: string, y: string)
    requires AllWhite(x) && line == x + "#" + y
    ensures StartsWith(Trim(line), "#")
  {
    var tail := "#" + y;
    assert line == x + tail;
    TrimStartIs(x, tail);
    var b := TrimEndParts(tail);
    assert !AllWhite(tail) by {
      assert tail[0] in tail && !IsWhitespace('#');
    }
    assert tail == TrimEnd(tail) + b;
  }

  /** Line `i` is a heading, and the last one. */
  ghost predicate LastHeading(lines: seq<string>, i: nat, heading: string) {
    && i < |lines| && IsHeading(lines[i]) && heading == Trim(lines[i])
    && forall j :: i < j < |lines| ==> !IsHeading(lines[j])
  }

  lemma LastHeadingNext(lines: seq<string>, line: string, i: nat, heading: string)
    requires LastHeading(lines, i, heading)
    ensures !IsHeading(line) ==> LastHeading(lines + [line], i, heading)
  {
  }

  /** The heading in force is the last one so far. */
  lemma {:induction false} LatestHeadingIs(lines: seq<string>)
    ensures LatestHeading(lines).None? ==> forall i :: 0 <= i < |lines| ==> !IsHeading(lines[i])
    ensures LatestHeading(lines).Some? ==> exists i: nat :: LastHeading(lines, i, LatestHeading(lines).value)
    decreases |lines|
  {
    if lines != [] {
      var n := |lines| - 1;
      if IsHeading(lines[n]) {
        assert LatestHeading(lines) == Some(Trim(lines[n]));
        assert LastHeading(lines, n, LatestHeading(lines).value);
      } else {
        LatestHeadingIs(lines[..n]);
        assert lines == lines[..n] + [lines[n]];
        if LatestHeading(lines[..n]).Some? {
          var heading := LatestHeading(lines[..n]).value;
          var i: nat :| LastHeading(lines[..n], i, heading);
          LastHeadingNext(lines[..n], lines[n], i, heading);
        }
      }
    }
  }

  /** Line `i` is content, and placed under the heading in force; an entry begins with it if
      an item starts there, or no content stands in the line before. */
  ghost predicate PlacedHere(lines: seq<string>, p: Placed, i: nat) {
    && i < |lines| && IsContent(lines[i])
    && p.line == lines[i] && p.heading == LatestHeading(lines[..i])
    && (p.first <==> StartsItem(lines[i]) || i == 0 || !IsContent(lines[i - 1]))
  }

  /** `placed` are the content lines of the document, all of them and in order. */
  ghost predicate PlacedAt(lines: seq<string>, placed: seq<Placed>, at: seq<nat>) {
    && |at| == |placed|
    && (forall k :: 0 <= k < |at| ==> PlacedHere(lines, placed[k], at[k]))
    && (forall k, l :: 0 <= k < l < |at| ==> at[k] < at[l])
    && (forall i: nat :: i < |lines| && IsContent(lines[i]) ==> i in at)
  }

  lemma StillHere(lines: seq<string>, line: string, p: Placed, i: nat)
    requires PlacedHere(lines, p, i)
    ensures PlacedHere(lines + [line], p, i)
  {
    assert (lines + [line])[..i] == lines[..i];
  }

  lemma PlacedNext(lines: seq<string>, line: string, placed: seq<Placed>, at: seq<nat>)
    requires PlacedAt(lines, placed, at) && !IsContent(line)
    ensures PlacedAt(lines + [line], placed, at)
  {
    forall k | 0 <= k < |at| ensures PlacedHere(lines + [line], placed[k], at[k]) {
      StillHere(lines, line, placed[k], at[k]);
    }
  }

  lemma ContentNext(lines: seq<string>, line: string, placed: seq<Placed>, at: seq<nat>, p: Placed)
    requires PlacedAt(lines, placed, at) && PlacedHere(lines + [line], p, |lines|)
    ensures PlacedAt(lines + [line], placed + [p], at + [|lines|])
  {
    forall k | 0 <= k < |at| ensures PlacedHere(lines + [line], placed[k], at[k]) {
      StillHere(lines, line, placed[k], at[k]);
    }
    forall i: nat | i < |lines + [line]| && IsContent((lines + [line])[i]) ensures i in at + [|lines|] {
      assert i < |lines| ==> i in at;
    }
  }

  function PlacedBehind(before: seq<string>, line: string): Placed {
    Placed(LatestHeading(before), line, StartsItem(line) || before == [] || !IsContent(before[|before| - 1]))
  }

  lemma PlacementNext(before: seq<string>, line: string)
    ensures Placement(before + [line]) ==
            if IsContent(line) then Placement(before) + [PlacedBehind(before, line)] else Placement(before)
    ensures IsContent(line) ==> PlacedHere(before + [line], PlacedBehind(before, line), |before|)
  {
    assert (before + [line])[..|before|] == before;
  }

  lemma {:induction false} PlacementIs(lines: seq<string>) returns (at: seq<nat>)
    ensures PlacedAt(lines, Placement(lines), at)
    decreases |lines|
  {
    at := [];
    if lines != [] {
      var n := |lines| - 1;
      var before, line := lines[..n], lines[n];
      assert lines == before + [line];
      at := PlacementIs(before);
      PlacementNext(before, line);
      if IsContent(line) {
        ContentNext(before, line, Placement(before), at, PlacedBehind(before, line));
        at := at + [n];
      } else {
        PlacedNext(before, line, Placement(before), at);
      }
    }
  }

  /** `entries` are those of `lines`, and the last one is open if a line may still join it. */
  ghost predicate Grouped(lines: seq<string>, entries: seq<MemoryEntry>, heading: Option<string>, open: bool) {
    && Flatten(entries) == Placement(lines)
    && (forall e :: e in entries ==> e.lines != [])
    && heading == LatestHeading(lines)
    && (open <==> lines != [] && IsContent(lines[|lines| - 1]))
    && (open ==> entries != [] && entries[|entries| - 1].heading == heading)
  }

  lemma NoContentGrouped(lines: seq<string>, entries: seq<MemoryEntry>, heading: Option<string>, open: bool,
                         line: string)
    requires Grouped(lines, entries, heading, open) && !IsContent(line)
    ensures Grouped(lines + [line], entries, if IsHeading(line) then Some(Trim(line)) else heading, false)
  {
    assert (lines + [line])[..|lines|] == lines;
    assert Placement(lines) + [] == Placement(lines);
  }

  lemma ContinuedGrouped(lines: seq<string>, entries: seq<MemoryEntry>, heading: Option<string>, line: string)
    requires Grouped(lines, entries, heading, true) && IsContent(line) && !StartsItem(line)
    ensures var last := entries[|entries| - 1];
            Grouped(lines + [line], entries[|entries| - 1 := last.(lines := last.lines + [line])], heading, true)
  {
    var last := entries[|entries| - 1];
    assert (lines + [line])[..|lines|] == lines;
    assert last in entries;
    FlattenExtend(entries, last, line);
  }

  lemma OpenedGrouped(lines: seq<string>, entries: seq<MemoryEntry>, heading: Option<string>, open: bool, line: string)
    requires Grouped(lines, entries, heading, open) && IsContent(line) && !(open && !StartsItem(line))
    ensures Grouped(lines + [line], entries + [MemoryEntry(heading, [line])], heading, true)
  {
    assert (lines + [line])[..|lines|] == lines;
    FlattenOpen(entries, heading, line);
  }

  /** Entries hold exactly the content lines, in order, each under its heading. */
  method Entries(content: string) returns (entries: seq<MemoryEntry>)
    ensures Flatten(entries) == Placement(StrLines(content))
    ensures forall e :: e in entries ==> e.lines != []
  {
    var lines := StrLines(content);
    entries := [];
    var heading: Option<string> := None;
    var open := false;
    for n := 0 to |lines|
      invariant Grouped(lines[..n], entries, heading, open)
    {
      var line := lines[n];
      assert lines[..n + 1] == lines[..n] + [line];
      var trimmed := Trim(line);
      if trimmed == "" {
        NoContentGrouped(lines[..n], entries, heading, open, line);
        open := false;
      } else if StartsWith(trimmed, "#") {
        NoContentGrouped(lines[..n], entries, heading, open, line);
        heading := Some(trimmed);
        open := false;
      } else if open && !StartsItem(line) {
        ContinuedGrouped(lines[..n], entries, heading, line);
        var last := entries[|entries| - 1];
        entries := entries[|entries| - 1 := last.(lines := last.lines + [line])];
      } else {
        OpenedGrouped(lines[..n], entries, heading, open, line);
        entries := entries + [MemoryEntry(heading, [line])];
        open := true;
      }
    }
    assert lines[..|lines|] == lines;
  }

  /** The grouping is determined by where the lines belong. */
  lemma {:induction false} GroupingIsUnique(a: seq<MemoryEntry>, b: seq<MemoryEntry>)
    requires Flatten(a) == Flatten(b)
    requires (forall e :: e in a ==> e.lines != []) && (forall e :: e in b ==> e.lines != [])
    ensures a == b
    decreases |a|
  {
    if a == [] {
      if b != [] {
        FlattenNonempty(b);
      }
    } else {
      var e := a[|a| - 1];
      assert e in a;
      assert b != [];
      var f := b[|b| - 1];
      assert f in b;
      LastGroup(Flatten(a[..|a| - 1]), e, Flatten(b[..|b| - 1]), f);
      GroupingIsUnique(a[..|a| - 1], b[..|b| - 1]);
    }
  }

  lemma FlattenNonempty(entries: seq<MemoryEntry>)
    requires entries != [] && forall e :: e in entries ==> e.lines != []
    ensures Flatten(entries) != []
  {
    assert entries[|entries| - 1] in entries;
  }

  lemma {:induction false} LastGroup(p: seq<Placed>, e: MemoryEntry, q: seq<Placed>, f: MemoryEntry)
    requires e.lines != [] && f.lines != []
    requires p + PlacedLines(e.heading, e.lines) == q + PlacedLines(f.heading, f.lines)
    ensures e == f && p == q
    decreases |e.lines|
  {
    var ei, fi := e.lines[..|e.lines| - 1], f.lines[..|f.lines| - 1];
    var el, fl := e.lines[|e.lines| - 1], f.lines[|f.lines| - 1];
    var x, y := Placed(e.heading, el, |e.lines| == 1), Placed(f.heading, fl, |f.lines| == 1);
    SnocBehind(p, PlacedLines(e.heading, ei), x);
    SnocBehind(q, PlacedLines(f.heading, fi), y);
    SnocSame(p + PlacedLines(e.heading, ei), x, q + PlacedLines(f.heading, fi), y);
    assert e.lines == ei + [el] && f.lines == fi + [fl];
    if ei == [] {
      assert p + [] == p && q + [] == q;
    } else {
      LastGroup(p, MemoryEntry(e.heading, ei), q, MemoryEntry(f.heading, fi));
    }
  }

  lemma SnocBehind<T>(p: seq<T>, s: seq<T>, x: T)
    ensures p + (s + [x]) == p + s + [x]
  {
  }

  lemma SnocSame<T>(s: seq<T>, x: T, t: seq<T>, y: T)
    requires s + [x] == t + [y]
    ensures s == t && x == y
  {
    assert (s + [x])[|s|] == x && (t + [y])[|t|] == y;
    assert (s + [x])[..|s|] == s && (t + [y])[..|t|] == t;
  }
}

/** Ranking memory entries with BM25, in exact arithmetic. */
module MemorySearch {
  import opened Counting
  import opened Lines
  import opened MemoryEntries
  import opened Text

  const K1 := 1.2
  const B := 0.75

  predicate TermMatches(term: string, word: string) {
    if |term| >= 3 then Find(word, term).Some? else word == term
  }

  function Frequency(term: string, words: seq<string>): nat {
    if words == [] then 0
    else Frequency(term, words[1..]) + if TermMatches(term, words[0]) then 1 else 0
  }

  /** How many entries contain a term. */
  function Containing(term: string, entryWords: seq<seq<string>>): nat {
    if entryWords == [] then 0
    else Containing(term, entryWords[1..]) + if Frequency(term, entryWords[0]) > 0 then 1 else 0
  }

  function TotalWords(entryWords: seq<seq<string>>): nat {
    if entryWords == [] then 0 else |entryWords[0]| + TotalWords(entryWords[1..])
  }

  /** A logarithm, as far as ranking needs one. */
  ghost predicate Logarithm(ln: real -> real) { forall x :: x > 1.0 ==> ln(x) > 0.0 }

  function Idf(term: string, entryWords: seq<seq<string>>, ln: real -> real): real {
    var containing := Containing(term, entryWords) as real;
    ln(1.0 + (|entryWords| as real - containing + 0.5) / (containing + 0.5))
  }

  /** The average entry length, but at least one word. */
  function AverageLength(entryWords: seq<seq<string>>): (r: real)
    ensures r >= 1.0
  {
    if entryWords == [] then 1.0
    else
      var average := TotalWords(entryWords) as real / |entryWords| as real;
      if average > 1.0 then average else 1.0
  }

  function Norm(length: nat, average: real): (r: real)
    requires average >= 1.0
    ensures r > 0.0
  {
    Quotient(length as real, average);
    K1 * (1.0 - B + B * (length as real / average))
  }

  lemma Quotient(a: real, b: real)
    requires b > 0.0
    ensures a >= 0.0 ==> a / b >= 0.0
    ensures a > 0.0 ==> a / b > 0.0
  {
  }

  lemma Product(a: real, b: real)
    requires a > 0.0 && b > 0.0
    ensures a * b > 0.0
  {
  }

  /** What one term adds to the score of an entry. */
  function TermScore(idf: real, frequency: nat, norm: real): real
    requires norm > 0.0
  {
    if frequency == 0 then 0.0
    else idf * frequency as real * (K1 + 1.0) / (frequency as real + norm)
  }

  function Score(terms: seq<string>, words: seq<string>, entryWords: seq<seq<string>>, ln: real -> real): real {
    if terms == [] then 0.0
    else
      var last := terms[|terms| - 1];
      Score(terms[..|terms| - 1], words, entryWords, ln)
      + TermScore(Idf(last, entryWords, ln), Frequency(last, words), Norm(|words|, AverageLength(entryWords)))
  }

  /** The score of an entry, twice as high when it holds the whole phrase of several terms. */
  function EntryScore(terms: seq<string>, words: seq<string>, entryWords: seq<seq<string>>, body: string,
                      phrase: string, ln: real -> real): real
  {
    var score := Score(terms, words, entryWords, ln);
    if |terms| > 1 && Find(body, phrase).Some? then score * 2.0 else score
  }

  lemma {:induction false} ContainingBound(term: string, entryWords: seq<seq<string>>)
    ensures Containing(term, entryWords) <= |entryWords|
  {
    if entryWords != [] {
      ContainingBound(term, entryWords[1..]);
    }
  }

  lemma IdfPositive(term: string, entryWords: seq<seq<string>>, ln: real -> real)
    requires Logarithm(ln)
    ensures Idf(term, entryWords, ln) > 0.0
  {
    ContainingBound(term, entryWords);
    var containing := Containing(term, entryWords) as real;
    Quotient(|entryWords| as real - containing + 0.5, containing + 0.5);
  }

  lemma TermScorePositive(idf: real, frequency: nat, norm: real)
    requires idf > 0.0 && norm > 0.0
    ensures TermScore(idf, frequency, norm) >= 0.0
    ensures TermScore(idf, frequency, norm) > 0.0 <==> frequency > 0
  {
    if frequency > 0 {
      Product(idf, frequency as real);
      Product(idf * frequency as real, K1 + 1.0);
      Quotient(idf * frequency as real * (K1 + 1.0), frequency as real + norm);
    }
  }

  /** An entry scores above zero exactly when one of the terms matches one of its words. */
  lemma {:induction false} PositiveScore(terms: seq<string>, words: seq<string>, entryWords: seq<seq<string>>,
      ln: real -> real)
    requires Logarithm(ln)
    ensures Score(terms, words, entryWords, ln) >= 0.0
    ensures Score(terms, words, entryWords, ln) > 0.0 <==>
            exists t, w :: t in terms && w in words && TermMatches(t, w)
    decreases |terms|
  {
    if terms != [] {
      var init, last := terms[..|terms| - 1], terms[|terms| - 1];
      assert terms == init + [last];
      PositiveScore(init, words, entryWords, ln);
      IdfPositive(last, entryWords, ln);
      FrequencyPositive(last, words);
      TermScorePositive(Idf(last, entryWords, ln), Frequency(last, words), Norm(|words|, AverageLength(entryWords)));
    }
  }

  lemma {:induction false} FrequencyPositive(term: string, words: seq<string>)
    ensures Frequency(term, words) > 0 <==> exists w :: w in words && TermMatches(term, w)
  {
    if words != [] {
      FrequencyPositive(term, words[1..]);
      assert words == [words[0]] + words[1..];
    }
  }

  // ---------------------------------------------------------------- what makes a score higher

  /** A strictly increasing logarithm. */
  ghost predicate Increasing(ln: real -> real) { forall x, y :: 1.0 < x < y ==> ln(x) < ln(y) }

  /** A term is contained in a longer word, or is the word; short terms must be the word. */
  lemma TermMatchesIs(term: string, word: string)
    ensures TermMatches(term, word) <==>
            if |term| >= 3 then exists a, b :: word == a + term + b else word == term
  {
    if i :| MatchAt(word, term, i) {
      assert word == word[..i] + term + word[i + |term|..];
    }
    if a, b :| word == a + term + b {
      MatchBetween(a, term, b);
    }
  }

  /** The frequency of a term is the number of words it matches. */
  lemma {:induction false} FrequencyIs(term: string, words: seq<string>)
    ensures Frequency(term, words) == |Indices(words, w => TermMatches(term, w))|
  {
    if words != [] {
      FrequencyIs(term, words[1..]);
      FirstIndex(words, w => TermMatches(term, w));
    }
  }

  ghost predicate Holds(words: seq<string>, term: string) { exists w :: w in words && TermMatches(term, w) }

  /** How many entries contain a term is the number of those with a word it matches. */
  lemma {:induction false} ContainingIs(term: string, entryWords: seq<seq<string>>)
    ensures Containing(term, entryWords) == |Indices(entryWords, words => Holds(words, term))|
  {
    if entryWords != [] {
      ContainingIs(term, entryWords[1..]);
      FrequencyPositive(term, entryWords[0]);
      FirstIndex(entryWords, words => Holds(words, term));
    }
  }

  lemma QuotientIs(a: real, b: real, q: real)
    requires b > 0.0 && a == q * b
    ensures a / b == q
  {
  }

  lemma QuotientTimes(a: real, b: real)
    requires b > 0.0
    ensures a / b * b == a
  {
  }

  lemma TimesGrows(x: real, y: real, a: real)
    requires x <= y && a >= 0.0
    ensures x * a <= y * a
  {
  }

  lemma TimesLess(x: real, a: real, b: real)
    requires x > 0.0 && a < b
    ensures x * a < x * b
  {
  }

  lemma Smaller(a: real, c: real, d: real)
    requires a > 0.0 && 0.0 < c < d
    ensures a / d < a / c
  {
    QuotientTimes(a, c);
    QuotientTimes(a, d);
    Quotient(a, d);
    TimesLess(a / d, c, d);
    if a / d >= a / c {
      TimesGrows(a / c, a / d, c);
    }
  }

  /** Of two terms, the one that fewer entries hold weighs more. */
  lemma RarerWeighsMore(t: string, u: string, entryWords: seq<seq<string>>, ln: real -> real)
    requires Increasing(ln) && Containing(t, entryWords) < Containing(u, entryWords)
    ensures Idf(t, entryWords, ln) > Idf(u, entryWords, ln)
  {
    var n, c, d := |entryWords| as real, Containing(t, entryWords) as real, Containing(u, entryWords) as real;
    ContainingBound(u, entryWords);
    ShareOfHalf(n, c, d);
  }

  lemma ShareOfHalf(n: real, c: real, d: real)
    requires 0.0 <= c < d <= n
    ensures 1.0 < 1.0 + (n - d + 0.5) / (d + 0.5) < 1.0 + (n - c + 0.5) / (c + 0.5)
  {
    Smaller(n + 1.0, c + 0.5, d + 0.5);
    Quotient(n - d + 0.5, d + 0.5);
    LessOne(n + 1.0, c + 0.5);
    LessOne(n + 1.0, d + 0.5);
  }

  lemma LessOne(a: real, b: real)
    requires b > 0.0
    ensures (a - b) / b == a / b - 1.0
  {
    QuotientTimes(a, b);
    QuotientIs(a - b, b, a / b - 1.0);
  }

  /** What a term gives, as what it would give in the limit less a share that shrinks. */
  lemma Saturation(k: real, f: real, n: real)
    requires f + n > 0.0
    ensures k * f / (f + n) == k - k * n / (f + n)
  {
    var x := k * n / (f + n);
    QuotientTimes(k * n, f + n);
    assert (k - x) * (f + n) == k * f + k * n - x * (f + n);
    QuotientIs(k * f, f + n, k - x);
  }

  lemma MoreMatches(idf: real, f: nat, g: nat, norm: real)
    requires idf > 0.0 && norm > 0.0 && f < g
    ensures TermScore(idf, f, norm) < TermScore(idf, g, norm)
  {
    if f == 0 {
      TermScorePositive(idf, g, norm);
    } else {
      var k := idf * (K1 + 1.0);
      Product(idf, K1 + 1.0);
      Product(k, norm);
      assert idf * f as real * (K1 + 1.0) == k * f as real && idf * g as real * (K1 + 1.0) == k * g as real;
      Saturation(k, f as real, norm);
      Saturation(k, g as real, norm);
      Smaller(k * norm, f as real + norm, g as real + norm);
    }
  }

  lemma LongerCounts(m: nat, n: nat, average: real)
    requires m < n && average >= 1.0
    ensures Norm(m, average) < Norm(n, average)
  {
    var x, y := m as real / average, n as real / average;
    QuotientTimes(m as real, average);
    QuotientTimes(n as real, average);
    if x >= y {
      TimesGrows(y, x, average);
    }
  }

  lemma FewerWords(idf: real, f: nat, norm: real, norm': real)
    requires idf > 0.0 && 0.0 < norm < norm' && f > 0
    ensures TermScore(idf, f, norm) > TermScore(idf, f, norm')
  {
    Product(idf, f as real);
    Product(idf * f as real, K1 + 1.0);
    Smaller(idf * f as real * (K1 + 1.0), f as real + norm, f as real + norm');
  }

  lemma Weighted(idf: real, f: real, k: real, d: real)
    requires d > 0.0
    ensures idf * f * k / d == idf * (f * k / d)
  {
    var c := f * k / d;
    QuotientTimes(f * k, d);
    Regrouped(idf, f, k);
    Regrouped(idf, c, d);
    QuotientIs(idf * f * k, d, idf * c);
  }

  lemma Regrouped(a: real, b: real, c: real)
    ensures a * b * c == a * (b * c)
  {
  }

  lemma HeavierTerm(idf: real, idf': real, f: nat, norm: real)
    requires idf < idf' && norm > 0.0 && f > 0
    ensures TermScore(idf, f, norm) < TermScore(idf', f, norm)
  {
    var d := f as real + norm;
    var c := f as real * (K1 + 1.0) / d;
    Product(f as real, K1 + 1.0);
    Quotient(f as real * (K1 + 1.0), d);
    Weighted(idf, f as real, K1 + 1.0, d);
    Weighted(idf', f as real, K1 + 1.0, d);
    TimesLess(c, idf, idf');
  }

  /** What a term adds to the score of an entry with these words. */
  function Gives(term: string, words: seq<string>, entryWords: seq<seq<string>>, ln: real -> real): real {
    TermScore(Idf(term, entryWords, ln), Frequency(term, words), Norm(|words|, AverageLength(entryWords)))
  }

  lemma ScoreLast(terms: seq<string>, words: seq<string>, entryWords: seq<seq<string>>, ln: real -> real)
    requires terms != []
    ensures Score(terms, words, entryWords, ln) ==
            Score(terms[..|terms| - 1], words, entryWords, ln) + Gives(terms[|terms| - 1], words, entryWords, ln)
  {
  }

  ghost predicate NoLess(terms: seq<string>, a: seq<string>, b: seq<string>, entryWords: seq<seq<string>>,
                         ln: real -> real)
  {
    forall t :: t in terms ==> Gives(t, a, entryWords, ln) <= Gives(t, b, entryWords, ln)
  }

  lemma NoLessInit(terms: seq<string>, a: seq<string>, b: seq<string>, entryWords: seq<seq<string>>, ln: real -> real)
    requires terms != [] && NoLess(terms, a, b, entryWords, ln)
    ensures NoLess(terms[..|terms| - 1], a, b, entryWords, ln)
    ensures Gives(terms[|terms| - 1], a, entryWords, ln) <= Gives(terms[|terms| - 1], b, entryWords, ln)
  {
    assert terms[|terms| - 1] in terms;
    assert forall t :: t in terms[..|terms| - 1] ==> t in terms;
  }

  lemma {:induction false} ScoreNoLess(terms: seq<string>, a: seq<string>, b: seq<string>,
                                       entryWords: seq<seq<string>>, ln: real -> real)
    requires NoLess(terms, a, b, entryWords, ln)
    ensures Score(terms, a, entryWords, ln) <= Score(terms, b, entryWords, ln)
    decreases |terms|
  {
    if terms != [] {
      NoLessInit(terms, a, b, entryWords, ln);
      ScoreNoLess(terms[..|terms| - 1], a, b, entryWords, ln);
      ScoreLast(terms, a, entryWords, ln);
      ScoreLast(terms, b, entryWords, ln);
    }
  }

  lemma {:induction false} ScoreOrder(terms: seq<string>, a: seq<string>, b: seq<string>, t: string,
                                      entryWords: seq<seq<string>>, ln: real -> real)
    requires NoLess(terms, a, b, entryWords, ln)
    requires t in terms && Gives(t, a, entryWords, ln) < Gives(t, b, entryWords, ln)
    ensures Score(terms, a, entryWords, ln) < Score(terms, b, entryWords, ln)
    decreases |terms|
  {
    var init := terms[..|terms| - 1];
    NoLessInit(terms, a, b, entryWords, ln);
    ScoreLast(terms, a, entryWords, ln);
    ScoreLast(terms, b, entryWords, ln);
    if t == terms[|terms| - 1] {
      ScoreNoLess(init, a, b, entryWords, ln);
    } else {
      assert terms == init + [terms[|terms| - 1]];
      ScoreOrder(init, a, b, t, entryWords, ln);
    }
  }

  /** Of two entries of equal length, one that each term matches as often, and some term
      more often, scores higher. */
  lemma MoreMatchesScoreHigher(terms: seq<string>, a: seq<string>, b: seq<string>, t: string,
                               entryWords: seq<seq<string>>, ln: real -> real)
    requires Logarithm(ln) && |a| == |b| && t in terms && Frequency(t, a) < Frequency(t, b)
    requires forall u :: u in terms ==> Frequency(u, a) <= Frequency(u, b)
    ensures Score(terms, a, entryWords, ln) < Score(terms, b, entryWords, ln)
  {
    forall u | u in terms
      ensures Gives(u, a, entryWords, ln) <= Gives(u, b, entryWords, ln)
      ensures Frequency(u, a) < Frequency(u, b) ==> Gives(u, a, entryWords, ln) < Gives(u, b, entryWords, ln) {
      IdfPositive(u, entryWords, ln);
      if Frequency(u, a) < Frequency(u, b) {
        MoreMatches(Idf(u, entryWords, ln), Frequency(u, a), Frequency(u, b),
            Norm(|a|, AverageLength(entryWords)));
      }
    }
    ScoreOrder(terms, a, b, t, entryWords, ln);
  }

  /** Of two entries that each term matches as often, and some term at all, the shorter
      scores higher. */
  lemma FewerWordsScoreHigher(terms: seq<string>, a: seq<string>, b: seq<string>, t: string,
                              entryWords: seq<seq<string>>, ln: real -> real)
    requires Logarithm(ln) && |a| > |b| && t in terms && Frequency(t, a) > 0
    requires forall u :: u in terms ==> Frequency(u, a) == Frequency(u, b)
    ensures Score(terms, a, entryWords, ln) < Score(terms, b, entryWords, ln)
  {
    var average := AverageLength(entryWords);
    LongerCounts(|b|, |a|, average);
    forall u | u in terms
      ensures Gives(u, a, entryWords, ln) <= Gives(u, b, entryWords, ln)
      ensures Frequency(u, a) > 0 ==> Gives(u, a, entryWords, ln) < Gives(u, b, entryWords, ln) {
      IdfPositive(u, entryWords, ln);
      if Frequency(u, a) > 0 {
        FewerWords(Idf(u, entryWords, ln), Frequency(u, a), Norm(|b|, average), Norm(|a|, average));
      }
    }
    ScoreOrder(terms, a, b, t, entryWords, ln);
  }

  /** With several terms, an entry whose body holds the whole phrase scores exactly twice
      what it would score without it. */
  lemma PhraseDoubles(terms: seq<string>, words: seq<string>, entryWords: seq<seq<string>>, before: string,
                      phrase: string, after: string, other: string, ln: real -> real)
    requires |terms| > 1 && !Occurs(other, phrase)
    ensures EntryScore(terms, words, entryWords, before + phrase + after, phrase, ln) ==
            2.0 * EntryScore(terms, words, entryWords, other, phrase, ln)
  {
    MatchBetween(before, phrase, after);
  }

  /** A match in an entry of average length is worth the weight of its term; a second one
      adds three eighths of it; and in an entry twice as long it is worth 22 parts of 31. */
  lemma WorthOfAMatch(idf: real, length: nat, average: real)
    requires average >= 1.0 && length as real == average
    ensures TermScore(idf, 1, Norm(length, average)) == idf
    ensures TermScore(idf, 2, Norm(length, average)) == idf * 1.375
    ensures TermScore(idf, 1, Norm(2 * length, average)) * 3.1 == idf * 2.2
  {
    QuotientIs(length as real, average, 1.0);
    QuotientIs((2 * length) as real, average, 2.0);
    assert Norm(length, average) == 1.2 && Norm(2 * length, average) == 2.1;
    QuotientIs(idf * 1.0 * 2.2, 2.2, idf);
    QuotientIs(idf * 2.0 * 2.2, 3.2, idf * 1.375);
    QuotientTimes(idf * 1.0 * 2.2, 3.1);
  }

  lemma OneMoreTimes(n: nat, k: nat)
    ensures n * (k + 1) == n + n * k
  {
  }

  lemma {:induction false} TotalOfEqual(entryWords: seq<seq<string>>, n: nat)
    requires forall words :: words in entryWords ==> |words| == n
    ensures TotalWords(entryWords) == n * |entryWords|
  {
    if entryWords != [] {
      assert entryWords[0] in entryWords && forall words :: words in entryWords[1..] ==> words in entryWords;
      TotalOfEqual(entryWords[1..], n);
      OneMoreTimes(n, |entryWords[1..]|);
    }
  }

  /** Entries of one length have that length on average. */
  lemma AverageOfEqual(entryWords: seq<seq<string>>, n: nat)
    requires entryWords != [] && n >= 1 && forall words :: words in entryWords ==> |words| == n
    ensures AverageLength(entryWords) == n as real
  {
    TotalOfEqual(entryWords, n);
    assert TotalWords(entryWords) as real == n as real * |entryWords| as real;
    QuotientIs(TotalWords(entryWords) as real, |entryWords| as real, n as real);
  }

  /** Only one of the terms matches. */
  lemma {:induction false} OnlyTerm(terms: seq<string>, t: string, words: seq<string>,
                                    entryWords: seq<seq<string>>, ln: real -> real)
    requires forall i, j :: 0 <= i < j < |terms| ==> terms[i] != terms[j]
    requires forall u :: u in terms && u != t ==> Frequency(u, words) == 0
    ensures Score(terms, words, entryWords, ln) == if t in terms then Gives(t, words, entryWords, ln) else 0.0
    decreases |terms|
  {
    if terms != [] {
      var init, last := terms[..|terms| - 1], terms[|terms| - 1];
      assert terms == init + [last];
      OnlyTerm(init, t, words, entryWords, ln);
    }
  }

  // ---------------------------------------------------------------- ranking

  /** Better entries first; of equals, the earlier. */
  predicate Before(scores: seq<real>, i: nat, j: nat)
    requires i < |scores| && j < |scores|
  {
    scores[i] > scores[j] || (scores[i] == scores[j] && i < j)
  }

  ghost predicate Ranked(scores: seq<real>, order: seq<nat>) {
    && (forall k :: 0 <= k < |order| ==> order[k] < |scores|)
    && (forall k, l :: 0 <= k < l < |order| ==> Before(scores, order[k], order[l]))
  }

  /** Insertion in rank order. */
  function Insert(scores: seq<real>, order: seq<nat>, i: nat): (r: seq<nat>)
    requires Ranked(scores, order) && i < |scores| && i !in order
    ensures Ranked(scores, r) && forall k :: k in r <==> k in order || k == i
  {
    if order == [] || Before(scores, i, order[0]) then [i] + order
    else
      assert forall k :: k in order <==> k == order[0] || k in order[1..];
      var rest := Insert(scores, order[1..], i);
      assert forall k :: 0 <= k < |rest| ==> rest[k] in rest;
      [order[0]] + rest
  }

  /** All entries that score, best first. */
  function Sorted(scores: seq<real>, n: nat): (order: seq<nat>)
    requires n <= |scores|
    ensures Ranked(scores, order)
    ensures forall i: nat :: i in order <==> i < n && scores[i] > 0.0
  {
    if n == 0 then []
    else
      var earlier := Sorted(scores, n - 1);
      if scores[n - 1] > 0.0 then Insert(scores, earlier, n - 1) else earlier
  }

  function Take<T>(s: seq<T>, limit: nat): seq<T> { if |s| <= limit then s else s[..limit] }

  lemma TakeHas<T>(s: seq<T>, limit: nat, k: nat)
    requires k < |s|
    ensures k < |Take(s, limit)| ==> s[k] in Take(s, limit)
  {
    if k < |Take(s, limit)| {
      assert Take(s, limit)[k] == s[k];
    }
  }

  /** `top` are the best `limit` entries that score, best first. */
  ghost predicate IsTop(scores: seq<real>, limit: nat, top: seq<nat>) {
    && |top| <= limit && Ranked(scores, top) && (forall i :: i in top ==> scores[i] > 0.0)
    && forall i :: 0 <= i < |scores| && scores[i] > 0.0 && i !in top ==>
         |top| == limit && forall j :: j in top ==> Before(scores, j, i)
  }

  /** The `limit` first of all that score are the best: whatever scores and is left out
      ranks after everything shown. */
  lemma TopResults(scores: seq<real>, limit: nat)
    ensures IsTop(scores, limit, Take(Sorted(scores, |scores|), limit))
  {
    var all := Sorted(scores, |scores|);
    var top := Take(all, limit);
    assert forall i :: i in top ==> i in all;
    forall i, j | 0 <= i < |scores| && scores[i] > 0.0 && i !in top && j in top ensures Before(scores, j, i) {
      var k :| 0 <= k < |all| && all[k] == i;
      var l :| 0 <= l < |top| && top[l] == j;
      TakeHas(all, limit, k);
      assert all[l] == j;
    }
  }

  /** What stands at `k` did not stand before it. */
  lemma NotEarlier(scores: seq<real>, t: seq<nat>, k: nat)
    requires Ranked(scores, t) && k < |t|
    ensures t[k] !in t[..k]
  {
    forall j | 0 <= j < k ensures t[..k][j] != t[k] {
      assert Before(scores, t[j], t[k]);
    }
  }

  /** Where two rankings agree so far, the second has a next entry too, and that is the
      next of the first or ranks before it. */
  lemma NoWorse(scores: seq<real>, limit: nat, t: seq<nat>, u: seq<nat>, k: nat)
    requires IsTop(scores, limit, t) && IsTop(scores, limit, u)
    requires k < |t| && k <= |u| && t[..k] == u[..k]
    ensures k < |u| && t[k] < |scores| && u[k] < |scores|
    ensures u[k] == t[k] || Before(scores, u[k], t[k])
  {
    var x := t[k];
    assert x in t && scores[x] > 0.0;
    NotEarlier(scores, t, k);
    assert forall i :: 0 <= i < k ==> u[i] == u[..k][i];
    if x in u {
      var j :| 0 <= j < |u| && u[j] == x;
    } else {
      assert u[k] in u;
    }
  }

  lemma {:induction false} TopIsUnique(scores: seq<real>, limit: nat, t: seq<nat>, u: seq<nat>)
    requires IsTop(scores, limit, t) && IsTop(scores, limit, u)
    ensures t == u
  {
    var k := 0;
    while k < |t|
      invariant k <= |t| && k <= |u| && t[..k] == u[..k]
    {
      NoWorse(scores, limit, t, u, k);
      NoWorse(scores, limit, u, t, k);
      assert t[..k + 1] == t[..k] + [t[k]] && u[..k + 1] == u[..k] + [u[k]];
      k := k + 1;
    }
    if k < |u| {
      NoWorse(scores, limit, u, t, k);
    }
  }

  // ---------------------------------------------------------------- search

  /** The words of a text; what counts as a letter or digit, and lower case, are given. */
  function Words(text: string, alphanumeric: char -> bool, lower: string -> string): seq<string> {
    WordsFrom(text, "", alphanumeric, lower)
  }

  function WordsFrom(text: string, word: string, alphanumeric: char -> bool, lower: string -> string): seq<string>
    decreases |text|
  {
    var done := if word == "" then [] else [lower(word)];
    if text == "" then done
    else if alphanumeric(text[0]) then WordsFrom(text[1..], word + [text[0]], alphanumeric, lower)
    else done + WordsFrom(text[1..], "", alphanumeric, lower)
  }

  /** A run of letters and digits that goes on neither before `a` nor behind `b`. */
  predicate IsRun(text: string, a: nat, b: nat, alphanumeric: char -> bool) {
    && a < b <= |text| && (forall k :: a <= k < b ==> alphanumeric(text[k]))
    && (a > 0 ==> !alphanumeric(text[a - 1])) && (b < |text| ==> !alphanumeric(text[b]))
  }

  /** `runs` are all the runs from `from` on, in order. */
  ghost predicate AllRuns(text: string, from: nat, runs: seq<(nat, nat)>, alphanumeric: char -> bool) {
    && (forall k :: 0 <= k < |runs| ==> from <= runs[k].0 && IsRun(text, runs[k].0, runs[k].1, alphanumeric))
    && (forall k, l :: 0 <= k < l < |runs| ==> runs[k].1 <= runs[l].0)
    && forall a: nat, b: nat :: from <= a && IsRun(text, a, b, alphanumeric) ==> (a, b) in runs
  }

  ghost predicate InLowerCase(words: seq<string>, text: string, runs: seq<(nat, nat)>, lower: string -> string) {
    && |words| == |runs|
    && forall k :: 0 <= k < |runs| ==>
         runs[k].0 <= runs[k].1 <= |text| && words[k] == lower(text[runs[k].0..runs[k].1])
  }

  lemma WordGrows(text: string, start: nat, at: nat, alphanumeric: char -> bool, lower: string -> string)
    requires start <= at < |text| && alphanumeric(text[at])
    ensures WordsFrom(text[at..], text[start..at], alphanumeric, lower)
         == WordsFrom(text[at + 1..], text[start..at + 1], alphanumeric, lower)
  {
    assert text[at..][1..] == text[at + 1..] && text[start..at] + [text[at]] == text[start..at + 1];
  }

  lemma WordEnds(text: string, start: nat, at: nat, alphanumeric: char -> bool, lower: string -> string)
    requires start <= at <= |text| && (at < |text| ==> !alphanumeric(text[at]))
    ensures WordsFrom(text[at..], text[start..at], alphanumeric, lower) ==
            (if start < at then [lower(text[start..at])] else [])
            + if at < |text| then WordsFrom(text[at + 1..], "", alphanumeric, lower) else []
  {
    if at < |text| {
      assert text[at..][1..] == text[at + 1..];
    }
  }

  lemma OneMoreRun(text: string, start: nat, at: nat, rest: seq<(nat, nat)>, words: seq<string>,
                   lower: string -> string)
    requires start <= at <= |text| && InLowerCase(words, text, rest, lower)
    ensures InLowerCase((if start < at then [lower(text[start..at])] else []) + words, text,
                (if start < at then [(start, at)] else []) + rest, lower)
  {
  }

  lemma RunBehind(text: string, start: nat, at: nat, rest: seq<(nat, nat)>, words: seq<string>,
                  alphanumeric: char -> bool, lower: string -> string)
    requires start <= at <= |text| && (forall k :: start <= k < at ==> alphanumeric(text[k]))
    requires (start > 0 ==> !alphanumeric(text[start - 1])) && (at < |text| ==> !alphanumeric(text[at]))
    requires AllRuns(text, at + 1, rest, alphanumeric) && InLowerCase(words, text, rest, lower)
    requires words == if at < |text| then WordsFrom(text[at + 1..], "", alphanumeric, lower) else []
    ensures var runs := (if start < at then [(start, at)] else []) + rest;
            && AllRuns(text, start, runs, alphanumeric)
            && InLowerCase(WordsFrom(text[at..], text[start..at], alphanumeric, lower), text, runs, lower)
  {
    WordEnds(text, start, at, alphanumeric, lower);
    RunEnds(text, start, at, rest, alphanumeric);
    OneMoreRun(text, start, at, rest, words, lower);
  }

  /** From `at` on, inside a run that began at `start`, or between runs. */
  lemma {:induction false} RunsFrom(text: string, start: nat, at: nat, alphanumeric: char -> bool,
                                    lower: string -> string) returns (runs: seq<(nat, nat)>)
    requires start <= at <= |text| && (forall k :: start <= k < at ==> alphanumeric(text[k]))
    requires start > 0 ==> !alphanumeric(text[start - 1])
    ensures AllRuns(text, start, runs, alphanumeric)
    ensures InLowerCase(WordsFrom(text[at..], text[start..at], alphanumeric, lower), text, runs, lower)
    decreases |text| - at
  {
    if at < |text| && alphanumeric(text[at]) {
      WordGrows(text, start, at, alphanumeric, lower);
      runs := RunsFrom(text, start, at + 1, alphanumeric, lower);
    } else {
      var rest, words := [], [];
      if at < |text| {
        assert text[at + 1..at + 1] == "";
        rest := RunsFrom(text, at + 1, at + 1, alphanumeric, lower);
        words := WordsFrom(text[at + 1..], "", alphanumeric, lower);
      }
      RunBehind(text, start, at, rest, words, alphanumeric, lower);
      runs := (if start < at then [(start, at)] else []) + rest;
    }
  }

  /** A run ends before `at`, and the rest of the runs begin behind it. */
  lemma RunEnds(text: string, start: nat, at: nat, rest: seq<(nat, nat)>, alphanumeric: char -> bool)
    requires start <= at <= |text| && (forall k :: start <= k < at ==> alphanumeric(text[k]))
    requires start > 0 ==> !alphanumeric(text[start - 1])
    requires at < |text| ==> !alphanumeric(text[at])
    requires AllRuns(text, at + 1, rest, alphanumeric)
    ensures AllRuns(text, start, (if start < at then [(start, at)] else []) + rest, alphanumeric)
  {
    var runs := (if start < at then [(start, at)] else []) + rest;
    forall a: nat, b: nat | start <= a && IsRun(text, a, b, alphanumeric) ensures (a, b) in runs {
      if a <= at {
        OnlyRun(text, start, at, a, b, alphanumeric);
        assert runs[0] == (a, b);
      } else {
        assert (a, b) in rest;
      }
    }
  }

  lemma OnlyRun(text: string, start: nat, at: nat, a: nat, b: nat, alphanumeric: char -> bool)
    requires start <= a <= at <= |text| && (forall k :: start <= k < at ==> alphanumeric(text[k]))
    requires at < |text| ==> !alphanumeric(text[at])
    requires IsRun(text, a, b, alphanumeric)
    ensures a == start < at == b
  {
    assert alphanumeric(text[a]);
  }

  /** The words of a text are its runs of letters and digits, in order, in lower case. */
  lemma WordsAreRuns(text: string, alphanumeric: char -> bool, lower: string -> string) returns (runs: seq<(nat, nat)>)
    ensures AllRuns(text, 0, runs, alphanumeric)
    ensures InLowerCase(Words(text, alphanumeric, lower), text, runs, lower)
  {
    assert text[0..] == text && text[0..0] == "";
    runs := RunsFrom(text, 0, 0, alphanumeric, lower);
  }

  function Distinct(terms: seq<string>): seq<string> {
    if terms == [] then []
    else
      var d := Distinct(terms[..|terms| - 1]);
      if terms[|terms| - 1] in d then d else d + [terms[|terms| - 1]]
  }

  function Body(e: MemoryEntry): string { Join(e.lines, "\n") }

  function Searched(e: MemoryEntry): string {
    (if e.heading.Some? then e.heading.value else "") + "\n" + Body(e)
  }

  function Render(e: MemoryEntry): string {
    if e.heading.Some? then e.heading.value + "\n" + Body(e) else Body(e)
  }

  function RenderAll(entries: seq<MemoryEntry>, order: seq<nat>): seq<string>
    requires forall k :: k in order ==> k < |entries|
  {
    seq(|order|, k requires 0 <= k < |order| => assert order[k] in order; Render(entries[order[k]]))
  }

  function AllWords(entries: seq<MemoryEntry>, alphanumeric: char -> bool, lower: string -> string): seq<seq<string>> {
    seq(|entries|, i requires 0 <= i < |entries| => Words(Searched(entries[i]), alphanumeric, lower))
  }

  ghost predicate Matches(terms: seq<string>, words: seq<string>) {
    exists t, w :: t in terms && w in words && TermMatches(t, w)
  }

  /** What a query asks, and the given tables of letters and logarithms. */
  datatype Query = Query(text: string, limit: nat, alphanumeric: char -> bool, lower: string -> string,
      ln: real -> real)
  {
    function Terms(): seq<string> { Words(text, alphanumeric, lower) }
    function WordsOf(e: MemoryEntry): seq<string> { Words(Searched(e), alphanumeric, lower) }
    function BodyOf(e: MemoryEntry): string { lower(Body(e)) }
    function Phrase(): string { lower(Trim(text)) }
  }

  /** `scores` are the BM25 scores of all entries, positive just where a term matches. */
  ghost predicate Scored(q: Query, entries: seq<MemoryEntry>, scores: seq<real>) {
    var entryWords := AllWords(entries, q.alphanumeric, q.lower);
    && |scores| == |entries|
    && (forall i :: 0 <= i < |entries| ==> (scores[i] > 0.0 <==> Matches(q.Terms(), q.WordsOf(entries[i]))))
    && forall i :: 0 <= i < |entries| ==>
         scores[i] == EntryScore(Distinct(q.Terms()), entryWords[i], entryWords, q.BodyOf(entries[i]), q.Phrase(), q.ln)
  }

  /** The results of a search of the entries that a document falls into. */
  ghost predicate Found(content: string, q: Query, results: seq<string>, entries: seq<MemoryEntry>,
                        scores: seq<real>, top: seq<nat>)
  {
    && Flatten(entries) == Placement(StrLines(content)) && (forall e :: e in entries ==> e.lines != [])
    && Scored(q, entries, scores) && IsTop(scores, q.limit, top)
    && |results| == |top| && forall k :: 0 <= k < |top| ==> results[k] == Render(entries[top[k]])
  }

  /** The entry in full, under its heading if it has one. */
  predicate InFull(e: MemoryEntry, shown: string) {
    match e.heading
    case Some(heading) => shown == heading + "\n" + Join(e.lines, "\n")
    case None => shown == Join(e.lines, "\n")
  }

  /** The score of an entry is that of the words of its heading and its lines, twice over
      when the query has several terms and its lines hold all of it, in lower case. */
  lemma ScoresOfTexts(q: Query, entries: seq<MemoryEntry>, scores: seq<real>, i: nat)
    requires Scored(q, entries, scores) && i < |entries|
    ensures var e, terms := entries[i], Distinct(Words(q.text, q.alphanumeric, q.lower));
            var body := Join(e.lines, "\n");
            var text := match e.heading case Some(heading) => heading + "\n" + body case None => "\n" + body;
            var score := Score(terms, Words(text, q.alphanumeric, q.lower),
                               AllWords(entries, q.alphanumeric, q.lower), q.ln);
            scores[i] == if |terms| > 1 && Occurs(q.lower(body), q.lower(Trim(q.text))) then score + score else score
  {
    var e := entries[i];
    assert e.heading.None? ==> Searched(e) == "\n" + Join(e.lines, "\n");
    assert AllWords(entries, q.alphanumeric, q.lower)[i] == Words(Searched(e), q.alphanumeric, q.lower);
  }

  /** Exactly one word of the entry is matched, by term `t` alone. */
  ghost predicate MatchedOnce(q: Query, e: MemoryEntry, t: string) {
    t in q.Terms() && forall u :: u in q.Terms() ==> Frequency(u, q.WordsOf(e)) == if u == t then 1 else 0
  }

  /** Entry `i` matches a rarer term than entry `j`, and they are alike otherwise. */
  ghost predicate MatchesRarer(q: Query, entries: seq<MemoryEntry>, i: nat, j: nat, t: string, u: string)
    requires i < |entries| && j < |entries|
  {
    && MatchedOnce(q, entries[i], t) && MatchedOnce(q, entries[j], u)
    && |q.WordsOf(entries[i])| == |q.WordsOf(entries[j])|
    && Containing(t, AllWords(entries, q.alphanumeric, q.lower))
     < Containing(u, AllWords(entries, q.alphanumeric, q.lower))
    && !Occurs(q.BodyOf(entries[j]), q.Phrase())
  }

  /** Wherever such an entry `j` is shown, entry `i` is shown before it. */
  ghost predicate RarerFirst(q: Query, entries: seq<MemoryEntry>, top: seq<nat>) {
    forall l, i: nat, t, u :: (0 <= l < |top| && i < |entries| && top[l] < |entries|
                               && MatchesRarer(q, entries, i, top[l], t, u)) ==> i in top[..l]
  }

  /** The results in full, and of two that differ in the rarity of what they match, the rarer first. */
  ghost predicate WellShown(q: Query, results: seq<string>, entries: seq<MemoryEntry>, top: seq<nat>) {
    && (Increasing(q.ln) ==> RarerFirst(q, entries, top))
    && |results| == |top|
    && forall k :: 0 <= k < |top| ==> top[k] < |entries| && InFull(entries[top[k]], results[k])
  }

  lemma RarerScoresHigher(q: Query, entries: seq<MemoryEntry>, scores: seq<real>, i: nat, j: nat, t: string, u: string)
    requires Logarithm(q.ln) && Increasing(q.ln) && Scored(q, entries, scores)
    requires i < |entries| && j < |entries| && MatchesRarer(q, entries, i, j, t, u)
    ensures scores[i] > scores[j] && scores[i] > 0.0
  {
    var terms, all := Distinct(q.Terms()), AllWords(entries, q.alphanumeric, q.lower);
    var norm := Norm(|all[i]|, AverageLength(all));
    DistinctSame(q.Terms());
    OnlyTerm(terms, t, all[i], all, q.ln);
    OnlyTerm(terms, u, all[j], all, q.ln);
    RarerWeighsMore(t, u, all, q.ln);
    IdfPositive(u, all, q.ln);
    HeavierTerm(Idf(u, all, q.ln), Idf(t, all, q.ln), 1, norm);
    TermScorePositive(Idf(u, all, q.ln), 1, norm);
  }

  lemma RarerComesFirst(q: Query, entries: seq<MemoryEntry>, scores: seq<real>, top: seq<nat>)
    requires Logarithm(q.ln) && Increasing(q.ln) && Scored(q, entries, scores) && IsTop(scores, q.limit, top)
    ensures RarerFirst(q, entries, top)
  {
    forall l, i: nat, t, u | 0 <= l < |top| && i < |entries| && top[l] < |entries|
      && MatchesRarer(q, entries, i, top[l], t, u) ensures i in top[..l] {
      RarerScoresHigher(q, entries, scores, i, top[l], t, u);
      HigherFirst(scores, q.limit, top, l, i);
    }
  }

  lemma HigherFirst(scores: seq<real>, limit: nat, top: seq<nat>, l: nat, i: nat)
    requires IsTop(scores, limit, top) && l < |top| && i < |scores| && top[l] < |scores|
    requires scores[i] > scores[top[l]] && scores[i] > 0.0
    ensures i in top[..l]
  {
    assert top[l] in top;
    var k :| 0 <= k < |top| && top[k] == i;
    assert l < k ==> Before(scores, top[l], top[k]);
    assert top[..l][k] == i;
  }

  /** Search returns entries that some term matches, best first, no more than `limit`,
      and leaves a match out only when `limit` better ones were found. */
  method Search(content: string, q: Query) returns (results: seq<string>)
    requires Logarithm(q.ln)
    ensures exists entries, scores, top ::
              Found(content, q, results, entries, scores, top) && WellShown(q, results, entries, top)
  {
    var entries := Entries(content);
    var entryWords := AllWords(entries, q.alphanumeric, q.lower);
    var bodies := seq(|entries|, i requires 0 <= i < |entries| => q.BodyOf(entries[i]));
    var scores := ScoreEntries(q.Terms(), entryWords, bodies, q.Phrase(), q.ln);
    var top := Take(Sorted(scores, |scores|), q.limit);
    TopResults(scores, q.limit);
    results := RenderAll(entries, top);
    assert Found(content, q, results, entries, scores, top);
    FoundIsShown(content, q, results, entries, scores, top);
  }

  lemma FoundIsShown(content: string, q: Query, results: seq<string>, entries: seq<MemoryEntry>,
                     scores: seq<real>, top: seq<nat>)
    requires Logarithm(q.ln) && Found(content, q, results, entries, scores, top)
    ensures WellShown(q, results, entries, top)
  {
    if Increasing(q.ln) {
      RarerComesFirst(q, entries, scores, top);
    }
    assert forall k :: 0 <= k < |top| ==> top[k] in top;
  }

  /** Two accounts of a search agree on its entries, its scores and its results. */
  lemma SearchIsDetermined(content: string, q: Query,
                           r: seq<string>, e: seq<MemoryEntry>, s: seq<real>, t: seq<nat>,
                           r': seq<string>, e': seq<MemoryEntry>, s': seq<real>, t': seq<nat>)
    requires Found(content, q, r, e, s, t) && Found(content, q, r', e', s', t')
    ensures e == e' && s == s' && t == t' && r == r'
  {
    GroupingIsUnique(e, e');
    assert s == s';
    TopIsUnique(s, q.limit, t, t');
    assert r == r';
  }

  /** Score every entry: above zero exactly when some term matches one of its words. */
  method ScoreEntries(terms: seq<string>, entryWords: seq<seq<string>>, bodies: seq<string>, phrase: string,
      ln: real -> real)
    returns (values: seq<real>)
    requires Logarithm(ln) && |bodies| == |entryWords|
    ensures |values| == |entryWords|
    ensures forall i :: 0 <= i < |values| ==> (values[i] > 0.0 <==> Matches(terms, entryWords[i]))
    ensures forall i :: 0 <= i < |values| ==>
              values[i] == EntryScore(Distinct(terms), entryWords[i], entryWords, bodies[i], phrase, ln)
  {
    var distinct := Distinct(terms);
    DistinctSame(terms);
    values := [];
    for n := 0 to |entryWords|
      invariant |values| == n
      invariant forall i :: 0 <= i < n ==> (values[i] > 0.0 <==> Matches(terms, entryWords[i]))
      invariant forall i :: 0 <= i < n ==>
                  values[i] == EntryScore(distinct, entryWords[i], entryWords, bodies[i], phrase, ln)
    {
      EntryScorePositive(distinct, terms, entryWords[n], entryWords, bodies[n], phrase, ln);
      var score := Score(distinct, entryWords[n], entryWords, ln);
      if |distinct| > 1 && Find(bodies[n], phrase).Some? {
        score := score * 2.0;
      }
      values := values + [score];
    }
  }

  lemma EntryScorePositive(distinct: seq<string>, terms: seq<string>, words: seq<string>, entryWords: seq<seq<string>>,
      body: string, phrase: string, ln: real -> real)
    requires Logarithm(ln) && forall t :: t in distinct <==> t in terms
    ensures EntryScore(distinct, words, entryWords, body, phrase, ln) > 0.0 <==> Matches(terms, words)
  {
    PositiveScore(distinct, words, entryWords, ln);
  }

  lemma {:induction false} DistinctSame(terms: seq<string>)
    ensures forall t :: t in Distinct(terms) <==> t in terms
    ensures forall i, j :: 0 <= i < j < |Distinct(terms)| ==> Distinct(terms)[i] != Distinct(terms)[j]
    decreases |terms|
  {
    if terms != [] {
      DistinctSame(terms[..|terms| - 1]);
      assert terms == terms[..|terms| - 1] + [terms[|terms| - 1]];
      var d := Distinct(terms[..|terms| - 1]);
      assert forall i :: 0 <= i < |d| ==> d[i] in d;
    }
  }
}
