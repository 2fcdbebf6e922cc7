/** The YAML subset of `SKILL.md` files: fences, `key: scalar` and `key: [a, b]` lines. */
module Frontmatter {
  import opened Lines
  import opened Splitting
  import opened Text
  import opened Trimming

  // ---------------------------------------------------------------- scalars

  predicate NeedsQuotes(v: string) {
    v == "" || ':' in v || '#' in v || v[0] in "[\"' " || v[|v| - 1] == ' '
  }

  function EmitScalar(v: string): string {
    if NeedsQuotes(v) then "\"" + Replace(Replace(v, "\\", "\\\\"), "\"", "\\\"") + "\"" else v
  }

  /** A scalar that is empty, holds a colon or a hash, begins with an opening bracket, a
      quote or a space, or ends with a space. */
  predicate Misread(v: string) {
    || v == "" || ':' in v || '#' in v || v[0] == '[' || v[0] == '"' || v[0] == '\'' || v[0] == ' '
    || v[|v| - 1] == ' '
  }

  lemma MisreadIs(v: string)
    ensures Misread(v) <==> NeedsQuotes(v)
  {
    var opening := "[\"' ";
    if v != "" {
      assert v[0] in opening <==> v[0] in {opening[0], opening[1], opening[2], opening[3]};
    }
  }

  /** Just such a scalar is printed between quotes. */
  lemma EmitScalarIs(v: string)
    ensures !Misread(v) ==> EmitScalar(v) == v
    ensures Misread(v) ==>
              EmitScalar(v) == "\"" + Replace(Replace(v, "\\", "\\\\"), "\"", "\\\"") + "\""
  {
    MisreadIs(v);
  }

  predicate QuotedBy(v: string, q: char) { |v| >= 2 && v[0] == q && v[|v| - 1] == q }

  function Unquote(value: string): string {
    var v := Trim(value);
    if QuotedBy(v, '"') || QuotedBy(v, '\'') then v[1..|v| - 1] else v
  }

  predicate IsList(v: string) { |v| >= 2 && v[0] == '[' && v[|v| - 1] == ']' }

  function Nonempty(pieces: seq<string>): seq<string> {
    if pieces == [] then []
    else (if Trim(pieces[0]) == "" then [] else [Unquote(Trim(pieces[0]))]) + Nonempty(pieces[1..])
  }

  function Items(inner: string): seq<string> { Nonempty(Gaps(inner, ",")) }

  datatype Entry =
    | Blank | Indented | NoColon | EmptyKey
    | Scalar(key: string, value: string)
    | List(key: string, items: seq<string>)

  function ReadEntry(raw: string): Entry {
    var line := TrimEnd(raw);
    if Trim(line) == "" || StartsWith(TrimStart(line), "#") then Blank
    else if line == "" || IsWhitespace(line[0]) then Indented
    else
      match Find(line, ":")
      case None => NoColon
      case Some(i) =>
        var key, value := Trim(line[..i]), Trim(line[i + 1..]);
        if key == "" then EmptyKey
        else if IsList(value) then List(key, Items(value[1..|value| - 1]))
        else Scalar(key, Unquote(value))
  }

  // ---------------------------------------------------------------- which lines are read

  /** A line that is skipped: white space, or a comment behind white space. */
  ghost predicate Skipped(raw: string) {
    AllWhite(raw) || exists a, b :: AllWhite(a) && raw == a + "#" + b
  }

  /** A line that stops the parse, and why: it is indented, has no colon, or begins with one. */
  ghost predicate Stops(raw: string, why: Entry) {
    && !Skipped(raw)
    && match why
       case Indented => IsWhitespace(raw[0])
       case NoColon => !IsWhitespace(raw[0]) && ':' !in raw
       case EmptyKey => raw[0] == ':'
       case _ => false
  }

  lemma TrimOfTrimmed(raw: string)
    ensures Trim(TrimEnd(raw)) == Trim(raw)
  {
    var b := TrimEndParts(raw);
    var a, c := TrimParts(TrimEnd(raw));
    var m := Trim(TrimEnd(raw));
    assert AllWhite(c + b);
    assert raw == a + m + (c + b);
    TrimIs(a, m, c + b);
  }

  lemma HashInFront(line: string, a: string, b: string)
    requires AllWhite(a) && line == a + "#" + b
    ensures TrimStart(line) == "#" + b
  {
    assert line == a + ("#" + b);
    TrimStartIs(a, "#" + b);
  }

  lemma CommentRead(raw: string)
    requires StartsWith(TrimStart(TrimEnd(raw)), "#")
    ensures Skipped(raw)
  {
    var line := TrimEnd(raw);
    var tail := TrimEndParts(raw);
    var a := TrimStartParts(line);
    var rest := TrimStart(line)[1..];
    assert line == a + ("#" + rest);
    HashBehind(raw, line, a, rest, tail);
  }

  lemma HashBehind(raw: string, line: string, a: string, rest: string, tail: string)
    requires raw == line + tail && line == a + ("#" + rest)
    ensures raw == a + "#" + (rest + tail)
  {
  }

  lemma SkippedIs(raw: string)
    ensures ReadEntry(raw) == Blank <==> Skipped(raw)
  {
    TrimOfTrimmed(raw);
    WhiteIsEmpty(raw);
    if StartsWith(TrimStart(TrimEnd(raw)), "#") {
      CommentRead(raw);
    } else if a, b :| AllWhite(a) && raw == a + "#" + b {
      CommentKept(raw, a, b);
    }
  }

  lemma WhiteIsEmpty(raw: string)
    ensures AllWhite(raw) <==> Trim(raw) == ""
  {
    var a, b := TrimParts(raw);
    if AllWhite(raw) {
      TrimIs(raw, "", "");
      assert raw + "" + "" == raw;
    }
    if Trim(raw) == "" {
      assert raw == a + b;
    }
  }

  /** Trimming the end of a comment leaves its hash. */
  lemma CommentKept(raw: string, a: string, b: string)
    requires AllWhite(a) && raw == a + "#" + b
    ensures StartsWith(TrimStart(TrimEnd(raw)), "#")
  {
    var tail := "#" + b;
    var c := TrimEndParts(tail);
    assert raw == a + tail;
    var kept := TrimEnd(tail);
    assert !AllWhite(tail) by {
      assert tail[0] in tail && !IsWhitespace('#');
    }
    assert tail == kept + c;
    assert kept[0] == tail[0];
    assert raw == (a + kept) + c;
    TrimEndIs(a + kept, c);
    HashInFront(a + kept, a, kept[1..]);
    assert kept == "#" + kept[1..];
  }

  lemma FirstKept(raw: string)
    requires !AllWhite(raw)
    ensures raw != "" && TrimEnd(raw) != "" && TrimEnd(raw)[0] == raw[0]
    ensures ':' in raw <==> ':' in TrimEnd(raw)
  {
    var b := TrimEndParts(raw);
    assert raw == TrimEnd(raw) + b;
    WhiteIsEmpty(raw);
    assert !IsWhitespace(':');
  }

  /** Which lines stop the parse. */
  lemma StopsIs(raw: string, why: Entry)
    requires why in {Indented, NoColon, EmptyKey}
    ensures ReadEntry(raw) == why <==> Stops(raw, why)
  {
    var line := TrimEnd(raw);
    SkippedIs(raw);
    if !Skipped(raw) {
      FirstKept(raw);
      OccursChar(line, ':');
      if Find(line, ":").Some? && !IsWhitespace(line[0]) {
        KeyInLine(line, Find(line, ":").value);
      }
    }
  }

  lemma KeyInLine(line: string, i: nat)
    requires line != "" && !IsWhitespace(line[0]) && Find(line, ":") == Some(i)
    ensures Trim(line[..i]) == "" <==> line[0] == ':'
  {
    WhiteIsEmpty(line[..i]);
    if i > 0 {
      assert line[..i][0] == line[0];
      assert !MatchAt(line, ":", 0);
      assert line[0..1] == [line[0]];
    } else {
      assert line[0..1] == ":";
    }
  }

  lemma TrimmedRead(raw: string, line: string, k: string, rest: string)
    requires line == TrimEnd(raw) && line == k + ":" + rest
    requires ':' !in k && k != "" && !IsWhitespace(k[0]) && k[0] != '#'
    ensures ReadEntry(raw) ==
            if IsList(Trim(rest)) then List(Trim(k), Items(Trim(rest)[1..|Trim(rest)| - 1]))
            else Scalar(Trim(k), Unquote(Trim(rest)))
  {
    assert line[0] == k[0];
    NotSkipped(line);
    FirstColon(line, k, rest);
    WhiteIsEmpty(k);
    assert k[0] in k;
  }

  /** What a line of a key and a value is read as. */
  lemma KeyValueRead(raw: string, k: string, v: string)
    requires raw == k + ":" + v && ':' !in k && k != "" && !IsWhitespace(k[0]) && k[0] != '#'
    ensures ReadEntry(raw) ==
            if IsList(Trim(v)) then List(Trim(k), Items(Trim(v)[1..|Trim(v)| - 1]))
            else Scalar(Trim(k), Unquote(Trim(v)))
  {
    var shown := TrimEnd(":" + v);
    ColonKept(k, v);
    assert shown == ":" + shown[1..];
    TrimmedRead(raw, k + ":" + shown[1..], k, shown[1..]);
  }

  lemma NotSkipped(line: string)
    requires line != "" && !IsWhitespace(line[0]) && line[0] != '#'
    ensures Trim(line) != "" && !StartsWith(TrimStart(line), "#")
  {
    assert TrimStart(line) == line;
    WhiteIsEmpty(line);
    assert line[0] in line;
  }

  lemma ColonFirst(v: string)
    ensures TrimEnd(":" + v) != "" && TrimEnd(":" + v)[0] == ':'
    ensures exists c :: AllWhite(c) && v == TrimEnd(":" + v)[1..] + c
  {
    var tail := ":" + v;
    var c := TrimEndParts(tail);
    var kept := TrimEnd(tail);
    assert !AllWhite(tail) by {
      assert tail[0] in tail && !IsWhitespace(':');
    }
    assert tail == kept + c;
    assert kept[0] == tail[0];
    assert v == tail[1..] && tail[1..] == kept[1..] + c;
  }

  lemma ColonKept(k: string, v: string)
    ensures TrimEnd(k + ":" + v) == k + TrimEnd(":" + v)
    ensures TrimEnd(":" + v) != "" && TrimEnd(":" + v)[0] == ':' && Trim(TrimEnd(":" + v)[1..]) == Trim(v)
  {
    var kept := TrimEnd(":" + v);
    ColonFirst(v);
    var c :| AllWhite(c) && v == kept[1..] + c;
    assert kept == ":" + kept[1..];
    assert k + ":" + v == (k + kept) + c;
    EndKept(":" + v);
    TrimEndIs(k + kept, c);
    TrimBehind(kept[1..], c);
  }

  lemma EndKept(s: string)
    ensures TrimEnd(s) != "" ==> !IsWhitespace(TrimEnd(s)[|TrimEnd(s)| - 1])
  {
    var b := TrimEndParts(s);
  }

  lemma TrimBehind(s: string, c: string)
    requires AllWhite(c)
    ensures Trim(s + c) == Trim(s)
  {
    var a, b := TrimParts(s);
    assert s + c == a + Trim(s) + (b + c);
    TrimIs(a, Trim(s), b + c);
  }

  lemma FirstColon(line: string, k: string, rest: string)
    requires line == k + ":" + rest && ':' !in k
    ensures Find(line, ":") == Some(|k|) && line[..|k|] == k && line[|k| + 1..] == rest
  {
    forall j | 0 <= j < |k| ensures !MatchAt(line, ":", j) {
      assert line[j..j + 1] == [k[j]];
    }
    MatchBetween(k, ":", rest);
    FindIs(line, ":", |k|);
  }

  // ---------------------------------------------------------------- blocks

  datatype Front = Front(scalars: map<string, string>, lists: map<string, seq<string>>)
  {
    function ScalarOf(key: string): Option<string> { if key in scalars then Some(scalars[key]) else None }
    function ListOf(key: string): seq<string> { if key in lists then lists[key] else [] }
  }

  const NOTHING := Front(map[], map[])

  datatype Parsed = Ok(front: Front) | Bad(line: nat, why: Entry)

  function AddEntry(front: Front, e: Entry, line: nat): Parsed {
    match e
    case Blank => Ok(front)
    case Scalar(key, value) => Ok(front.(scalars := front.scalars[key := value]))
    case List(key, items) => Ok(front.(lists := front.lists[key := items]))
    case _ => Bad(line, e)
  }

  function ParseLines(lines: seq<string>): Parsed {
    if lines == [] then Ok(NOTHING)
    else
      match ParseLines(lines[..|lines| - 1])
      case Bad(n, why) => Bad(n, why)
      case Ok(front) => AddEntry(front, ReadEntry(lines[|lines| - 1]), |lines|)
  }

  lemma {:induction false} BadIsFinal(lines: seq<string>, n: nat)
    requires n <= |lines| && ParseLines(lines[..n]).Bad?
    ensures ParseLines(lines) == ParseLines(lines[..n])
    decreases |lines| - n
  {
    if n < |lines| {
      assert lines[..n + 1][..n] == lines[..n];
      BadIsFinal(lines, n + 1);
    } else {
      assert lines[..n] == lines;
    }
  }

  lemma {:induction false} NextLine(lines: seq<string>, n: nat, front: Front)
    requires n < |lines| && ParseLines(lines[..n]) == Ok(front)
    ensures ParseLines(lines[..n + 1]) == AddEntry(front, ReadEntry(lines[n]), n + 1)
  {
    assert lines[..n + 1][..n] == lines[..n];
  }

  /** The parse stops at the first line that is neither skipped nor an entry. */
  ghost predicate FirstStop(lines: seq<string>, n: nat, why: Entry) {
    && 0 < n <= |lines| && Stops(lines[n - 1], why)
    && forall i :: 0 <= i < n - 1 ==> !Stopping(lines[i])
  }

  ghost predicate Stopping(raw: string) { Stops(raw, Indented) || Stops(raw, NoColon) || Stops(raw, EmptyKey) }

  ghost predicate StoppedRightly(lines: seq<string>, r: Parsed) {
    match r
    case Bad(n, why) => FirstStop(lines, n, why)
    case Ok(_) => forall i :: 0 <= i < |lines| ==> !Stopping(lines[i])
  }

  lemma StoppingIs(raw: string)
    ensures Stopping(raw) <==> ReadEntry(raw) in {Indented, NoColon, EmptyKey}
  {
    StopsIs(raw, Indented);
    StopsIs(raw, NoColon);
    StopsIs(raw, EmptyKey);
  }

  lemma StoppedNext(before: seq<string>, line: string, r: Parsed)
    requires StoppedRightly(before, r)
    ensures StoppedRightly(before + [line],
                if r.Bad? then r else AddEntry(r.front, ReadEntry(line), |before| + 1))
  {
    if r.Ok? {
      StoppingIs(line);
      if ReadEntry(line) in {Indented, NoColon, EmptyKey} {
        StopsIs(line, ReadEntry(line));
      }
    }
  }

  lemma {:induction false} ParseStops(lines: seq<string>)
    ensures StoppedRightly(lines, ParseLines(lines))
    decreases |lines|
  {
    if lines != [] {
      var n := |lines| - 1;
      ParseStops(lines[..n]);
      StoppedNext(lines[..n], lines[n], ParseLines(lines[..n]));
      assert lines == lines[..n] + [lines[n]];
    }
  }

  /** Line `i` gives `key` its value, and no later line does. */
  ghost predicate LastScalar(lines: seq<string>, i: nat, key: string, value: string) {
    && i < |lines| && ReadEntry(lines[i]) == Scalar(key, value)
    && forall j :: i < j < |lines| ==> !(ReadEntry(lines[j]).Scalar? && ReadEntry(lines[j]).key == key)
  }

  lemma LastScalarNext(lines: seq<string>, line: string, i: nat, key: string, value: string)
    requires LastScalar(lines, i, key, value)
    requires !(ReadEntry(line).Scalar? && ReadEntry(line).key == key)
    ensures LastScalar(lines + [line], i, key, value)
  {
  }

  lemma LastLine(lines: seq<string>)
    requires lines != [] && ParseLines(lines).Ok?
    ensures var init, e := lines[..|lines| - 1], ReadEntry(lines[|lines| - 1]);
            && lines == init + [lines[|lines| - 1]]
            && ParseLines(init).Ok? && ParseLines(lines) == AddEntry(ParseLines(init).front, e, |lines|)
  {
  }

  /** Of several lines with one key the last counts. */
  lemma {:induction false} LastCounts(lines: seq<string>, key: string)
    requires ParseLines(lines).Ok? && key in ParseLines(lines).front.scalars
    ensures exists i: nat :: LastScalar(lines, i, key, ParseLines(lines).front.scalars[key])
    decreases |lines|
  {
    LastLine(lines);
    var n := |lines| - 1;
    var line, value := lines[n], ParseLines(lines).front.scalars[key];
    if ReadEntry(line).Scalar? && ReadEntry(line).key == key {
      assert LastScalar(lines, n, key, value);
    } else {
      LastCounts(lines[..n], key);
      var i: nat :| LastScalar(lines[..n], i, key, value);
      LastScalarNext(lines[..n], line, i, key, value);
    }
  }

  ghost predicate LastList(lines: seq<string>, i: nat, key: string, items: seq<string>) {
    && i < |lines| && ReadEntry(lines[i]) == List(key, items)
    && forall j :: i < j < |lines| ==> !(ReadEntry(lines[j]).List? && ReadEntry(lines[j]).key == key)
  }

  lemma LastListNext(lines: seq<string>, line: string, i: nat, key: string, items: seq<string>)
    requires LastList(lines, i, key, items)
    requires !(ReadEntry(line).List? && ReadEntry(line).key == key)
    ensures LastList(lines + [line], i, key, items)
  {
  }

  lemma {:induction false} LastListCounts(lines: seq<string>, key: string)
    requires ParseLines(lines).Ok? && key in ParseLines(lines).front.lists
    ensures exists i: nat :: LastList(lines, i, key, ParseLines(lines).front.lists[key])
    decreases |lines|
  {
    LastLine(lines);
    var n := |lines| - 1;
    var line, items := lines[n], ParseLines(lines).front.lists[key];
    if ReadEntry(line).List? && ReadEntry(line).key == key {
      assert LastList(lines, n, key, items);
    } else {
      LastListCounts(lines[..n], key);
      var i: nat :| LastList(lines[..n], i, key, items);
      LastListNext(lines[..n], line, i, key, items);
    }
  }

  /** Every key some line gives a value has one. */
  lemma {:induction false} KeysAreRead(lines: seq<string>, i: nat)
    requires ParseLines(lines).Ok? && i < |lines|
    ensures ReadEntry(lines[i]).Scalar? ==> ReadEntry(lines[i]).key in ParseLines(lines).front.scalars
    ensures ReadEntry(lines[i]).List? ==> ReadEntry(lines[i]).key in ParseLines(lines).front.lists
    decreases |lines|
  {
    if i < |lines| - 1 {
      KeysAreRead(lines[..|lines| - 1], i);
    }
  }

  method Parse(block: string) returns (r: Parsed)
    ensures r == ParseLines(StrLines(block))
    ensures StoppedRightly(StrLines(block), r)
  {
    ParseStops(StrLines(block));
    var lines := StrLines(block);
    var scalars: map<string, string> := map[];
    var lists: map<string, seq<string>> := map[];
    for n := 0 to |lines|
      invariant ParseLines(lines[..n]) == Ok(Front(scalars, lists))
    {
      var e := ReadEntry(lines[n]);
      NextLine(lines, n, Front(scalars, lists));
      match e {
        case Blank =>
        case Scalar(key, value) => scalars := scalars[key := value];
        case List(key, items) => lists := lists[key := items];
        case _ =>
          BadIsFinal(lines, n + 1);
          return Bad(n + 1, e);
      }
    }
    assert lines[..|lines|] == lines;
    return Ok(Front(scalars, lists));
  }

  // ---------------------------------------------------------------- fences

  predicate ClosesFence(after: string) {
    var trimmed := if StartsWith(after, "\r") then after[1..] else after;
    trimmed == "" || trimmed[0] == '\n'
  }

  /** Where the line of the closing fence starts. */
  function FindFence(rest: string, search: nat): (fence: Option<nat>)
    requires search <= |rest|
    ensures fence.Some? ==> fence.value + 3 <= |rest|
    decreases |rest| - search
  {
    match FindFrom(rest, "\n---", search)
    case None => None
    case Some(i) => if ClosesFence(rest[i + 4..]) then Some(i + 1) else FindFence(rest, i + 4)
  }

  function AfterFence(after: string): string {
    var trimmed := if StartsWith(after, "\r") then after[1..] else after;
    if StartsWith(trimmed, "\n") then trimmed[1..] else ""
  }

  function AfterOpening(source: string): Option<string> {
    if !StartsWith(source, "---") then None
    else
      var rest := source[3..];
      if StartsWith(rest, "\n") then Some(rest[1..])
      else if StartsWith(rest, "\r\n") then Some(rest[2..])
      else None
  }

  /** The frontmatter block and the body. */
  function SplitFile(source: string): Option<(string, string)> {
    match AfterOpening(source)
    case None => None
    case Some(rest) =>
      match FindFence(rest, 0)
      case None => None
      case Some(fence) => Some((rest[..fence], AfterFence(rest[fence + 3..])))
  }

  /** The line behind the newline at `i` is a closing fence: it is `---`, ended by another
      newline, with or without a carriage return, or by the end of the text. */
  predicate ClosesAt(rest: string, i: int) {
    MatchAt(rest, "\n---", i) && ClosesFence(rest[i + 4..])
  }

  /** `at` is where the first closing fence is. */
  ghost predicate FirstFence(rest: string, at: int) {
    ClosesAt(rest, at - 1) && forall i :: ClosesAt(rest, i) ==> at - 1 <= i
  }

  lemma FenceCharacters(rest: string, i: nat)
    requires MatchAt(rest, "\n---", i)
    ensures rest[i] == '\n' && rest[i + 1] == rest[i + 2] == rest[i + 3] == '-'
  {
    var four := rest[i..i + 4];
    assert four[0] == rest[i] && four[1] == rest[i + 1] && four[2] == rest[i + 2] && four[3] == rest[i + 3];
  }

  /** A fence line leaves no room for another within it. */
  lemma NoFenceWithin(rest: string, i: nat, j: int)
    requires MatchAt(rest, "\n---", i) && i < j < i + 4
    ensures !MatchAt(rest, "\n---", j)
  {
    FenceCharacters(rest, i);
    if MatchAt(rest, "\n---", j) {
      FenceCharacters(rest, j);
    }
  }

  ghost predicate NoneBefore(rest: string, n: int) { forall i :: ClosesAt(rest, i) ==> n <= i }

  /** The recursive scan finds the first closing fence, if none closes before it starts. */
  lemma {:induction false} ScanFindsFirst(rest: string, search: nat)
    requires search <= |rest| && NoneBefore(rest, search)
    ensures match FindFence(rest, search)
            case Some(fence) => FirstFence(rest, fence)
            case None => forall i :: !ClosesAt(rest, i)
    decreases |rest| - search
  {
    var found := FindFrom(rest, "\n---", search);
    if found.Some? {
      NoneBeforeMatch(rest, search, found.value);
      if !ClosesFence(rest[found.value + 4..]) {
        ScanFindsFirst(rest, found.value + 4);
      }
    } else {
      forall i ensures !ClosesAt(rest, i) {
        assert search <= i ==> !MatchAt(rest, "\n---", i);
      }
    }
  }

  /** Up to the next match nothing closes, and if that does not, nothing does within it. */
  lemma NoneBeforeMatch(rest: string, search: nat, i: nat)
    requires NoneBefore(rest, search) && search <= i && MatchAt(rest, "\n---", i)
    requires forall j :: search <= j < i ==> !MatchAt(rest, "\n---", j)
    ensures ClosesFence(rest[i + 4..]) ==> FirstFence(rest, i + 1)
    ensures !ClosesFence(rest[i + 4..]) ==> NoneBefore(rest, i + 4)
  {
    forall j | ClosesAt(rest, j) ensures i <= j && (j != i ==> i + 4 <= j) {
      if i < j < i + 4 {
        NoFenceWithin(rest, i, j);
      }
    }
  }

  predicate Opens(opening: string) { opening in {"---\n", "---\r\n"} }

  /** What stands behind the `---` of a closing fence, and the body that leaves. */
  predicate Ends(ending: string, body: string) {
    ending == "\n" + body || ending == "\r\n" + body || (ending in {"", "\r"} && body == "")
  }

  ghost predicate SplitInto(source: string, opening: string, block: string, ending: string, body: string) {
    && source == opening + (block + "---" + ending)
    && Opens(opening) && FirstFence(block + "---" + ending, |block|) && Ends(ending, body)
  }

  /** The source is an opening fence, the block, the first closing fence, and the body. */
  ghost predicate IsSplit(source: string, block: string, body: string) {
    exists opening, ending :: SplitInto(source, opening, block, ending, body)
  }

  lemma OpeningCut(source: string, opening: string, rest: string)
    requires Opens(opening) && source == opening + rest
    ensures AfterOpening(source) == Some(rest)
  {
    assert source[3..] == opening[3..] + rest;
    assert opening == "---\n" ==> source[3..][1..] == rest;
    assert opening == "---\r\n" ==> source[3..][2..] == rest && source[3..][0] == '\r';
  }

  lemma OpeningFound(source: string) returns (opening: string)
    requires AfterOpening(source).Some?
    ensures Opens(opening) && source == opening + AfterOpening(source).value
  {
    opening := if StartsWith(source[3..], "\n") then "---\n" else "---\r\n";
    assert source == "---" + source[3..];
  }

  lemma EndingRead(ending: string, body: string)
    ensures Ends(ending, body) <==> ClosesFence(ending) && AfterFence(ending) == body
  {
    Begins('\r', ending);
    if ending != "" && ending[0] == '\r' {
      EndingWithReturn(ending, ending[1..], body);
    } else {
      NewlineFirst(ending, body);
      assert ending != "\r\n" + body by {
        assert ("\r\n" + body)[0] == '\r';
      }
    }
  }

  lemma EndingWithReturn(ending: string, tail: string, body: string)
    requires StartsWith(ending, "\r") && ending[1..] == tail
    ensures Ends(ending, body) <==> ClosesFence(ending) && AfterFence(ending) == body
  {
    Begins('\r', ending);
    NewlineFirst(tail, body);
    SameTail(ending, "\r\n" + body);
    SameTail(ending, "\r");
    assert ("\r\n" + body)[1..] == "\n" + body && "\r"[1..] == "";
    assert ending != "\n" + body && ending != "" by {
      assert ("\n" + body)[0] == '\n';
    }
  }

  lemma SameTail(a: string, b: string)
    requires a != "" && b != "" && a[0] == b[0]
    ensures a == b <==> a[1..] == b[1..]
  {
    assert a == [a[0]] + a[1..] && b == [b[0]] + b[1..];
  }

  lemma Begins(c: char, s: string)
    ensures StartsWith(s, [c]) <==> s != "" && s[0] == c
  {
    if s != "" {
      assert s == [s[0]] + s[1..];
    }
  }

  lemma NewlineFirst(s: string, body: string)
    ensures s == "\n" + body <==> s != "" && s[0] == '\n' && s[1..] == body
    ensures StartsWith(s, "\n") <==> s != "" && s[0] == '\n'
  {
    Begins('\n', s);
    if s != "" {
      assert s == [s[0]] + s[1..];
    }
  }

  lemma FenceParts(rest: string, at: nat)
    requires ClosesAt(rest, at - 1)
    ensures at + 3 <= |rest| && rest == rest[..at] + "---" + rest[at + 3..] && ClosesFence(rest[at + 3..])
  {
    assert rest[at - 1..at + 3][1..] == "---" && rest[at..at + 3] == rest[at - 1..at + 3][1..];
  }

  /** Reading a file apart, both ways. */
  lemma SplitMeans(source: string, block: string, body: string)
    ensures SplitFile(source) == Some((block, body)) <==> IsSplit(source, block, body)
  {
    if SplitFile(source) == Some((block, body)) {
      SplitGives(source, block, body);
    }
    if opening, ending :| SplitInto(source, opening, block, ending, body) {
      var rest := block + "---" + ending;
      OpeningCut(source, opening, rest);
      ScanFindsFirst(rest, 0);
      assert FindFence(rest, 0) == Some(|block|);
      assert rest[|block| + 3..] == ending && rest[..|block|] == block;
      EndingRead(ending, body);
    }
  }

  lemma SplitGives(source: string, block: string, body: string)
    requires SplitFile(source) == Some((block, body))
    ensures IsSplit(source, block, body)
  {
    var opening := OpeningFound(source);
    var rest := AfterOpening(source).value;
    ScanFindsFirst(rest, 0);
    FenceGives(source, opening, rest, FindFence(rest, 0).value);
  }

  lemma FenceGives(source: string, opening: string, rest: string, at: nat)
    requires source == opening + rest && Opens(opening) && FirstFence(rest, at) && at + 3 <= |rest|
    ensures IsSplit(source, rest[..at], AfterFence(rest[at + 3..]))
  {
    var body := AfterFence(rest[at + 3..]);
    FenceParts(rest, at);
    EndingRead(rest[at + 3..], body);
    PartsTogether(source, opening, rest, at, body);
  }

  lemma PartsTogether(source: string, opening: string, rest: string, at: nat, body: string)
    requires source == opening + rest && Opens(opening) && FirstFence(rest, at)
    requires at + 3 <= |rest| && Ends(rest[at + 3..], body)
    ensures SplitInto(source, opening, rest[..at], rest[at + 3..], body)
  {
    FenceParts(rest, at);
  }

  method Split(source: string) returns (r: Option<(string, string)>)
    ensures forall block, body :: r == Some((block, body)) <==> IsSplit(source, block, body)
    ensures r == SplitFile(source)
  {
    var opening := AfterOpening(source);
    if opening.None? {
      r := None;
    } else {
      var rest := opening.value;
      var fence := ScanForFence(rest);
      ScanFindsFirst(rest, 0);
      assert fence == FindFence(rest, 0);
      r := if fence.None? then None else Some((rest[..fence.value], AfterFence(rest[fence.value + 3..])));
    }
    forall block, body ensures r == Some((block, body)) <==> IsSplit(source, block, body) {
      SplitMeans(source, block, body);
    }
  }

  /** `found` is the first `---` behind a newline from `search` on. */
  ghost predicate IsNext(rest: string, search: nat, found: Option<nat>) {
    match found
    case Some(i) =>
      search <= i && MatchAt(rest, "\n---", i) && forall j :: search <= j < i ==> !MatchAt(rest, "\n---", j)
    case None => forall j :: search <= j ==> !MatchAt(rest, "\n---", j)
  }

  function NextDashes(rest: string, search: nat): (found: Option<nat>)
    requires search <= |rest|
    ensures IsNext(rest, search, found)
  {
    FindFrom(rest, "\n---", search)
  }

  method ScanForFence(rest: string) returns (fence: Option<nat>)
    ensures fence.Some? ==> FirstFence(rest, fence.value)
    ensures fence.None? ==> forall i :: !ClosesAt(rest, i)
  {
    var search := 0;
    var found := NextDashes(rest, search);
    while found.Some?
      invariant search <= |rest| && NoneBefore(rest, search)
      invariant IsNext(rest, search, found)
      decreases |rest| - search
    {
      NoneBeforeMatch(rest, search, found.value);
      if ClosesFence(rest[found.value + 4..]) {
        return Some(found.value + 1);
      }
      search := found.value + 4;
      found := NextDashes(rest, search);
    }
    forall i ensures !ClosesAt(rest, i) {
      assert search <= i ==> !MatchAt(rest, "\n---", i);
    }
    return None;
  }
}
