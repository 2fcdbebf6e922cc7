/** Exactly which skills survive being printed and read back. */
module SkillRoundTrip {
  import opened Frontmatter
  import opened Lines
  import opened SkillFile
  import opened Splitting
  import opened Text
  import opened Trimming

  // ---------------------------------------------------------------- one scalar

  /** The values that quoting brings back. */
  predicate Invertible(v: string) {
    if NeedsQuotes(v) then '\\' !in v && '"' !in v else Trim(v) == v
  }

  lemma EscapeChar(s: string, c: char, sub: string)
    requires |sub| == 2
    ensures |Replace(s, [c], sub)| >= |s|
    ensures |Replace(s, [c], sub)| == |s| <==> c !in s
    ensures c !in s ==> Replace(s, [c], sub) == s
  {
    OccursChar(s, c);
    ReplaceLength(s, [c], sub);
    ReplaceAbsent(s, [c], sub);
  }

  lemma EscapeUnchanged(v: string)
    ensures var e := Replace(Replace(v, "\\", "\\\\"), "\"", "\\\"");
            |e| >= |v| && (e == v <==> '\\' !in v && '"' !in v)
  {
    EscapeChar(v, '\\', "\\\\");
    EscapeChar(Replace(v, "\\", "\\\\"), '"', "\\\"");
  }

  /** What unquoting a trimmed value gives: the value, or something shorter. */
  lemma UnquoteShape(t: string)
    requires Tight(t)
    ensures Unquote(t) == if QuotedBy(t, '"') || QuotedBy(t, '\'') then t[1..|t| - 1] else t
  {
    TightTrims(t);
  }

  lemma EmittedQuoted(v: string)
    requires NeedsQuotes(v)
    ensures Tight(EmitScalar(v)) && !IsList(EmitScalar(v)) && EmitScalar(v) != ""
    ensures Unquote(EmitScalar(v)) == v <==> Invertible(v)
  {
    var e := Replace(Replace(v, "\\", "\\\\"), "\"", "\\\"");
    EscapeUnchanged(v);
    assert EmitScalar(v) == "\"" + e + "\"";
    UnquoteShape(EmitScalar(v));
    assert EmitScalar(v)[1..|EmitScalar(v)| - 1] == e;
  }

  /** An emitted scalar, trimmed and unquoted, is the value itself exactly on invertible values. */
  lemma ScalarRestored(v: string)
    ensures var t := Trim(EmitScalar(v));
            (!IsList(t) && Unquote(t) == v <==> Invertible(v)) && (Unquote(t) == v ==> Invertible(v))
    ensures Invertible(v) ==> Trim(EmitScalar(v)) != ""
  {
    var e := EmitScalar(v);
    if NeedsQuotes(v) {
      EmittedQuoted(v);
      TightTrims(e);
    } else {
      var a, b := TrimParts(v);
      UnquoteShape(Trim(v));
    }
  }

  // ---------------------------------------------------------------- one line

  predicate KeyOk(key: string) {
    key != "" && forall c :: c in key ==> 'a' <= c <= 'z' || c == '_'
  }

  function FieldEntry(key: string, text: string): Entry {
    var value := Trim(text);
    if IsList(value) then List(key, Items(value[1..|value| - 1])) else Scalar(key, Unquote(value))
  }

  lemma {:induction false} TrimEndBehind(a: string, b: string)
    requires a != "" && !IsWhitespace(a[|a| - 1])
    ensures TrimEnd(a + b) == a + TrimEnd(b)
    decreases |b|
  {
    if b == "" {
      assert a + b == a;
    } else if IsWhitespace(b[|b| - 1]) {
      assert (a + b)[..|a + b| - 1] == a + b[..|b| - 1];
      TrimEndBehind(a, b[..|b| - 1]);
    }
  }

  lemma TrimLead(text: string)
    ensures Trim(" " + text) == Trim(text)
  {
    var a, b := TrimParts(text);
    var m := Trim(text);
    assert " " + text == (" " + a) + m + b;
    TrimIs(" " + a, m, b);
  }

  lemma TrimTrail(text: string)
    ensures Trim(TrimEnd(text)) == Trim(text)
  {
    var c := TrimEndParts(text);
    var a, b := TrimParts(TrimEnd(text));
    var m := Trim(TrimEnd(text));
    assert text == a + m + (b + c);
    TrimIs(a, m, b + c);
  }

  /** Leading blanks and trailing white space do not show in a trimmed value. */
  lemma TrimAround(text: string)
    ensures Trim(TrimEnd(" " + text)) == Trim(text) && Trim(" " + text) == Trim(text)
  {
    TrimLead(text);
    TrimTrail(" " + text);
  }

  lemma KeyColon(key: string, rest: string)
    requires KeyOk(key)
    ensures Find(key + ":" + rest, ":") == Some(|key|)
    ensures Tight(key)
  {
    var s := key + ":" + rest;
    MatchBetween(key, ":", rest);
    forall j | 0 <= j < |key| ensures !MatchAt(s, ":", j) {
      assert key[j] in key && s[j..j + 1] == [key[j]];
    }
    FindIs(s, ":", |key|);
    assert key[0] in key && key[|key| - 1] in key;
  }

  lemma LineTrimmed(key: string, text: string)
    ensures TrimEnd(Line(key, text)) == key + ":" + TrimEnd(" " + text)
  {
    assert Line(key, text) == (key + ":") + (" " + text);
    TrimEndBehind(key + ":", " " + text);
  }

  /** A trimmed line that starts with a key is neither blank, a comment nor indented. */
  lemma KeyInFront(key: string, rest: string)
    requires KeyOk(key)
    ensures var line := key + ":" + rest;
            Trim(line) != "" && !StartsWith(TrimStart(line), "#") && !IsWhitespace(line[0])
  {
    var line := key + ":" + rest;
    assert line[0] == key[0] && key[0] in key;
    TrimNonempty(line);
  }

  lemma AroundColon(key: string, rest: string)
    ensures (key + ":" + rest)[..|key|] == key && (key + ":" + rest)[|key| + 1..] == rest
  {
  }

  /** Reading a line whose parts are known. */
  lemma EntryRead(raw: string, line: string, i: nat, key: string, value: string)
    requires TrimEnd(raw) == line && Trim(line) != "" && !StartsWith(TrimStart(line), "#")
    requires line != "" && !IsWhitespace(line[0]) && Find(line, ":") == Some(i)
    requires Trim(line[..i]) == key != "" && Trim(line[i + 1..]) == value
    ensures ReadEntry(raw) == if IsList(value) then List(key, Items(value[1..|value| - 1]))
        else Scalar(key, Unquote(value))
  {
  }

  lemma KeyAndValue(key: string, rest: string)
    requires KeyOk(key)
    ensures var line := key + ":" + rest;
            Find(line, ":") == Some(|key|) && Trim(line[..|key|]) == key && Trim(line[|key| + 1..]) == Trim(rest)
  {
    KeyColon(key, rest);
    AroundColon(key, rest);
    TightTrims(key);
  }

  lemma ReadField(key: string, text: string)
    requires KeyOk(key)
    ensures ReadEntry(Line(key, text)) == FieldEntry(key, text)
  {
    var rest := TrimEnd(" " + text);
    LineTrimmed(key, text);
    KeyInFront(key, rest);
    KeyAndValue(key, rest);
    TrimAround(text);
    EntryRead(Line(key, text), key + ":" + rest, |key|, key, Trim(text));
  }

  lemma TrimNonempty(s: string)
    requires s != "" && !IsWhitespace(s[0])
    ensures Trim(s) != ""
  {
    var a, b := TrimParts(s);
    assert s[0] in s;
  }

  // ---------------------------------------------------------------- lists

  function ReadItem(v: string): seq<string> {
    var t := Trim(EmitScalar(v));
    if t == "" then [] else [Unquote(t)]
  }

  function ReadItems(items: seq<string>): seq<string> {
    if items == [] then [] else ReadItem(items[0]) + ReadItems(items[1..])
  }

  lemma EmitAddsNo(v: string, c: char)
    requires c !in v && c != '"' && c != '\\'
    ensures c !in EmitScalar(v)
  {
    if NeedsQuotes(v) {
      ReplaceAddsNo(v, "\\", "\\\\", c);
      ReplaceAddsNo(Replace(v, "\\", "\\\\"), "\"", "\\\"", c);
    }
  }

  lemma {:induction false} ReplaceAddsNo(s: string, pat: string, sub: string, c: char)
    requires pat != "" && c !in s && c !in sub
    ensures c !in Replace(s, pat, sub)
    decreases |s|
  {
    var found := Find(s, pat);
    if found.Some? {
      ReplaceAddsNo(s[found.value + |pat|..], pat, sub, c);
    }
  }

  lemma NoCommaGap(gap: string)
    requires ',' !in gap
    ensures GapOk(gap, ",") && Gaps(gap, ",") == [gap]
  {
    OccursChar(gap, ',');
    var s := gap + ",";
    forall j | 0 <= j < |gap| ensures !MatchAt(s, ",", j) {
      assert s[j..j + 1] == [gap[j]];
    }
  }

  lemma NonemptyStep(gap: string, pieces: seq<string>)
    ensures Nonempty([gap] + pieces) == (if Trim(gap) == "" then [] else [Unquote(Trim(gap))]) + Nonempty(pieces)
  {
    assert ([gap] + pieces)[1..] == pieces;
  }

  lemma JoinStep(items: seq<string>)
    requires items != []
    ensures JoinList(items) == if |items| == 1 then EmitScalar(items[0])
        else EmitScalar(items[0]) + ", " + JoinList(items[1..])
  {
    assert EmitAll(items)[1..] == EmitAll(items[1..]);
    assert |items| > 1 ==> EmitAll(items[1..]) != [];
  }

  /** A printed item, alone or in front of a comma. */
  lemma GapRead(v: string, lead: string, tail: string)
    requires ',' !in v && (lead == "" || lead == " ")
    ensures Items(lead + EmitScalar(v)) == ReadItem(v)
    ensures Items(lead + EmitScalar(v) + "," + tail) == ReadItem(v) + Items(tail)
  {
    var gap := lead + EmitScalar(v);
    EmitAddsNo(v, ',');
    TrimAround(EmitScalar(v));
    assert "" + EmitScalar(v) == EmitScalar(v);
    NoCommaGap(gap);
    var none: seq<string> := [];
    assert [gap] + none == [gap];
    NonemptyStep(gap, none);
    UniqueStep(gap, ",", tail);
    NonemptyStep(gap, Gaps(tail, ","));
  }

  lemma LeadStep(items: seq<string>, lead: string)
    requires |items| > 1
    ensures lead + JoinList(items) == lead + EmitScalar(items[0]) + "," + (" " + JoinList(items[1..]))
  {
    JoinStep(items);
    CommaApart(lead, EmitScalar(items[0]), JoinList(items[1..]));
  }

  lemma CommaApart(lead: string, first: string, rest: string)
    ensures lead + (first + ", " + rest) == lead + first + "," + (" " + rest)
  {
    assert ", " == "," + " ";
  }

  /** A printed list is split into its items again, one by one. */
  lemma {:induction false} ListRead(items: seq<string>, lead: string)
    requires items != [] && (lead == "" || lead == " ")
    requires forall v :: v in items ==> ',' !in v
    ensures Items(lead + JoinList(items)) == ReadItems(items)
    decreases |items|
  {
    GapRead(items[0], lead, " " + JoinList(items[1..]));
    if |items| == 1 {
      JoinStep(items);
    } else {
      LeadStep(items, lead);
      ListRead(items[1..], " ");
    }
  }

  lemma {:induction false} ItemsRestored(items: seq<string>)
    ensures |ReadItems(items)| <= |items|
    ensures ReadItems(items) == items <==> forall v :: v in items ==> Invertible(v)
  {
    if items != [] {
      var rest := items[1..];
      ItemsRestored(rest);
      ScalarRestored(items[0]);
      assert items == [items[0]] + rest;
      assert forall v :: v in items <==> v == items[0] || v in rest;
      assert ReadItems(items) != [] ==> |ReadItems(items)| == |items| ==> ReadItems(items)[1..] == ReadItems(rest);
    }
  }

  // ---------------------------------------------------------------- the fences

  predicate LineOk(line: string) { line != "" && 'a' <= line[0] <= 'z' && '\n' !in line }

  predicate LinesOk(lines: seq<string>) { forall l :: l in lines ==> LineOk(l) }

  lemma {:induction false} UnlinesShape(lines: seq<string>)
    requires lines != [] && LinesOk(lines)
    ensures Unlines(lines) != "" && 'a' <= Unlines(lines)[0] <= 'z' && Unlines(lines)[|Unlines(lines)| - 1] == '\n'
    ensures forall j :: 0 <= j < |Unlines(lines)| - 1 && Unlines(lines)[j] == '\n' ==>
        'a' <= Unlines(lines)[j + 1] <= 'z'
  {
    var line, rest := lines[0], lines[1..];
    assert LineOk(line);
    var head := line + "\n";
    assert Unlines(lines) == head + Unlines(rest);
    if rest != [] {
      UnlinesShape(rest);
    }
    assert forall j :: 0 <= j < |line| ==> head[j] in line;
  }

  lemma Opening(rest: string)
    ensures AfterOpening("---\n" + rest) == Some(rest)
  {
    var source := "---\n" + rest;
    assert source[3..] == "\n" + rest;
    assert ("\n" + rest)[1..] == rest;
  }

  lemma Closing(body: string)
    ensures ClosesFence("\n" + body) && AfterFence("\n" + body) == body
  {
    var after := "\n" + body;
    assert after[1..] == body && after[0] == '\n';
    assert !StartsWith(after, "\r") by {
      assert "\r"[0] != after[0];
    }
  }

  ghost predicate LettersAfterNewlines(u: string) {
    forall j :: 0 <= j < |u| - 1 && u[j] == '\n' ==> 'a' <= u[j + 1] <= 'z'
  }

  lemma NoEarlyFence(u: string, rest: string, j: nat)
    requires u <= rest && LettersAfterNewlines(u) && j < |u| - 1
    ensures !MatchAt(rest, "\n---", j)
  {
    if MatchAt(rest, "\n---", j) {
      NewlineThenDash(rest, j);
    }
  }

  lemma FenceAt(u: string, rest: string, body: string)
    requires u != "" && u[|u| - 1] == '\n' && LettersAfterNewlines(u)
    requires u <= rest && rest[|u|..] == "---\n" + body
    ensures FindFence(rest, 0) == Some(|u|) && rest[|u| + 3..] == "\n" + body
  {
    var at := |u| - 1;
    assert rest[|u|..][..3] == "---" && rest[at..at + 4] == [rest[at]] + rest[|u|..][..3];
    assert MatchAt(rest, "\n---", at);
    forall j | 0 <= j < at ensures !MatchAt(rest, "\n---", j) {
      NoEarlyFence(u, rest, j);
    }
    FindIs(rest, "\n---", at);
    assert rest[at + 4..] == rest[|u|..][3..] == "\n" + body;
    Closing(body);
  }

  /** The first fence line that closes is the one the printer wrote, whatever the body holds. */
  lemma FenceFound(lines: seq<string>, body: string)
    requires lines != [] && LinesOk(lines)
    ensures SplitFile("---\n" + (Unlines(lines) + ("---\n" + body))) == Some((Unlines(lines), body))
  {
    var u := Unlines(lines);
    var rest := u + ("---\n" + body);
    Opening(rest);
    UnlinesShape(lines);
    FenceAt(u, rest, body);
    Closing(body);
  }

  lemma NewlineThenDash(s: string, j: nat)
    requires MatchAt(s, "\n---", j)
    ensures s[j] == '\n' && s[j + 1] == '-'
  {
    assert s[j..j + 4][0] == s[j] && s[j..j + 4][1] == s[j + 1];
  }

  // ---------------------------------------------------------------- the block

  lemma {:induction false} CrIsTrimmed(line: string)
    ensures ReadEntry(StripCr(line)) == ReadEntry(line)
  {
    TrimEndStripsCr(line);
  }

  lemma {:induction false} TrimEndStripsCr(line: string)
    ensures TrimEnd(StripCr(line)) == TrimEnd(line)
  {
  }

  lemma {:induction false} ParseStripped(lines: seq<string>)
    ensures |Stripped(lines)| == |lines| && ParseLines(Stripped(lines)) == ParseLines(lines)
    ensures forall i :: 0 <= i < |lines| ==> Stripped(lines)[i] == StripCr(lines[i])
    decreases |lines|
  {
    if lines != [] {
      var init, last := lines[..|lines| - 1], lines[|lines| - 1];
      ParseStripped(init);
      StrippedSnoc(init, last);
      assert lines == init + [last];
      assert (Stripped(init) + [StripCr(last)])[..|init|] == Stripped(init);
      CrIsTrimmed(last);
    }
  }

  lemma {:induction false} StrippedSnoc(init: seq<string>, last: string)
    ensures Stripped(init + [last]) == Stripped(init) + [StripCr(last)]
  {
    if init == [] {
      assert init + [last] == [last];
    } else {
      StrippedSnoc(init[1..], last);
      assert (init + [last])[1..] == init[1..] + [last];
    }
  }

  // ---------------------------------------------------------------- the frontmatter

  function PutField(front: Front, f: Field): Front {
    if f.present then AddEntry(front, FieldEntry(f.key, f.text), 0).front else front
  }

  function FrontOf(fields: seq<Field>): Front {
    if fields == [] then NOTHING else PutField(FrontOf(fields[..|fields| - 1]), fields[|fields| - 1])
  }

  lemma {:induction false} FieldsParse(fields: seq<Field>)
    requires forall f :: f in fields ==> KeyOk(f.key)
    ensures ParseLines(LinesOf(fields)) == Ok(FrontOf(fields))
    decreases |fields|
  {
    if fields != [] {
      var init, f := fields[..|fields| - 1], fields[|fields| - 1];
      FieldsParse(init);
      if f.present {
        var lines, line := LinesOf(init), Line(f.key, f.text);
        assert (lines + [line])[..|lines|] == lines;
        ReadField(f.key, f.text);
      } else {
        assert LinesOf(init) + [] == LinesOf(init);
      }
    }
  }

  ghost predicate DistinctKeys(fields: seq<Field>) {
    forall i, j :: 0 <= i < j < |fields| ==> fields[i].key != fields[j].key
  }

  lemma {:induction false} AbsentKey(fields: seq<Field>, key: string)
    requires forall f :: f in fields ==> f.key != key
    ensures FrontOf(fields).ScalarOf(key) == None && FrontOf(fields).ListOf(key) == []
    decreases |fields|
  {
    if fields != [] {
      AbsentKey(fields[..|fields| - 1], key);
    }
  }

  /** The scalar, and the list, that a field is read as. */
  function ScalarRead(f: Field): Option<string> {
    if f.present && !IsList(Trim(f.text)) then Some(Unquote(Trim(f.text))) else None
  }

  function ListedRead(f: Field): seq<string> {
    var t := Trim(f.text);
    if f.present && IsList(t) then Items(t[1..|t| - 1]) else []
  }

  lemma {:induction false} Lookup(fields: seq<Field>, i: nat)
    requires DistinctKeys(fields) && i < |fields|
    ensures FrontOf(fields).ScalarOf(fields[i].key) == ScalarRead(fields[i])
    ensures FrontOf(fields).ListOf(fields[i].key) == ListedRead(fields[i])
    decreases |fields|
  {
    var init, last := fields[..|fields| - 1], fields[|fields| - 1];
    if i < |init| {
      assert init[i] == fields[i];
      Lookup(init, i);
      PutOther(FrontOf(init), last, fields[i].key);
    } else {
      AbsentKey(init, fields[i].key);
      PutOwn(FrontOf(init), last);
    }
  }

  lemma PutOther(front: Front, f: Field, key: string)
    requires f.key != key
    ensures PutField(front, f).ScalarOf(key) == front.ScalarOf(key) &&
        PutField(front, f).ListOf(key) == front.ListOf(key)
  {
  }

  lemma PutOwn(front: Front, f: Field)
    requires front.ScalarOf(f.key) == None && front.ListOf(f.key) == []
    ensures PutField(front, f).ScalarOf(f.key) == ScalarRead(f) && PutField(front, f).ListOf(f.key) == ListedRead(f)
  {
  }

  lemma KeysOk()
    ensures KeyOk("name") && KeyOk("description") && KeyOk("created_by") && KeyOk("editors")
    ensures KeyOk("enabled_tools") && KeyOk("created_at") && KeyOk("updated_at")
  {
  }

  lemma KeysDiffer()
    ensures "created_by" != "created_at" && "created_at" != "updated_at" && "created_by" != "updated_at"
  {
    assert "created_by"[8] != "created_at"[8];
    assert "created_by"[0] != "updated_at"[0];
    assert "created_at"[0] != "updated_at"[0];
  }

  lemma FieldsOk(s: Skill)
    ensures DistinctKeys(Fields(s)) && forall f :: f in Fields(s) ==> KeyOk(f.key)
  {
    KeysOk();
    KeysDiffer();
    var fs := Fields(s);
    assert |fs[0].key| == 4 && |fs[1].key| == 11 && |fs[2].key| == 10 && |fs[3].key| == 7 && |fs[4].key| == 13;
    assert fs[5].key == "created_at" && fs[6].key == "updated_at" && |fs[5].key| == |fs[6].key| == 10;
  }

  // ---------------------------------------------------------------- the whole document

  /** The metadata is single-line. */
  predicate SingleLine(s: Skill) {
    && '\n' !in s.name
    && (s.description.Some? ==> '\n' !in s.description.value)
    && (s.createdBy.Some? ==> '\n' !in s.createdBy.value)
    && (forall v :: v in s.editors ==> '\n' !in v)
    && (forall v :: v in s.enabledTools ==> '\n' !in v)
  }

  lemma {:induction false} JoinListAddsNo(items: seq<string>)
    requires forall v :: v in items ==> '\n' !in v
    ensures '\n' !in JoinList(items)
  {
    if items != [] {
      JoinStep(items);
      EmitAddsNo(items[0], '\n');
      JoinListAddsNo(items[1..]);
    }
  }

  lemma OptionFieldText(key: string, o: Option<string>)
    requires o.Some? ==> '\n' !in o.value
    ensures '\n' !in OptionField(key, o).text
  {
    if o.Some? { EmitAddsNo(o.value, '\n'); }
  }

  lemma ListFieldText(key: string, items: seq<string>)
    requires forall v :: v in items ==> '\n' !in v
    ensures '\n' !in ListField(key, items).text
  {
    JoinListAddsNo(items);
  }

  lemma NumberText(n: nat)
    ensures '\n' !in Decimal(n) && !IsList(Trim(Decimal(n))) && Unquote(Trim(Decimal(n))) == Decimal(n)
  {
    DecimalDigits(n);
    DigitsAreTight(Decimal(n));
    TightTrims(Decimal(n));
  }

  lemma FieldText(s: Skill, k: nat)
    requires SingleLine(s) && k < |Fields(s)|
    ensures '\n' !in Fields(s)[k].text
  {
    match k
    case 0 => EmitAddsNo(s.name, '\n');
    case 1 => OptionFieldText("description", s.description);
    case 2 => OptionFieldText("created_by", s.createdBy);
    case 3 => ListFieldText("editors", s.editors);
    case 4 => ListFieldText("enabled_tools", s.enabledTools);
    case 5 => NumberText(s.createdAt);
    case _ => NumberText(s.updatedAt);
  }

  lemma FieldTexts(s: Skill)
    requires SingleLine(s)
    ensures forall f :: f in Fields(s) ==> '\n' !in f.text
  {
    forall k | 0 <= k < |Fields(s)| ensures '\n' !in Fields(s)[k].text {
      FieldText(s, k);
    }
  }

  lemma {:induction false} FieldLinesOk(fields: seq<Field>)
    requires forall f :: f in fields ==> KeyOk(f.key) && f.key[0] != '_' && '\n' !in f.text
    ensures LinesOk(LinesOf(fields))
    decreases |fields|
  {
    if fields != [] {
      var f := fields[|fields| - 1];
      FieldLinesOk(fields[..|fields| - 1]);
      var line := Line(f.key, f.text);
      assert f.key[0] in f.key && line[0] == f.key[0];
      assert LineOk(line);
    }
  }

  lemma {:induction false} FirstPresent(fields: seq<Field>)
    requires fields != [] && fields[0].present
    ensures LinesOf(fields) != []
    decreases |fields|
  {
    if |fields| > 1 {
      FirstPresent(fields[..|fields| - 1]);
    }
  }

  lemma DocumentReads(s: Skill, fallback: string)
    requires SingleLine(s)
    ensures ParseSkillMd(Document(s), fallback) ==
            Loaded(FromFront(FrontOf(Fields(s)), Terminated(s.instructions), fallback))
  {
    var lines := LinesOf(Fields(s));
    FieldsOk(s);
    FieldTexts(s);
    forall f | f in Fields(s) ensures f.key[0] != '_' {
    }
    FieldLinesOk(Fields(s));
    FirstPresent(Fields(s));
    FenceFound(lines, Terminated(s.instructions));
    LinesOfUnlines(lines);
    ParseStripped(lines);
    FieldsParse(Fields(s));
  }

  /** What reading gives for a printed optional scalar, and when that is the scalar printed. */
  function OptionBack(o: Option<string>): Option<string> {
    if o.None? then None
    else
      var t := Trim(EmitScalar(o.value));
      if IsList(t) || Unquote(t) == "" then None else Some(Unquote(t))
  }

  predicate OptionOk(o: Option<string>) { o.None? || (o.value != "" && Invertible(o.value)) }

  lemma OptionRestored(o: Option<string>)
    ensures OptionBack(o) == o <==> OptionOk(o)
  {
    if o.Some? {
      ScalarRestored(o.value);
    }
  }

  function NameBack(name: string, fallback: string): string {
    var read := OptionBack(Some(name));
    if read.Some? then read.value else fallback
  }

  /** A name that the reader takes for none: empty, or unquoted and trimming to nothing, to
      a list, or to an empty pair of quotes. */
  predicate NoName(name: string) {
    name == ""
    || (!NeedsQuotes(name) && (Trim(name) == "" || IsList(Trim(name)) || Trim(name) in {"\"\"", "''"}))
  }

  /** The name comes back if quoting inverts it, or if it is none and is the fallback. */
  predicate NameOk(name: string, fallback: string) {
    (name != "" && Invertible(name)) || (fallback == name && NoName(name))
  }

  lemma NoNameRead(name: string)
    ensures OptionBack(Some(name)) == None <==> NoName(name)
  {
    var e := EmitScalar(name);
    if NeedsQuotes(name) {
      QuotedText(name);
      EmittedQuoted(name);
      TightTrims(e);
      UnquoteShape(e);
    } else {
      var a, b := TrimParts(name);
      UnquoteShape(Trim(name));
      EmptyQuotes(Trim(name));
    }
  }

  lemma QuotedText(v: string)
    requires NeedsQuotes(v)
    ensures |EmitScalar(v)| >= |v| + 2 && (v == "" ==> |EmitScalar(v)| == 2) && QuotedBy(EmitScalar(v), '"')
  {
    EscapeUnchanged(v);
  }

  lemma EmptyQuotes(t: string)
    ensures (QuotedBy(t, '"') || QuotedBy(t, '\'')) && |t| == 2 <==> t in {"\"\"", "''"}
  {
    if |t| == 2 {
      assert t == [t[0], t[1]];
    }
  }

  lemma NameRestored(name: string, fallback: string)
    ensures NameBack(name, fallback) == name <==> NameOk(name, fallback)
  {
    OptionRestored(Some(name));
    NoNameRead(name);
  }

  predicate ListOk(items: seq<string>) { forall v :: v in items ==> ',' !in v && Invertible(v) }

  lemma ListedBack(key: string, items: seq<string>)
    requires forall v :: v in items ==> ',' !in v
    ensures ListedRead(ListField(key, items)) == ReadItems(items)
  {
    if items != [] {
      var text := "[" + JoinList(items) + "]";
      TightTrims(text);
      assert text[1..|text| - 1] == "" + JoinList(items);
      ListRead(items, "");
    }
  }

  /** A list holding a comma comes back with none. */
  lemma {:induction false} NoCommaItems(pieces: seq<string>)
    requires forall p :: p in pieces ==> ',' !in p
    ensures forall v :: v in Nonempty(pieces) ==> ',' !in v
  {
    if pieces != [] {
      NoCommaItems(pieces[1..]);
      UnquoteKeepsOut(pieces[0], ',');
    }
  }

  lemma UnquoteKeepsOut(p: string, c: char)
    requires c !in p
    ensures c !in Trim(p) && c !in Unquote(Trim(p)) && c !in Unquote(p)
  {
    var a, b := TrimParts(p);
    var a', b' := TrimParts(Trim(p));
  }

  lemma {:induction false} GapsKeepOut(s: string, pat: string, c: char)
    requires pat != "" && (pat == [c] || c !in s)
    ensures forall g :: g in Gaps(s, pat) ==> c !in g
    decreases |s|
  {
    var found := Find(s, pat);
    if found.Some? {
      GapsKeepOut(s[found.value + |pat|..], pat, c);
      if pat == [c] {
        BeforeFirstMatch(s, pat, found.value);
        OccursChar(s[..found.value], c);
      }
    } else {
      OccursChar(s, c);
    }
  }

  lemma ListRestored(key: string, items: seq<string>)
    ensures ListedRead(ListField(key, items)) == items <==> ListOk(items)
  {
    if forall v :: v in items ==> ',' !in v {
      ListedBack(key, items);
      ItemsRestored(items);
    } else {
      ListedHasNoComma(key, items);
    }
  }

  lemma ListedHasNoComma(key: string, items: seq<string>)
    ensures forall v :: v in ListedRead(ListField(key, items)) ==> ',' !in v
  {
    var t := Trim(ListField(key, items).text);
    if IsList(t) {
      var inner := t[1..|t| - 1];
      GapsKeepOut(inner, ",", ',');
      NoCommaItems(Gaps(inner, ","));
    }
  }

  // ---------------------------------------------------------------- what reading can never give

  predicate EntryClean(e: Entry) {
    match e
    case Scalar(_, v) => '\n' !in v
    case List(_, items) => forall v :: v in items ==> '\n' !in v
    case _ => true
  }

  lemma {:induction false} ItemsClean(pieces: seq<string>)
    requires forall p :: p in pieces ==> '\n' !in p
    ensures forall v :: v in Nonempty(pieces) ==> '\n' !in v
  {
    if pieces != [] {
      ItemsClean(pieces[1..]);
      UnquoteKeepsOut(pieces[0], '\n');
    }
  }

  lemma ReadEntryClean(raw: string)
    requires '\n' !in raw
    ensures EntryClean(ReadEntry(raw))
  {
    var b := TrimEndParts(raw);
    var line := TrimEnd(raw);
    var found := Find(line, ":");
    if found.Some? {
      var rest := line[found.value + 1..];
      UnquoteKeepsOut(rest, '\n');
      UnquoteKeepsOut(Trim(rest), '\n');
      if IsList(Trim(rest)) {
        var inner := Trim(rest)[1..|Trim(rest)| - 1];
        GapsKeepOut(inner, ",", '\n');
        ItemsClean(Gaps(inner, ","));
      }
    }
  }

  predicate FrontClean(front: Front) {
    && (forall k :: k in front.scalars ==> '\n' !in front.scalars[k])
    && (forall k, v :: k in front.lists && v in front.lists[k] ==> '\n' !in v)
  }

  lemma {:induction false} ParseClean(lines: seq<string>)
    requires forall l :: l in lines ==> '\n' !in l
    ensures ParseLines(lines).Ok? ==> FrontClean(ParseLines(lines).front)
    decreases |lines|
  {
    if lines != [] {
      ParseClean(lines[..|lines| - 1]);
      ReadEntryClean(lines[|lines| - 1]);
    }
  }

  /** Whatever is read has single-line metadata. */
  lemma ReadsSingleLine(source: string, fallback: string)
    requires '\n' !in fallback
    ensures ParseSkillMd(source, fallback).Loaded? ==> SingleLine(ParseSkillMd(source, fallback).skill)
  {
    var split := SplitFile(source);
    if split.Some? {
      StrLinesClean(split.value.0);
      ParseClean(StrLines(split.value.0));
    }
  }

  // ---------------------------------------------------------------- the theorem

  /** The skills that printing and reading brings back. */
  predicate Restorable(s: Skill, fallback: string) {
    && SingleLine(s) && NameOk(s.name, fallback)
    && OptionOk(s.description) && OptionOk(s.createdBy)
    && ListOk(s.editors) && ListOk(s.enabledTools)
  }

  /** The skill with its body newline-terminated and its bundled files not yet listed. */
  function Normal(s: Skill): Skill {
    s.(instructions := Terminated(s.instructions), references := [], scripts := [])
  }

  lemma ReadOption(fields: seq<Field>, i: nat, key: string, o: Option<string>)
    requires DistinctKeys(fields) && i < |fields| && fields[i] == OptionField(key, o)
    ensures NonemptyScalar(FrontOf(fields), key) == OptionBack(o)
  {
    Lookup(fields, i);
  }

  lemma ReadNumber(fields: seq<Field>, i: nat, key: string, n: u64)
    requires DistinctKeys(fields) && i < |fields| && fields[i] == Field(true, key, Decimal(n))
    ensures Number(FrontOf(fields), key) == n
  {
    Lookup(fields, i);
    NumberText(n);
    DecimalRoundTrip(n);
  }

  lemma ReadList(fields: seq<Field>, i: nat, key: string, items: seq<string>)
    requires DistinctKeys(fields) && i < |fields| && fields[i] == ListField(key, items)
    ensures FrontOf(fields).ListOf(key) == ListedRead(ListField(key, items))
  {
    Lookup(fields, i);
  }

  lemma ReadBack(s: Skill, fallback: string)
    ensures FromFront(FrontOf(Fields(s)), Terminated(s.instructions), fallback) ==
            Skill(NameBack(s.name, fallback), OptionBack(s.description), Terminated(s.instructions),
                  ListedRead(ListField("enabled_tools", s.enabledTools)), OptionBack(s.createdBy),
                  ListedRead(ListField("editors", s.editors)), s.createdAt, s.updatedAt, [], [])
  {
    ReadBackName(s);
    ReadBackDescription(s);
    ReadBackCreator(s);
    ReadBackLists(s);
    ReadBackNumbers(s);
  }

  lemma ReadBackName(s: Skill)
    ensures NonemptyScalar(FrontOf(Fields(s)), "name") == OptionBack(Some(s.name))
  {
    FieldsOk(s);
    ReadOption(Fields(s), 0, "name", Some(s.name));
  }

  lemma ReadBackDescription(s: Skill)
    ensures NonemptyScalar(FrontOf(Fields(s)), "description") == OptionBack(s.description)
  {
    FieldsOk(s);
    ReadOption(Fields(s), 1, "description", s.description);
  }

  lemma ReadBackCreator(s: Skill)
    ensures NonemptyScalar(FrontOf(Fields(s)), "created_by") == OptionBack(s.createdBy)
  {
    FieldsOk(s);
    ReadOption(Fields(s), 2, "created_by", s.createdBy);
  }

  lemma ReadBackLists(s: Skill)
    ensures FrontOf(Fields(s)).ListOf("editors") == ListedRead(ListField("editors", s.editors))
    ensures FrontOf(Fields(s)).ListOf("enabled_tools") == ListedRead(ListField("enabled_tools", s.enabledTools))
  {
    FieldsOk(s);
    ReadList(Fields(s), 3, "editors", s.editors);
    ReadList(Fields(s), 4, "enabled_tools", s.enabledTools);
  }

  lemma ReadBackNumbers(s: Skill)
    ensures Number(FrontOf(Fields(s)), "created_at") == s.createdAt
    ensures Number(FrontOf(Fields(s)), "updated_at") == s.updatedAt
  {
    FieldsOk(s);
    ReadNumber(Fields(s), 5, "created_at", s.createdAt);
    ReadNumber(Fields(s), 6, "updated_at", s.updatedAt);
  }

  /** A skill survives printing and reading exactly when it is restorable; its body may
      be any text, fence lines included. */
  lemma SkillRoundTrip(s: Skill, fallback: string)
    requires '\n' !in fallback
    ensures ParseSkillMd(Document(s), fallback) == Loaded(Normal(s)) <==> Restorable(s, fallback)
  {
    if SingleLine(s) {
      DocumentReads(s, fallback);
      ReadBack(s, fallback);
      NameRestored(s.name, fallback);
      OptionRestored(s.description);
      OptionRestored(s.createdBy);
      ListRestored("editors", s.editors);
      ListRestored("enabled_tools", s.enabledTools);
    } else {
      ReadsSingleLine(Document(s), fallback);
    }
  }

  /** Unquoting does not undo the escapes of quoting: a description with a colon and a
      double quote comes back with a backslash it did not have. */
  lemma QuotedDescriptionIsLost(s: Skill, fallback: string)
    requires '\n' !in fallback && s.description == Some("say: \"hi\"")
    ensures ParseSkillMd(Document(s), fallback) != Loaded(Normal(s))
  {
    var v := "say: \"hi\"";
    assert v[3] == ':' && v[5] == '"';
    SkillRoundTrip(s, fallback);
  }

  /** The name a save admits always comes back. */
  lemma ValidNameRestored(name: string, fallback: string)
    requires name != "" && forall c :: c in name ==>
        'a' <= c <= 'z' || 'A' <= c <= 'Z' || IsDigit(c) || c == '-' || c == '_'
    ensures NameOk(name, fallback) && '\n' !in name
  {
    assert name[0] in name && name[|name| - 1] in name;
    TightTrims(name);
  }
}
