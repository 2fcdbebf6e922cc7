/** Printing a skill as `SKILL.md` and reading it back. */
module SkillFile {
  import opened Frontmatter
  import opened Lines
  import opened Text
  import opened Trimming

  type u64 = n: nat | n < 0x1_0000_0000_0000_0000

  datatype Skill = Skill(
    name: string, description: Option<string>, instructions: string, enabledTools: seq<string>,
    createdBy: Option<string>, editors: seq<string>, createdAt: u64, updatedAt: u64,
    references: seq<string>, scripts: seq<string>)

  datatype SkillResult = Loaded(skill: Skill) | NoFrontmatter | BadLine(line: nat, why: Entry)

  // ---------------------------------------------------------------- printing

  function Decimal(n: nat): string {
    (if n < 10 then "" else Decimal(n / 10)) + [(n % 10 + '0' as int) as char]
  }

  function EmitAll(items: seq<string>): seq<string> {
    if items == [] then [] else [EmitScalar(items[0])] + EmitAll(items[1..])
  }

  function JoinList(items: seq<string>): string { Join(EmitAll(items), ", ") }

  function Line(key: string, text: string): string { key + ": " + text }

  /** A frontmatter entry, printed only when it is present. */
  datatype Field = Field(present: bool, key: string, text: string)

  function OptionField(key: string, o: Option<string>): Field {
    if o.Some? then Field(true, key, EmitScalar(o.value)) else Field(false, key, "")
  }

  function ListField(key: string, items: seq<string>): Field {
    Field(items != [], key, "[" + JoinList(items) + "]")
  }

  function Fields(s: Skill): seq<Field> {
    [Field(true, "name", EmitScalar(s.name)),
     OptionField("description", s.description),
     OptionField("created_by", s.createdBy),
     ListField("editors", s.editors),
     ListField("enabled_tools", s.enabledTools),
     Field(true, "created_at", Decimal(s.createdAt)),
     Field(true, "updated_at", Decimal(s.updatedAt))]
  }

  function LinesOf(fields: seq<Field>): seq<string> {
    if fields == [] then []
    else
      var f := fields[|fields| - 1];
      LinesOf(fields[..|fields| - 1]) + if f.present then [Line(f.key, f.text)] else []
  }

  function Terminated(body: string): string { if EndsWith(body, "\n") then body else body + "\n" }

  /** The document as header lines between fences, and the body. */
  function Document(s: Skill): string {
    "---\n" + (Unlines(LinesOf(Fields(s))) + ("---\n" + Terminated(s.instructions)))
  }

  /** The opening fence and the first `n` fields. */
  function Header(fields: seq<Field>, n: nat): string
    requires n <= |fields|
  {
    "---\n" + Unlines(LinesOf(fields[..n]))
  }

  method PushField(out: string, f: Field, ghost fields: seq<Field>, ghost n: nat) returns (r: string)
    requires n < |fields| && f == fields[n] && out == Header(fields, n)
    ensures r == Header(fields, n + 1)
  {
    assert fields[..n + 1][..n] == fields[..n];
    if !f.present {
      assert LinesOf(fields[..n]) + [] == LinesOf(fields[..n]);
      return out;
    }
    UnlinesSnoc(LinesOf(fields[..n]), Line(f.key, f.text));
    r := out + (Line(f.key, f.text) + "\n");
  }

  lemma EmptyHeader(fields: seq<Field>)
    ensures Header(fields, 0) == "---\n"
  {
  }

  method PushHeader(s: Skill) returns (out: string)
    ensures out == Header(Fields(s), |Fields(s)|)
  {
    ghost var fs := Fields(s);
    EmptyHeader(fs);
    out := "---\n";
    out := PushField(out, Field(true, "name", EmitScalar(s.name)), fs, 0);
    out := PushField(out, OptionField("description", s.description), fs, 1);
    out := PushField(out, OptionField("created_by", s.createdBy), fs, 2);
    out := PushLists(out, s, fs);
    out := PushTimes(out, s, fs);
  }

  method PushLists(header: string, s: Skill, ghost fs: seq<Field>) returns (out: string)
    requires fs == Fields(s) && header == Header(fs, 3)
    ensures out == Header(fs, 5)
  {
    out := PushField(header, ListField("editors", s.editors), fs, 3);
    out := PushField(out, ListField("enabled_tools", s.enabledTools), fs, 4);
  }

  method PushTimes(header: string, s: Skill, ghost fs: seq<Field>) returns (out: string)
    requires fs == Fields(s) && header == Header(fs, 5)
    ensures out == Header(fs, 7)
  {
    out := PushField(header, Field(true, "created_at", Decimal(s.createdAt)), fs, 5);
    out := PushField(out, Field(true, "updated_at", Decimal(s.updatedAt)), fs, 6);
  }

  method ToSkillMd(s: Skill) returns (out: string)
    ensures out == Document(s)
  {
    out := PushHeader(s);
    assert Fields(s)[..|Fields(s)|] == Fields(s);
    out := out + "---\n";
    out := out + s.instructions;
    if !EndsWith(s.instructions, "\n") {
      out := out + "\n";
    }
  }

  /** A line of the header. */
  function KeyLine(key: string, text: string): string { key + ": " + text + "\n" }

  function OptionText(key: string, o: Option<string>): string {
    if o.Some? then KeyLine(key, EmitScalar(o.value)) else ""
  }

  function ListText(key: string, items: seq<string>): string {
    if items != [] then KeyLine(key, "[" + JoinList(items) + "]") else ""
  }

  /** The text from field `n` on. */
  function TextFrom(fields: seq<Field>, n: nat): string
    requires n <= |fields|
    decreases |fields| - n
  {
    if n == |fields| then ""
    else FieldText(fields[n]) + TextFrom(fields, n + 1)
  }

  lemma FieldAdded(fields: seq<Field>, n: nat)
    requires n < |fields|
    ensures Unlines(LinesOf(fields[..n + 1])) == Unlines(LinesOf(fields[..n])) + FieldText(fields[n])
  {
    var f, before := fields[n], LinesOf(fields[..n]);
    assert fields[..n + 1][..n] == fields[..n];
    if f.present {
      UnlinesSnoc(before, Line(f.key, f.text));
      assert Unlines(before) + Line(f.key, f.text) + "\n" == Unlines(before) + KeyLine(f.key, f.text);
    } else {
      assert before + [] == before && Unlines(before) + "" == Unlines(before);
    }
  }

  lemma {:induction false} HeaderText(fields: seq<Field>, n: nat)
    requires n <= |fields|
    ensures Unlines(LinesOf(fields)) == Unlines(LinesOf(fields[..n])) + TextFrom(fields, n)
    decreases |fields| - n
  {
    if n == |fields| {
      assert fields[..n] == fields;
      assert Unlines(LinesOf(fields)) + "" == Unlines(LinesOf(fields));
    } else {
      FieldAdded(fields, n);
      HeaderText(fields, n + 1);
      Regroup(Unlines(LinesOf(fields[..n])), FieldText(fields[n]), TextFrom(fields, n + 1));
    }
  }

  lemma Regroup(a: string, b: string, c: string)
    ensures a + b + c == a + (b + c)
  {
  }

  /** The document, line by line. */
  lemma DocumentText(s: Skill)
    ensures Document(s) ==
            "---\n"
            + ((KeyLine("name", EmitScalar(s.name))
                + (OptionText("description", s.description)
                   + (OptionText("created_by", s.createdBy)
                      + (ListText("editors", s.editors)
                         + (ListText("enabled_tools", s.enabledTools)
                            + (KeyLine("created_at", Decimal(s.createdAt))
                               + (KeyLine("updated_at", Decimal(s.updatedAt)) + "")))))))
               + ("---\n" + Terminated(s.instructions)))
  {
    var fs := Fields(s);
    HeaderText(fs, 0);
    assert fs[..0] == [] && Unlines(LinesOf([])) == "";
    assert "" + TextFrom(fs, 0) == TextFrom(fs, 0);
    SevenFields(fs);
  }

  lemma SevenFields(fs: seq<Field>)
    requires |fs| == 7
    ensures TextFrom(fs, 0) ==
            FieldText(fs[0]) + (FieldText(fs[1]) + (FieldText(fs[2]) + (FieldText(fs[3])
              + (FieldText(fs[4]) + (FieldText(fs[5]) + (FieldText(fs[6]) + ""))))))
  {
    LastFields(fs);
    assert TextFrom(fs, 2) == FieldText(fs[2]) + TextFrom(fs, 3);
    assert TextFrom(fs, 1) == FieldText(fs[1]) + TextFrom(fs, 2);
  }

  lemma LastFields(fs: seq<Field>)
    requires |fs| == 7
    ensures TextFrom(fs, 3) == FieldText(fs[3]) + (FieldText(fs[4]) + (FieldText(fs[5]) + (FieldText(fs[6]) + "")))
  {
    assert TextFrom(fs, 6) == FieldText(fs[6]) + TextFrom(fs, 7);
    assert TextFrom(fs, 5) == FieldText(fs[5]) + TextFrom(fs, 6);
    assert TextFrom(fs, 4) == FieldText(fs[4]) + TextFrom(fs, 5);
  }

  function FieldText(f: Field): string { if f.present then KeyLine(f.key, f.text) else "" }

  // ---------------------------------------------------------------- reading

  predicate IsDigit(c: char) { '0' <= c <= '9' }

  function DigitsValue(s: string): nat
    requires forall c :: c in s ==> IsDigit(c)
  {
    if s == "" then 0
    else
      var last := s[|s| - 1];
      assert last in s && IsDigit(last);
      assert forall c :: c in s[..|s| - 1] ==> c in s;
      10 * DigitsValue(s[..|s| - 1]) + (last as int - '0' as int)
  }

  /** `str::parse::<u64>`. */
  function ParseU64(s: string): Option<u64> {
    var digits := if StartsWith(s, "+") then s[1..] else s;
    if digits == "" || exists c :: c in digits && !IsDigit(c) then None
    else if DigitsValue(digits) < 0x1_0000_0000_0000_0000 then Some(DigitsValue(digits))
    else None
  }

  function NonemptyScalar(front: Front, key: string): Option<string> {
    var o := front.ScalarOf(key);
    if o == Some("") then None else o
  }

  function Number(front: Front, key: string): u64 {
    match front.ScalarOf(key)
    case None => 0
    case Some(v) => var n := ParseU64(v); if n.Some? then n.value else 0
  }

  function FromFront(front: Front, body: string, fallback: string): Skill {
    var name := NonemptyScalar(front, "name");
    Skill(if name.Some? then name.value else fallback, NonemptyScalar(front, "description"), body,
          front.ListOf("enabled_tools"), NonemptyScalar(front, "created_by"), front.ListOf("editors"),
          Number(front, "created_at"), Number(front, "updated_at"), [], [])
  }

  function ParseSkillMd(source: string, fallback: string): SkillResult {
    match SplitFile(source)
    case None => NoFrontmatter
    case Some((block, body)) =>
      match ParseLines(StrLines(block))
      case Bad(line, why) => BadLine(line, why)
      case Ok(front) => Loaded(FromFront(front, body, fallback))
  }

  // ---------------------------------------------------------------- numbers

  lemma {:induction false} DecimalDigits(n: nat)
    ensures Decimal(n) != "" && forall c :: c in Decimal(n) ==> IsDigit(c)
    ensures DigitsValue(Decimal(n)) == n
  {
    if n >= 10 {
      DecimalDigits(n / 10);
      assert Decimal(n)[..|Decimal(n)| - 1] == Decimal(n / 10);
    } else {
      assert Decimal(n)[..|Decimal(n)| - 1] == "";
    }
  }

  lemma DigitsAreTight(d: string)
    requires d != "" && forall c :: c in d ==> IsDigit(c)
    ensures Tight(d) && !IsList(d) && Unquote(d) == d && '\n' !in d && !StartsWith(d, "+")
  {
    assert d[0] in d && d[|d| - 1] in d;
    TightTrims(d);
  }

  lemma DecimalRoundTrip(n: u64)
    ensures ParseU64(Decimal(n)) == Some(n)
  {
    DecimalDigits(n);
    DigitsAreTight(Decimal(n));
  }
}
