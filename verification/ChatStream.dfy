/** Streamed completions: the accumulator of deltas and the line buffer in front of it. */
module Deltas {
  import opened Text

  datatype FnDelta = FnDelta(name: Option<string>, arguments: Option<string>)
  datatype ToolCallDelta = ToolCallDelta(index: nat, id: Option<string>, fn: Option<FnDelta>)
  datatype Delta = Delta(content: Option<string>, toolCalls: Option<seq<ToolCallDelta>>)
  datatype StreamChoice = StreamChoice(delta: Delta, finishReason: Option<string>)
  datatype Usage = Usage(promptTokens: nat, completionTokens: nat, cachedTokens: nat)
  datatype StreamChunk = StreamChunk(choices: seq<StreamChoice>, usage: Option<Usage>)

  datatype ToolCall = ToolCall(id: string, name: string, arguments: string)
  datatype ChatCompletion = ChatCompletion(
    content: Option<string>, toolCalls: seq<ToolCall>, finishReason: Option<string>, usage: Usage)

  const NO_USAGE := Usage(0, 0, 0)

  function OrEmpty(o: Option<string>): string { if o.Some? then o.value else "" }

  /** The text delta of a chunk; only the first choice counts. */
  function TextOf(c: StreamChunk): string {
    if c.choices == [] then "" else OrEmpty(c.choices[0].delta.content)
  }

  function FragmentsOf(c: StreamChunk): seq<ToolCallDelta> {
    if c.choices == [] || c.choices[0].delta.toolCalls.None? then [] else c.choices[0].delta.toolCalls.value
  }

  function FinishOf(c: StreamChunk): Option<string> {
    if c.choices == [] then None else c.choices[0].finishReason
  }

  function Content(cs: seq<StreamChunk>): string {
    if cs == [] then "" else Content(cs[..|cs| - 1]) + TextOf(cs[|cs| - 1])
  }

  function Fragments(cs: seq<StreamChunk>): seq<ToolCallDelta> {
    if cs == [] then [] else Fragments(cs[..|cs| - 1]) + FragmentsOf(cs[|cs| - 1])
  }

  function LastFinish(cs: seq<StreamChunk>): Option<string> {
    if cs == [] then None
    else if FinishOf(cs[|cs| - 1]).Some? then FinishOf(cs[|cs| - 1])
    else LastFinish(cs[..|cs| - 1])
  }

  function LastUsage(cs: seq<StreamChunk>): Usage {
    if cs == [] then NO_USAGE
    else if cs[|cs| - 1].usage.Some? then cs[|cs| - 1].usage.value
    else LastUsage(cs[..|cs| - 1])
  }

  /** The growing text, once for every chunk that adds to it. */
  function Snapshots(cs: seq<StreamChunk>): seq<string> {
    if cs == [] then []
    else Snapshots(cs[..|cs| - 1]) + if TextOf(cs[|cs| - 1]) != "" then [Content(cs)] else []
  }

  // ---------------------------------------------------------------- one slot

  function NameOf(fs: seq<ToolCallDelta>, i: nat): string {
    if fs == [] then ""
    else
      var f := fs[|fs| - 1];
      NameOf(fs[..|fs| - 1], i) + if f.index == i && f.fn.Some? then OrEmpty(f.fn.value.name) else ""
  }

  function ArgumentsOf(fs: seq<ToolCallDelta>, i: nat): string {
    if fs == [] then ""
    else
      var f := fs[|fs| - 1];
      ArgumentsOf(fs[..|fs| - 1], i) + if f.index == i && f.fn.Some? then OrEmpty(f.fn.value.arguments) else ""
  }

  function IdOf(fs: seq<ToolCallDelta>, i: nat): string {
    if fs == [] then ""
    else if fs[|fs| - 1].index == i && fs[|fs| - 1].id.Some? then fs[|fs| - 1].id.value
    else IdOf(fs[..|fs| - 1], i)
  }

  function Slot(fs: seq<ToolCallDelta>, i: nat): ToolCall {
    ToolCall(IdOf(fs, i), NameOf(fs, i), ArgumentsOf(fs, i))
  }

  function SlotCount(fs: seq<ToolCallDelta>): nat {
    if fs == [] then 0
    else
      var n := SlotCount(fs[..|fs| - 1]);
      if fs[|fs| - 1].index + 1 > n then fs[|fs| - 1].index + 1 else n
  }

  function Slots(fs: seq<ToolCallDelta>): seq<ToolCall> {
    seq(SlotCount(fs), i requires 0 <= i => Slot(fs, i))
  }

  function Named(calls: seq<ToolCall>): seq<ToolCall> {
    if calls == [] then []
    else if calls[0].name != "" then [calls[0]] + Named(calls[1..]) else Named(calls[1..])
  }

  /** The completion that a sequence of chunks stands for. */
  function Completion(cs: seq<StreamChunk>): ChatCompletion {
    ChatCompletion(if Content(cs) == "" then None else Some(Content(cs)),
                   Named(Slots(Fragments(cs))), LastFinish(cs), LastUsage(cs))
  }

  lemma {:induction false} FragmentsStop(fs: seq<ToolCallDelta>, i: nat)
    requires i >= SlotCount(fs)
    ensures Slot(fs, i) == ToolCall("", "", "")
  {
    if fs != [] {
      FragmentsStop(fs[..|fs| - 1], i);
    }
  }

  lemma OneFragment(fs: seq<ToolCallDelta>, f: ToolCallDelta, i: nat)
    ensures Slot(fs + [f], i) ==
            if f.index != i then Slot(fs, i)
            else ToolCall(if f.id.Some? then f.id.value else IdOf(fs, i),
                          NameOf(fs, i) + (if f.fn.Some? then OrEmpty(f.fn.value.name) else ""),
                          ArgumentsOf(fs, i) + (if f.fn.Some? then OrEmpty(f.fn.value.arguments) else ""))
    ensures SlotCount(fs + [f]) == if f.index + 1 > SlotCount(fs) then f.index + 1 else SlotCount(fs)
  {
    assert (fs + [f])[..|fs|] == fs;
    assert NameOf(fs, i) + "" == NameOf(fs, i) && ArgumentsOf(fs, i) + "" == ArgumentsOf(fs, i);
  }

  /** Fragments of other slots may come in between: a slot sees only its own, in order. */
  lemma {:induction false} SlotSeesItsOwn(fs: seq<ToolCallDelta>, i: nat)
    ensures Slot(fs, i) == Slot(OwnFragments(fs, i), i)
  {
    if fs != [] {
      var init, f := fs[..|fs| - 1], fs[|fs| - 1];
      SlotSeesItsOwn(init, i);
      assert init + [f] == fs;
      OneFragment(init, f, i);
      OneFragment(OwnFragments(init, i), f, i);
    }
  }

  function OwnFragments(fs: seq<ToolCallDelta>, i: nat): seq<ToolCallDelta> {
    if fs == [] then []
    else
      var own := OwnFragments(fs[..|fs| - 1], i);
      if fs[|fs| - 1].index == i then own + [fs[|fs| - 1]] else own
  }

  class Accumulator {
    var content: string
    var toolCalls: seq<ToolCall>
    var finishReason: Option<string>
    var usage: Usage
    ghost var applied: seq<StreamChunk>

    ghost predicate Valid()
      reads this
    {
      && content == Content(applied)
      && toolCalls == Slots(Fragments(applied))
      && finishReason == LastFinish(applied)
      && usage == LastUsage(applied)
    }

    constructor ()
      ensures Valid() && applied == []
    {
      content, toolCalls, finishReason, usage, applied := "", [], None, NO_USAGE, [];
    }

    /** Apply one decoded chunk, returning the new text, if any. */
    method Apply(chunk: StreamChunk) returns (newText: Option<string>)
      requires Valid()
      modifies this
      ensures Valid() && applied == old(applied) + [chunk]
      ensures newText == if TextOf(chunk) == "" then None else Some(TextOf(chunk))
    {
      applied := applied + [chunk];
      assert applied[..|applied| - 1] == old(applied);
      assert old(content) + "" == old(content) && Fragments(old(applied)) + [] == Fragments(old(applied));
      newText := None;
      if chunk.usage.Some? {
        usage := chunk.usage.value;
      }
      if chunk.choices == [] {
        return;
      }
      var choice := chunk.choices[0];
      if choice.finishReason.Some? {
        finishReason := choice.finishReason;
      }
      if choice.delta.content.Some? && choice.delta.content.value != "" {
        content := content + choice.delta.content.value;
        newText := choice.delta.content;
      }
      if choice.delta.toolCalls.Some? {
        ApplyToolCalls(Fragments(old(applied)), choice.delta.toolCalls.value);
      }
    }

    method ApplyToolCalls(ghost before: seq<ToolCallDelta>, tcs: seq<ToolCallDelta>)
      requires toolCalls == Slots(before)
      modifies `toolCalls
      ensures toolCalls == Slots(before + tcs)
    {
      assert before + tcs[..0] == before;
      for n := 0 to |tcs|
        invariant toolCalls == Slots(before + tcs[..n])
      {
        ghost var seen := before + tcs[..n];
        assert before + tcs[..n + 1] == seen + [tcs[n]];
        ApplyToolCall(seen, tcs[n]);
      }
      assert tcs[..|tcs|] == tcs;
    }

    method ApplyToolCall(ghost seen: seq<ToolCallDelta>, tc: ToolCallDelta)
      requires toolCalls == Slots(seen)
      modifies `toolCalls
      ensures toolCalls == Slots(seen + [tc])
    {
      while |toolCalls| <= tc.index
        invariant |toolCalls| >= SlotCount(seen) && (|toolCalls| == SlotCount(seen) || |toolCalls| <= tc.index + 1)
        invariant forall i :: 0 <= i < |toolCalls| ==> toolCalls[i] == Slot(seen, i)
        decreases tc.index - |toolCalls|
      {
        FragmentsStop(seen, |toolCalls|);
        toolCalls := toolCalls + [ToolCall("", "", "")];
      }
      var slot := toolCalls[tc.index];
      if tc.id.Some? {
        slot := slot.(id := tc.id.value);
      }
      if tc.fn.Some? {
        if tc.fn.value.name.Some? {
          slot := slot.(name := slot.name + tc.fn.value.name.value);
        }
        if tc.fn.value.arguments.Some? {
          slot := slot.(arguments := slot.arguments + tc.fn.value.arguments.value);
        }
      }
      toolCalls := toolCalls[tc.index := slot];
      forall i | 0 <= i < |toolCalls| ensures toolCalls[i] == Slot(seen + [tc], i) {
        OneFragment(seen, tc, i);
        assert slot.name + "" == slot.name && slot.arguments + "" == slot.arguments;
      }
      OneFragment(seen, tc, 0);
    }

    method Finish() returns (r: ChatCompletion)
      requires Valid()
      ensures r == Completion(applied)
    {
      r := ChatCompletion(if content == "" then None else Some(content), Named(toolCalls), finishReason, usage);
    }
  }
}

module ChatStream {
  import opened Text
  import opened Utf8
  import opened Deltas

  const DATA := "data:"

  /** One buffered line; `decode` is the JSON decoder. */
  function ParseSseLine(line: string, decode: string -> Option<StreamChunk>): Option<StreamChunk> {
    if !StartsWith(line, DATA) then None
    else
      var payload := Trim(line[|DATA|..]);
      if payload == "" || payload == "[DONE]" then None else decode(payload)
  }

  /** The newline-terminated lines of a text, and what is left after the last of them. */
  function CompleteLines(s: string): seq<string>
    decreases |s|
  {
    match Find(s, "\n")
    case None => []
    case Some(i) => [s[..i + 1]] + CompleteLines(s[i + 1..])
  }

  function Remainder(s: string): string
    decreases |s|
  {
    match Find(s, "\n")
    case None => s
    case Some(i) => Remainder(s[i + 1..])
  }

  /** The chunks carried by some lines. */
  function Parsed(lines: seq<string>, decode: string -> Option<StreamChunk>): seq<StreamChunk> {
    if lines == [] then []
    else
      var line := TrimEnd(lines[|lines| - 1]);
      var earlier := Parsed(lines[..|lines| - 1], decode);
      match ParseSseLine(line, decode)
      case Some(chunk) => earlier + [chunk]
      case None => earlier
  }

  lemma FindNewline(a: string, b: string)
    ensures match Find(a, "\n")
            case Some(i) => Find(a + b, "\n") == Some(i)
            case None => Find(a + b, "\n") == match Find(b, "\n") case None => None case Some(j) => Some(|a| + j)
    decreases |a|
  {
    if a == "" {
      assert a + b == b;
    } else if a[0] == '\n' {
      FindIs(a, "\n", 0);
      FindIs(a + b, "\n", 0);
    } else {
      FindInTail(a, "\n");
      FindInTail(a + b, "\n");
      assert (a + b)[1..] == a[1..] + b;
      FindNewline(a[1..], b);
    }
  }

  lemma FirstLine(a: string, b: string, i: nat)
    requires Find(a, "\n") == Some(i)
    ensures CompleteLines(a + b) == [a[..i + 1]] + CompleteLines(a[i + 1..] + b)
    ensures Remainder(a + b) == Remainder(a[i + 1..] + b)
  {
    FindNewline(a, b);
    assert (a + b)[..i + 1] == a[..i + 1];
    assert (a + b)[i + 1..] == a[i + 1..] + b;
  }

  /** Splitting into lines may stop anywhere and go on later with what was left. */
  lemma {:induction false} LinesContinue(a: string, b: string)
    ensures CompleteLines(a + b) == CompleteLines(a) + CompleteLines(Remainder(a) + b)
    ensures Remainder(a + b) == Remainder(Remainder(a) + b)
    decreases |a|
  {
    var found := Find(a, "\n");
    if found.Some? {
      var line, tail := a[..found.value + 1], a[found.value + 1..];
      FirstLine(a, b, found.value);
      LinesContinue(tail, b);
      CutFirst(a, found.value);
      Assoc([line], CompleteLines(tail), CompleteLines(Remainder(tail) + b));
    } else {
      assert [] + CompleteLines(a + b) == CompleteLines(a + b);
    }
  }

  lemma CutFirst(s: string, i: nat)
    requires Find(s, "\n") == Some(i)
    ensures CompleteLines(s) == [s[..i + 1]] + CompleteLines(s[i + 1..]) && Remainder(s) == Remainder(s[i + 1..])
  {
  }

  lemma ParsedSnoc(lines: seq<string>, line: string, decode: string -> Option<StreamChunk>)
    ensures Parsed(lines + [line], decode) ==
            match ParseSseLine(TrimEnd(line), decode)
            case Some(chunk) => Parsed(lines, decode) + [chunk]
            case None => Parsed(lines, decode)
  {
    assert (lines + [line])[..|lines|] == lines;
  }

  lemma SnapshotsSnoc(cs: seq<StreamChunk>, c: StreamChunk)
    ensures Snapshots(cs + [c]) == if TextOf(c) == "" then Snapshots(cs) else Snapshots(cs) + [Content(cs + [c])]
  {
    assert (cs + [c])[..|cs|] == cs;
  }

  /** Feed one line to the accumulator, showing the text so far if the line added to it. */
  method ReceiveLine(acc: Accumulator, raw: string, shown: seq<string>, decode: string -> Option<StreamChunk>,
      ghost lines: seq<string>)
    returns (pushed: seq<string>)
    requires acc.Valid() && acc.applied == Parsed(lines, decode) && shown == Snapshots(acc.applied)
    modifies acc
    ensures acc.Valid() && acc.applied == Parsed(lines + [raw], decode) && pushed == Snapshots(acc.applied)
  {
    ParsedSnoc(lines, raw, decode);
    pushed := shown;
    var line := TrimEnd(raw);
    if line == "" {
      return;
    }
    var parsed := ParseSseLine(line, decode);
    if parsed.Some? {
      SnapshotsSnoc(acc.applied, parsed.value);
      var delta := acc.Apply(parsed.value);
      if delta.Some? {
        pushed := pushed + [acc.content];
      }
    }
  }

  /** Cut the complete lines off the buffer. */
  method DrainLines(acc: Accumulator, input: string, shown: seq<string>, decode: string -> Option<StreamChunk>,
      ghost before: seq<string>)
    returns (buf: string, pushed: seq<string>)
    requires acc.Valid() && acc.applied == Parsed(before, decode) && shown == Snapshots(acc.applied)
    modifies acc
    ensures buf == Remainder(input) && acc.Valid()
    ensures acc.applied == Parsed(before + CompleteLines(input), decode) && pushed == Snapshots(acc.applied)
  {
    buf, pushed := input, shown;
    ghost var lines := before;
    var nl := Find(buf, "\n");
    while nl.Some?
      invariant acc.Valid() && nl == Find(buf, "\n")
      invariant before + CompleteLines(input) == lines + CompleteLines(buf) && Remainder(input) == Remainder(buf)
      invariant acc.applied == Parsed(lines, decode) && pushed == Snapshots(acc.applied)
      decreases |buf|
    {
      var raw := buf[..nl.value + 1];
      Assoc(lines, [raw], CompleteLines(buf[nl.value + 1..]));
      buf := buf[nl.value + 1..];
      pushed := ReceiveLine(acc, raw, pushed, decode, lines);
      lines := lines + [raw];
      nl := Find(buf, "\n");
    }
    assert lines + CompleteLines(buf) == lines;
  }

  /** The streaming loop: decode each network chunk, cut complete lines off the buffer,
      and feed the accumulator.  What the caller sees depends only on the decoded text; a
      stream that breaks off after these chunks gives no completion. */
  method ReceiveStream(chunks: seq<seq<byte>>, broken: bool, decode: string -> Option<StreamChunk>)
    returns (completion: Option<ChatCompletion>, pushed: seq<string>)
    ensures var received := Parsed(CompleteLines(Concat(LossyEach(chunks))), decode);
            completion == (if broken then None else Some(Completion(received))) && pushed == Snapshots(received)
  {
    var acc := new Accumulator();
    var buf := "";
    pushed := [];
    ghost var text := "";
    assert LossyEach(chunks[..0]) == [];
    for n := 0 to |chunks|
      invariant fresh(acc) && acc.Valid()
      invariant text == Concat(LossyEach(chunks[..n])) && buf == Remainder(text)
      invariant acc.applied == Parsed(CompleteLines(text), decode) && pushed == Snapshots(acc.applied)
    {
      var decoded := Lossy(chunks[n]);
      LinesContinue(text, decoded);
      ConcatSnoc(chunks[..n], chunks[n]);
      assert chunks[..n + 1] == chunks[..n] + [chunks[n]];
      buf, pushed := DrainLines(acc, buf + decoded, pushed, decode, CompleteLines(text));
      text := text + decoded;
    }
    assert chunks[..|chunks|] == chunks;
    if broken {
      return None, pushed;
    }
    var finished := acc.Finish();
    completion := Some(finished);
  }

  lemma {:induction false} ConcatSnoc(chunks: seq<seq<byte>>, last: seq<byte>)
    ensures Concat(LossyEach(chunks + [last])) == Concat(LossyEach(chunks)) + Lossy(last)
  {
    if chunks == [] {
      assert chunks + [last] == [last] + [];
      LossyEachStep(last, []);
    } else {
      ConcatSnoc(chunks[1..], last);
      assert chunks + [last] == [chunks[0]] + (chunks[1..] + [last]);
      assert chunks == [chunks[0]] + chunks[1..];
      LossyEachStep(chunks[0], chunks[1..] + [last]);
      LossyEachStep(chunks[0], chunks[1..]);
      Assoc(Lossy(chunks[0]), Concat(LossyEach(chunks[1..])), Lossy(last));
    }
  }

  /** However the network cuts a character stream, as long as no chunk begins inside a
      character, the lines and hence the completion are those of the whole text. */
  lemma CutsDoNotMatter(text: string, a: seq<seq<byte>>, b: seq<seq<byte>>, decode: string -> Option<StreamChunk>)
    requires Concat(a) == EncodeAll(text) == Concat(b)
    requires forall i :: 0 <= i < |a| ==> !BeginsInside(a[i])
    requires forall i :: 0 <= i < |b| ==> !BeginsInside(b[i])
    ensures CompleteLines(Concat(LossyEach(a))) == CompleteLines(text) == CompleteLines(Concat(LossyEach(b)))
    ensures Completion(Parsed(CompleteLines(Concat(LossyEach(a))), decode)) ==
        Completion(Parsed(CompleteLines(Concat(LossyEach(b))), decode))
  {
    ChunkedDecoding(text, a);
    ChunkedDecoding(text, b);
  }
}
