/** A server's side of a streamed completion: what it sends is what is received. */
module StreamRoundTrip {
  import opened Text
  import opened Trimming
  import opened Utf8
  import opened Deltas
  import opened ChatStream

  // ---------------------------------------------------------------- lines

  /** A line that carries `payload`: behind its mark, between white space. */
  ghost predicate Carries(line: string, payload: string) {
    && Tight(payload) && payload !in {"", "[DONE]"}
    && exists a, b :: AllWhite(a) && AllWhite(b) && line == "data:" + a + payload + b
  }

  lemma TrimmedTail(head: string, tail: string)
    requires head != "" && !IsWhitespace(head[|head| - 1])
    ensures TrimEnd(head + tail) == head + TrimEnd(tail)
  {
    var b := TrimEndParts(tail);
    var kept := TrimEnd(tail);
    assert head + tail == (head + kept) + b;
    assert kept == "" ==> head + kept == head;
    assert kept != "" ==> (head + kept)[|head + kept| - 1] == kept[|kept| - 1];
    TrimEndIs(head + kept, b);
  }

  lemma TrimmedTwice(tail: string)
    ensures Trim(TrimEnd(tail)) == Trim(tail)
  {
    var b := TrimEndParts(tail);
    var x, y := TrimParts(TrimEnd(tail));
    var m := Trim(TrimEnd(tail));
    assert tail == x + m + (y + b);
    TrimIs(x, m, y + b);
  }

  /** What a line of a stream is read as. */
  lemma DataLine(tail: string, decode: string -> Option<StreamChunk>)
    ensures ParseSseLine(TrimEnd("data:" + tail), decode) ==
            if Trim(tail) in {"", "[DONE]"} then None else decode(Trim(tail))
  {
    TrimmedTail("data:", tail);
    TrimmedTwice(tail);
    var line := TrimEnd("data:" + tail);
    assert line[|DATA|..] == TrimEnd(tail);
  }

  lemma OtherLine(line: string, decode: string -> Option<StreamChunk>)
    requires !StartsWith(line, "data:")
    ensures ParseSseLine(TrimEnd(line), decode) == None
  {
    var b := TrimEndParts(line);
    assert line == TrimEnd(line) + b;
  }

  lemma CarriesIs(line: string, payload: string)
    ensures Carries(line, payload) <==>
            payload !in {"", "[DONE]"} && StartsWith(line, "data:") && payload == Trim(line[5..])
  {
    if StartsWith(line, "data:") {
      assert line == "data:" + line[5..];
      var a, b := TrimParts(line[5..]);
      assert line == "data:" + a + Trim(line[5..]) + b;
    }
    if a, b :| AllWhite(a) && AllWhite(b) && line == "data:" + a + payload + b && Tight(payload) {
      assert line == "data:" + (a + payload + b) && line[5..] == a + payload + b;
      TrimIs(a, payload, b);
    }
  }

  /** A line gives a chunk exactly when it carries a payload that decodes to it. */
  lemma LineGives(line: string, chunk: StreamChunk, decode: string -> Option<StreamChunk>)
    ensures ParseSseLine(TrimEnd(line), decode) == Some(chunk) <==>
            exists payload :: Carries(line, payload) && decode(payload) == Some(chunk)
  {
    if StartsWith(line, "data:") {
      var tail := line[5..];
      assert line == "data:" + tail;
      DataLine(tail, decode);
      CarriesIs(line, Trim(tail));
    } else {
      OtherLine(line, decode);
    }
    if payload :| Carries(line, payload) && decode(payload) == Some(chunk) {
      CarriesIs(line, payload);
    }
  }

  // ---------------------------------------------------------------- a stream of chunks

  /** JSON serialization of chunks: invertible, on one line, without outer white space. */
  ghost predicate Codec(encode: StreamChunk -> string, decode: string -> Option<StreamChunk>) {
    forall c :: decode(encode(c)) == Some(c) && encode(c) !in {"", "[DONE]"} && Tight(encode(c)) && '\n' !in encode(c)
  }

  const DONE := "data: [DONE]\n\n"

  /** What a server sends: an event for each chunk, and the end of the stream. */
  function Served(cs: seq<StreamChunk>, encode: StreamChunk -> string): string {
    if cs == [] then DONE else "data: " + encode(cs[0]) + "\n" + ("\n" + Served(cs[1..], encode))
  }

  lemma LineCut(line: string, rest: string)
    requires '\n' !in line
    ensures CompleteLines(line + "\n" + rest) == [line + "\n"] + CompleteLines(rest)
  {
    var s := line + "\n" + rest;
    MatchBetween(line, "\n", rest);
    forall j | 0 <= j < |line| ensures !MatchAt(s, "\n", j) {
      assert s[j..j + 1] == [line[j]];
    }
    FindIs(s, "\n", |line|);
    assert s[..|line| + 1] == line + "\n" && s[|line| + 1..] == rest;
  }

  lemma {:induction false} ParsedConcat(a: seq<string>, b: seq<string>, decode: string -> Option<StreamChunk>)
    ensures Parsed(a + b, decode) == Parsed(a, decode) + Parsed(b, decode)
    decreases |b|
  {
    if b == [] {
      assert a + b == a;
    } else {
      var n := |b| - 1;
      ParsedConcat(a, b[..n], decode);
      ParsedLonger(a, b[..n], b[n], decode);
      assert b == b[..n] + [b[n]];
    }
  }

  lemma ParsedLonger(a: seq<string>, b: seq<string>, line: string, decode: string -> Option<StreamChunk>)
    requires Parsed(a + b, decode) == Parsed(a, decode) + Parsed(b, decode)
    ensures Parsed(a + (b + [line]), decode) == Parsed(a, decode) + Parsed(b + [line], decode)
  {
    Assoc(a, b, [line]);
    ParsedSnoc(a + b, line, decode);
    ParsedSnoc(b, line, decode);
  }

  lemma ParsedFirst(line: string, lines: seq<string>, decode: string -> Option<StreamChunk>)
    ensures Parsed([line] + lines, decode) ==
            match ParseSseLine(TrimEnd(line), decode)
            case Some(chunk) => [chunk] + Parsed(lines, decode)
            case None => Parsed(lines, decode)
  {
    ParsedConcat([line], lines, decode);
    assert [line] == [] + [line];
    ParsedSnoc([], line, decode);
  }

  lemma BlankLine(lines: seq<string>, decode: string -> Option<StreamChunk>)
    ensures Parsed(["\n"] + lines, decode) == Parsed(lines, decode)
  {
    OtherLine("\n", decode);
    ParsedFirst("\n", lines, decode);
  }

  lemma EventLine(payload: string, lines: seq<string>, decode: string -> Option<StreamChunk>)
    requires Tight(payload) && payload != ""
    ensures Parsed(["data: " + payload + "\n"] + lines, decode) ==
            if payload == "[DONE]" || decode(payload).None? then Parsed(lines, decode)
            else [decode(payload).value] + Parsed(lines, decode)
  {
    var line := "data: " + payload + "\n";
    assert line == "data:" + (" " + payload + "\n");
    TrimIs(" ", payload, "\n");
    DataLine(" " + payload + "\n", decode);
    ParsedFirst(line, lines, decode);
  }

  lemma EventCut(payload: string, rest: string)
    requires '\n' !in payload
    ensures CompleteLines("data: " + payload + "\n" + ("\n" + rest)) ==
            ["data: " + payload + "\n"] + (["\n"] + CompleteLines(rest))
  {
    LineCut("data: " + payload, "\n" + rest);
    LineCut("", rest);
    assert "" + "\n" + rest == "\n" + rest && "" + "\n" == "\n";
  }

  lemma EventParsed(payload: string, rest: string, decode: string -> Option<StreamChunk>)
    requires Tight(payload) && payload != "" && '\n' !in payload
    ensures Parsed(CompleteLines("data: " + payload + "\n" + ("\n" + rest)), decode) ==
            if payload == "[DONE]" || decode(payload).None? then Parsed(CompleteLines(rest), decode)
            else [decode(payload).value] + Parsed(CompleteLines(rest), decode)
  {
    EventCut(payload, rest);
    EventLine(payload, ["\n"] + CompleteLines(rest), decode);
    BlankLine(CompleteLines(rest), decode);
  }

  /** The chunks served are the chunks received, in order. */
  lemma {:induction false} ServedIsParsed(cs: seq<StreamChunk>, encode: StreamChunk -> string,
                                          decode: string -> Option<StreamChunk>)
    requires Codec(encode, decode)
    ensures Parsed(CompleteLines(Served(cs, encode)), decode) == cs
  {
    if cs == [] {
      assert DONE == "data: " + "[DONE]" + "\n" + ("\n" + "");
      EventParsed("[DONE]", "", decode);
    } else {
      ServedIsParsed(cs[1..], encode, decode);
      EventParsed(encode(cs[0]), Served(cs[1..], encode), decode);
      assert cs == [cs[0]] + cs[1..];
    }
  }

  // ---------------------------------------------------------------- a completion in chunks

  /** A tool call, and the pieces in which its arguments are sent. */
  datatype SentCall = SentCall(id: string, name: string, pieces: seq<string>)

  function TextChunk(piece: string): StreamChunk {
    StreamChunk([StreamChoice(Delta(Some(piece), None), None)], None)
  }

  function TextChunks(pieces: seq<string>): seq<StreamChunk> {
    if pieces == [] then [] else TextChunks(pieces[..|pieces| - 1]) + [TextChunk(pieces[|pieces| - 1])]
  }

  function FragmentChunk(f: ToolCallDelta): StreamChunk {
    StreamChunk([StreamChoice(Delta(None, Some([f])), None)], None)
  }

  function FragmentChunks(fs: seq<ToolCallDelta>): seq<StreamChunk> {
    if fs == [] then [] else FragmentChunks(fs[..|fs| - 1]) + [FragmentChunk(fs[|fs| - 1])]
  }

  function Opening(i: nat, call: SentCall): ToolCallDelta {
    ToolCallDelta(i, Some(call.id), Some(FnDelta(Some(call.name), None)))
  }

  /** The fragments of call `i`: its id and name, and then its arguments. */
  function CallFragments(i: nat, call: SentCall, n: nat): seq<ToolCallDelta>
    requires n <= |call.pieces|
  {
    if n == 0 then [Opening(i, call)]
    else CallFragments(i, call, n - 1) + [ToolCallDelta(i, None, Some(FnDelta(None, Some(call.pieces[n - 1]))))]
  }

  function AllFragments(calls: seq<SentCall>): seq<ToolCallDelta> {
    if calls == [] then []
    else
      var n := |calls| - 1;
      AllFragments(calls[..n]) + CallFragments(n, calls[n], |calls[n].pieces|)
  }

  function LastChunk(reason: string, usage: Usage): StreamChunk {
    StreamChunk([StreamChoice(Delta(None, None), Some(reason))], Some(usage))
  }

  function Sending(text: seq<string>, calls: seq<SentCall>, reason: string, usage: Usage): seq<StreamChunk> {
    TextChunks(text) + FragmentChunks(AllFragments(calls)) + [LastChunk(reason, usage)]
  }

  function Joined(pieces: seq<string>): string {
    if pieces == [] then "" else Joined(pieces[..|pieces| - 1]) + pieces[|pieces| - 1]
  }

  function Called(call: SentCall): ToolCall { ToolCall(call.id, call.name, Joined(call.pieces)) }

  // ---------------------------------------------------------------- text

  lemma ContentNext(cs: seq<StreamChunk>, c: StreamChunk)
    ensures Content(cs + [c]) == Content(cs) + TextOf(c) && Fragments(cs + [c]) == Fragments(cs) + FragmentsOf(c)
  {
    assert (cs + [c])[..|cs|] == cs;
  }

  lemma {:induction false} TextSent(pieces: seq<string>)
    ensures Content(TextChunks(pieces)) == Joined(pieces) && Fragments(TextChunks(pieces)) == []
    decreases |pieces|
  {
    if pieces != [] {
      var n := |pieces| - 1;
      TextSent(pieces[..n]);
      ContentNext(TextChunks(pieces[..n]), TextChunk(pieces[n]));
    }
  }

  lemma FragmentNext(cs: seq<StreamChunk>, f: ToolCallDelta)
    ensures Content(cs + [FragmentChunk(f)]) == Content(cs)
    ensures Fragments(cs + [FragmentChunk(f)]) == Fragments(cs) + [f]
  {
    ContentNext(cs, FragmentChunk(f));
    assert Content(cs) + "" == Content(cs);
  }

  /** Chunks of fragments add those fragments and no text. */
  ghost predicate AddsFragments(before: seq<StreamChunk>, fs: seq<ToolCallDelta>) {
    && Content(before + FragmentChunks(fs)) == Content(before)
    && Fragments(before + FragmentChunks(fs)) == Fragments(before) + fs
  }

  lemma NoFragments(before: seq<StreamChunk>)
    ensures AddsFragments(before, [])
  {
    assert before + [] == before && Fragments(before) + [] == Fragments(before);
  }

  lemma OneMoreSent(before: seq<StreamChunk>, fs: seq<ToolCallDelta>, f: ToolCallDelta)
    requires AddsFragments(before, fs)
    ensures AddsFragments(before, fs + [f])
  {
    assert (fs + [f])[..|fs|] == fs;
    Assoc(before, FragmentChunks(fs), [FragmentChunk(f)]);
    FragmentNext(before + FragmentChunks(fs), f);
    Assoc(Fragments(before), fs, [f]);
  }

  lemma OneMoreShown(pieces: seq<string>, piece: string)
    requires piece != ""
    ensures Snapshots(TextChunks(pieces + [piece])) == Snapshots(TextChunks(pieces)) + [Joined(pieces + [piece])]
  {
    assert (pieces + [piece])[..|pieces|] == pieces;
    TextSent(pieces + [piece]);
    SnapshotsSnoc(TextChunks(pieces), TextChunk(piece));
  }

  /** What is shown while text arrives: all of it so far, after each piece. */
  lemma {:induction false} ShownAsItGrows(pieces: seq<string>, n: nat)
    requires "" !in pieces && n <= |pieces|
    ensures |Snapshots(TextChunks(pieces[..n]))| == n
    ensures forall k: nat :: k < n ==> Snapshots(TextChunks(pieces[..n]))[k] == Joined(pieces[..k + 1])
  {
    if n > 0 {
      assert pieces[n - 1] in pieces;
      PrefixGrows(pieces, n);
      ShownAsItGrows(pieces, n - 1);
      OneMoreShown(pieces[..n - 1], pieces[n - 1]);
    }
  }

  lemma {:induction false} FragmentsSent(before: seq<StreamChunk>, fs: seq<ToolCallDelta>, n: nat)
    requires n <= |fs|
    ensures AddsFragments(before, fs[..n])
  {
    if n == 0 {
      NoFragments(before);
    } else {
      PrefixGrows(fs, n);
      FragmentsSent(before, fs, n - 1);
      OneMoreSent(before, fs[..n - 1], fs[n - 1]);
    }
  }

  lemma PrefixGrows<T>(s: seq<T>, n: nat)
    requires 0 < n <= |s|
    ensures s[..n] == s[..n - 1] + [s[n - 1]]
  {
  }

  // ---------------------------------------------------------------- tool calls

  lemma {:induction false} CallSent(before: seq<ToolCallDelta>, i: nat, call: SentCall, n: nat)
    requires n <= |call.pieces| && SlotCount(before) == i
    ensures var fs := before + CallFragments(i, call, n);
            && SlotCount(fs) == i + 1
            && Slot(fs, i) == ToolCall(call.id, call.name, Joined(call.pieces[..n]))
            && forall j: nat :: j < i ==> Slot(fs, j) == Slot(before, j)
  {
    if n == 0 {
      FragmentsStop(before, i);
      forall j: nat | j <= i ensures Slot(before + [Opening(i, call)], j) ==
          if j == i then ToolCall(call.id, call.name, "") else Slot(before, j) {
        OneFragment(before, Opening(i, call), j);
        assert "" + call.name == call.name && "" + "" == "";
      }
      OneFragment(before, Opening(i, call), 0);
    } else {
      var fs := before + CallFragments(i, call, n - 1);
      var f := ToolCallDelta(i, None, Some(FnDelta(None, Some(call.pieces[n - 1]))));
      CallSent(before, i, call, n - 1);
      assert before + CallFragments(i, call, n) == fs + [f];
      assert call.pieces[..n][..n - 1] == call.pieces[..n - 1];
      forall j: nat | j <= i ensures Slot(fs + [f], j) ==
          if j == i then ToolCall(call.id, call.name, Joined(call.pieces[..n])) else Slot(before, j) {
        OneFragment(fs, f, j);
        assert call.name + "" == call.name;
      }
      OneFragment(fs, f, 0);
    }
  }

  lemma LastCallSent(before: seq<ToolCallDelta>, i: nat, call: SentCall)
    requires SlotCount(before) == i
    ensures var fs := before + CallFragments(i, call, |call.pieces|);
            && SlotCount(fs) == i + 1 && Slot(fs, i) == Called(call)
            && forall j: nat :: j < i ==> Slot(fs, j) == Slot(before, j)
  {
    CallSent(before, i, call, |call.pieces|);
    assert call.pieces[..|call.pieces|] == call.pieces;
  }

  ghost predicate SlotsHold(fs: seq<ToolCallDelta>, calls: seq<SentCall>) {
    SlotCount(fs) == |calls| && forall i: nat :: i < |calls| ==> Slot(fs, i) == Called(calls[i])
  }

  lemma OneMoreCall(calls: seq<SentCall>, call: SentCall)
    requires SlotsHold(AllFragments(calls), calls)
    ensures SlotsHold(AllFragments(calls + [call]), calls + [call])
  {
    assert (calls + [call])[..|calls|] == calls;
    LastCallSent(AllFragments(calls), |calls|, call);
  }

  lemma {:induction false} CallsSent(calls: seq<SentCall>, n: nat)
    requires n <= |calls|
    ensures SlotsHold(AllFragments(calls[..n]), calls[..n])
  {
    if n > 0 {
      PrefixGrows(calls, n);
      CallsSent(calls, n - 1);
      OneMoreCall(calls[..n - 1], calls[n - 1]);
    }
  }

  lemma {:induction false} AllNamed(calls: seq<ToolCall>)
    requires forall i :: 0 <= i < |calls| ==> calls[i].name != ""
    ensures Named(calls) == calls
  {
    if calls != [] {
      AllNamed(calls[1..]);
      assert calls == [calls[0]] + calls[1..];
    }
  }

  lemma SlotsAre(calls: seq<SentCall>)
    requires forall i :: 0 <= i < |calls| ==> calls[i].name != ""
    ensures var r := Named(Slots(AllFragments(calls)));
            |r| == |calls| && forall i :: 0 <= i < |calls| ==> r[i] == Called(calls[i])
  {
    CallsSent(calls, |calls|);
    assert calls[..|calls|] == calls;
    AllNamed(Slots(AllFragments(calls)));
  }

  lemma Ended(cs: seq<StreamChunk>, reason: string, usage: Usage)
    ensures var r, all := Completion(cs + [LastChunk(reason, usage)]), cs + [LastChunk(reason, usage)];
            && r.finishReason == Some(reason) && r.usage == usage
            && Content(all) == Content(cs) && Fragments(all) == Fragments(cs)
  {
    ContentNext(cs, LastChunk(reason, usage));
    assert Content(cs) + "" == Content(cs) && Fragments(cs) + [] == Fragments(cs);
  }

  /** A completion sent in any number of pieces is put together again: the text, each call
      with its id, name and arguments, the reason it ended and the usage. */
  lemma SentIsCompleted(text: seq<string>, calls: seq<SentCall>, reason: string, usage: Usage)
    requires forall i :: 0 <= i < |calls| ==> calls[i].name != ""
    ensures var r := Completion(Sending(text, calls, reason, usage));
            && r.content == (if Joined(text) == "" then None else Some(Joined(text)))
            && |r.toolCalls| == |calls| && (forall i :: 0 <= i < |calls| ==> r.toolCalls[i] == Called(calls[i]))
            && r.finishReason == Some(reason) && r.usage == usage
  {
    var before, fs := TextChunks(text), AllFragments(calls);
    var cs := before + FragmentChunks(fs);
    TextSent(text);
    FragmentsSent(before, fs, |fs|);
    assert fs[..|fs|] == fs;
    assert [] + fs == fs;
    Ended(cs, reason, usage);
    SlotsAre(calls);
  }

  /** However the network cuts what a server sends, between characters: the client ends up
      with the completion that was sent. */
  lemma ReceivedAsSent(text: seq<string>, calls: seq<SentCall>, reason: string, usage: Usage,
                       encode: StreamChunk -> string, decode: string -> Option<StreamChunk>, chunks: seq<seq<byte>>)
    requires Codec(encode, decode) && forall i :: 0 <= i < |calls| ==> calls[i].name != ""
    requires Concat(chunks) == EncodeAll(Served(Sending(text, calls, reason, usage), encode))
    requires forall i :: 0 <= i < |chunks| ==> !BeginsInside(chunks[i])
    ensures var r := Completion(Parsed(CompleteLines(Concat(LossyEach(chunks))), decode));
            && r.content == (if Joined(text) == "" then None else Some(Joined(text)))
            && |r.toolCalls| == |calls| && (forall i :: 0 <= i < |calls| ==> r.toolCalls[i] == Called(calls[i]))
            && r.finishReason == Some(reason) && r.usage == usage
  {
    var cs := Sending(text, calls, reason, usage);
    ServedIsParsed(cs, encode, decode);
    ChunkedDecoding(Served(cs, encode), chunks);
    SentIsCompleted(text, calls, reason, usage);
  }
}
