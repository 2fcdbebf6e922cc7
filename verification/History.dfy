/** Chat messages, and the per-user history file they are kept in, one line each. */
module Messages {
  import opened Text

  datatype ToolCall = ToolCall(id: string, name: string, arguments: string)

  datatype DiscordContext = DiscordContext(guildId: Option<nat>, channelId: nat, timestamp: string, displayName: string)

  datatype Content = Plain(text: string) | WithMedia(text: string, media: seq<string>)

  /** A message, with the Discord metadata that only history keeps. */
  datatype Message =
    | System(prompt: string)
    | User(content: Content, discord: Option<DiscordContext>)
    | Assistant(reply: Option<string>, toolCalls: seq<ToolCall>)
    | ToolResult(callId: string, output: string)

  /** Every assistant message is followed at once by one result per tool call, in order,
      and there is no other result. */
  predicate Paired(ms: seq<Message>)
    decreases |ms|
  {
    if ms == [] then true
    else
      match ms[0]
      case Assistant(_, calls) =>
        && |ms| > |calls|
        && (forall k :: 0 <= k < |calls| ==> Answers(ms[k + 1], calls[k]))
        && Paired(ms[|calls| + 1..])
      case ToolResult(_, _) => false
      case _ => Paired(ms[1..])
  }

  predicate Answers(m: Message, call: ToolCall) { m.ToolResult? && m.callId == call.id }

  lemma {:induction false} PairedConcat(a: seq<Message>, b: seq<Message>)
    requires Paired(a) && Paired(b)
    ensures Paired(a + b)
    decreases |a|
  {
    if a == [] {
      assert a + b == b;
    } else {
      var n := if a[0].Assistant? then |a[0].toolCalls| + 1 else 1;
      PairedConcat(a[n..], b);
      assert (a + b)[n..] == a[n..] + b;
    }
  }

  /** The message as the model sees it. */
  function Stripped(m: Message): Message { if m.User? then m.(discord := None) else m }

  function StripAll(ms: seq<Message>): seq<Message> {
    if ms == [] then [] else StripAll(ms[..|ms| - 1]) + [Stripped(ms[|ms| - 1])]
  }

  lemma {:induction false} StripAt(ms: seq<Message>)
    ensures |StripAll(ms)| == |ms| && forall i :: 0 <= i < |ms| ==> StripAll(ms)[i] == Stripped(ms[i])
    decreases |ms|
  {
    if ms != [] {
      StripAt(ms[..|ms| - 1]);
    }
  }

  lemma {:induction false} StripConcat(a: seq<Message>, b: seq<Message>)
    ensures StripAll(a + b) == StripAll(a) + StripAll(b)
    decreases |b|
  {
    if b == [] {
      assert a + b == a;
    } else {
      StripConcat(a, b[..|b| - 1]);
      assert (a + b)[..|a + b| - 1] == a + b[..|b| - 1];
    }
  }

  lemma {:induction false} StripNothing(ms: seq<Message>)
    requires forall m :: m in ms ==> Stripped(m) == m
    ensures StripAll(ms) == ms
    decreases |ms|
  {
    if ms != [] {
      StripNothing(ms[..|ms| - 1]);
      assert ms == ms[..|ms| - 1] + [ms[|ms| - 1]];
    }
  }
}

module HistoryFile {
  import opened Lines
  import opened Messages
  import opened Text
  import opened Trimming

  /** JSON serialization: invertible, on one line, without outer white space. */
  ghost predicate Codec(encode: Message -> string, decode: string -> Option<Message>) {
    forall m :: decode(encode(m)) == Some(m) && encode(m) != "" && Tight(encode(m)) && '\n' !in encode(m)
  }

  function EncodeEach(ms: seq<Message>, encode: Message -> string): seq<string> {
    if ms == [] then [] else [encode(ms[0])] + EncodeEach(ms[1..], encode)
  }

  function DecodeEach(lines: seq<string>, decode: string -> Option<Message>): seq<Message> {
    if lines == [] then []
    else
      var line := Trim(lines[0]);
      var m := decode(line);
      (if line != "" && m.Some? then [m.value] else []) + DecodeEach(lines[1..], decode)
  }

  lemma {:induction false} RoundTrip(ms: seq<Message>, encode: Message -> string, decode: string -> Option<Message>)
    requires Codec(encode, decode)
    ensures DecodeEach(StrLines(Unlines(EncodeEach(ms, encode))), decode) == ms
  {
    if ms != [] {
      RoundTrip(ms[1..], encode, decode);
      var line := encode(ms[0]);
      var rest := Unlines(EncodeEach(ms[1..], encode));
      assert EncodeEach(ms, encode)[1..] == EncodeEach(ms[1..], encode);
      NewlineEnds(line, rest);
      TightTrims(line);
      DecodeStep(line, StrLines(rest), ms[0], decode);
      assert ms == [ms[0]] + ms[1..];
    }
  }

  lemma {:induction false} DecodeStep(line: string, rest: seq<string>, m: Message, decode: string -> Option<Message>)
    requires line != "" && Trim(line) == line && decode(line) == Some(m)
    ensures DecodeEach([line] + rest, decode) == [m] + DecodeEach(rest, decode)
  {
    assert ([line] + rest)[1..] == rest;
  }

  function DecodedLine(line: string, decode: string -> Option<Message>): seq<Message> {
    if Trim(line) == "" || decode(Trim(line)) == None then [] else [decode(Trim(line)).value]
  }

  lemma DecodeFirst(lines: seq<string>, decode: string -> Option<Message>)
    requires lines != []
    ensures DecodeEach(lines, decode) == DecodedLine(lines[0], decode) + DecodeEach(lines[1..], decode)
  {
  }

  lemma Grouped<T>(a: seq<T>, b: seq<T>, c: seq<T>)
    ensures a + b + c == a + (b + c)
  {
  }

  lemma {:induction false} DecodeConcat(a: seq<string>, b: seq<string>, decode: string -> Option<Message>)
    ensures DecodeEach(a + b, decode) == DecodeEach(a, decode) + DecodeEach(b, decode)
  {
    if a == [] {
      assert a + b == b;
    } else {
      assert (a + b)[1..] == a[1..] + b && (a + b)[0] == a[0];
      DecodeConcat(a[1..], b, decode);
      DecodeFirst(a, decode);
      DecodeFirst(a + b, decode);
      Grouped(DecodedLine(a[0], decode), DecodeEach(a[1..], decode), DecodeEach(b, decode));
    }
  }

  lemma DecodeOne(line: string, decode: string -> Option<Message>)
    ensures DecodeEach([line], decode) ==
            if Trim(line) == "" || decode(Trim(line)) == None then [] else [decode(Trim(line)).value]
  {
    assert [line][1..] == [];
  }

  /** A line that is blank or does not decode is left out, and costs no other line its message. */
  lemma OtherLinesRead(a: seq<string>, line: string, b: seq<string>, decode: string -> Option<Message>)
    ensures DecodeEach(a + ([line] + b), decode) ==
            DecodeEach(a, decode)
            + ((if Trim(line) == "" || decode(Trim(line)) == None then [] else [decode(Trim(line)).value])
               + DecodeEach(b, decode))
  {
    DecodeConcat(a, [line] + b, decode);
    DecodeConcat([line], b, decode);
    DecodeOne(line, decode);
  }

  class History {
    const encode: Message -> string
    const decode: string -> Option<Message>
    var files: map<string, string>

    ghost predicate Valid() { Codec(encode, decode) }

    /** What is on file for a user. */
    function Contents(user: string): seq<Message>
      reads this
    {
      if user in files then DecodeEach(StrLines(files[user]), decode) else []
    }

    constructor (encode: Message -> string, decode: string -> Option<Message>)
      requires Codec(encode, decode)
      ensures Valid() && files == map[]
    {
      this.encode, this.decode, files := encode, decode, map[];
    }

    /** A file that cannot be read counts as empty. */
    method Load(user: string, readable: bool) returns (ms: seq<Message>)
      ensures ms == if readable then Contents(user) else []
    {
      if !readable || user !in files { return []; }
      ms := DecodeEach(StrLines(files[user]), decode);
    }

    method Save(user: string, ms: seq<Message>, writable: bool)
      requires Valid()
      modifies this
      ensures writable ==> Contents(user) == ms
      ensures !writable ==> files == old(files) && Contents(user) == old(Contents(user))
      ensures forall u :: u != user ==> Contents(u) == old(Contents(u))
    {
      var body := "";
      ghost var lines := EncodeEach(ms, encode);
      EncodeEachAt(ms, encode);
      for n := 0 to |ms|
        invariant body == Unlines(lines[..n]) && files == old(files)
      {
        UnlinesSnoc(lines[..n], lines[n]);
        assert lines[..n + 1] == lines[..n] + [lines[n]];
        body := body + encode(ms[n]) + "\n";
      }
      assert lines[..|ms|] == lines;
      RoundTrip(ms, encode, decode);
      if writable {
        files := files[user := body];
      }
    }

    method Clear(user: string, writable: bool)
      modifies this
      ensures writable ==> Contents(user) == []
      ensures !writable ==> files == old(files) && Contents(user) == old(Contents(user))
      ensures forall u :: u != user ==> Contents(u) == old(Contents(u))
    {
      if writable {
        files := files - {user};
      }
    }

    /** Append a completed turn and save. */
    method AppendTurn(user: string, message: Message, rest: seq<Message>, readable: bool, writable: bool)
      requires Valid()
      modifies this
      ensures writable ==> Contents(user) == (if readable then old(Contents(user)) else []) + [message] + rest
      ensures !writable ==> files == old(files) && Contents(user) == old(Contents(user))
      ensures forall u :: u != user ==> Contents(u) == old(Contents(u))
    {
      var history := Load(user, readable);
      Save(user, history + [message] + rest, writable);
    }
  }

  lemma {:induction false} EncodeEachAt(ms: seq<Message>, encode: Message -> string)
    ensures |EncodeEach(ms, encode)| == |ms|
    ensures forall k :: 0 <= k < |ms| ==> EncodeEach(ms, encode)[k] == encode(ms[k])
  {
    if ms != [] {
      EncodeEachAt(ms[1..], encode);
    }
  }
}
