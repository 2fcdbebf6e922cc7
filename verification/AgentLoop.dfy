/** One user turn: the message list, the bounded tool loop, and every way out of it. */
module AgentTurn {
  import opened Text
  import opened Messages

  datatype Usage = Usage(promptTokens: nat, completionTokens: nat, cachedTokens: nat)
  datatype Completion = Completion(content: Option<string>, toolCalls: seq<ToolCall>, usage: Usage)

  /** What happens around one model call: cancellation before, during or just after it,
      its result if it has one, and what the tools it asks for return. */
  datatype Round = Round(
    cancelledBefore: bool, cancelledDuring: bool, cancelledAfter: bool,
    result: Option<Completion>, toolOutput: nat -> string)

  datatype Exit = OutOfRounds | Cancelled | ModelError | Answer(text: string) | RateLimited

  /** The messages a run of rounds adds, how it ends, the usage of each answered call, and
      the number of calls. */
  datatype Outcome = Outcome(messages: seq<Message>, exit: Exit, usages: seq<Usage>, calls: nat)

  function Results(calls: seq<ToolCall>, output: nat -> string): seq<Message> {
    seq(|calls|, k requires 0 <= k < |calls| => ToolResult(calls[k].id, output(k)))
  }

  /** Whether some web search of the batch was turned away. */
  predicate SearchLimited(calls: seq<ToolCall>, output: nat -> string, limited: string -> bool) {
    exists k :: 0 <= k < |calls| && calls[k].name == "web_search" && limited(output(k))
  }

  function Batch(c: Completion, output: nat -> string): seq<Message> {
    [Assistant(c.content, c.toolCalls)] + Results(c.toolCalls, output)
  }

  /** What one round does: it ends the turn, or the turn goes on with more messages. */
  datatype Step = Stop(outcome: Outcome) | GoOn(messages: seq<Message>, usage: Usage)

  function RoundStep(r: Round, limited: string -> bool): Step {
    if r.cancelledBefore then Stop(Outcome([], Cancelled, [], 0))
    else if r.cancelledDuring || r.cancelledAfter then Stop(Outcome([], Cancelled, [], 1))
    else if r.result.None? then Stop(Outcome([], ModelError, [], 1))
    else
      var c := r.result.value;
      var batch := Batch(c, r.toolOutput);
      if c.toolCalls == [] then
        Stop(Outcome(batch, Answer(if c.content.Some? then c.content.value else ""), [c.usage], 1))
      else if SearchLimited(c.toolCalls, r.toolOutput, limited) then Stop(Outcome(batch, RateLimited, [c.usage], 1))
      else GoOn(batch, c.usage)
  }

  /** What the caller and the stores provide for one turn. */
  datatype Turn = Turn(
    content: Content, discord: DiscordContext, system: Message, skills: Message, context: Message,
    rounds: nat -> Round, maxRounds: nat, limited: string -> bool)
  {
    function RoundAt(n: nat): Round { rounds(n) }
    function Said(): Message { User(content, None) }
    function Kept(): Message { User(content, Some(discord)) }
    function Added(): seq<Message> { Transcript(this, 0).messages }
  }

  /** The turn from round `n` on. */
  function Transcript(t: Turn, n: nat): Outcome
    decreases t.maxRounds - n
  {
    if n >= t.maxRounds then Outcome([], OutOfRounds, [], 0)
    else
      match RoundStep(t.RoundAt(n), t.limited)
      case Stop(outcome) => outcome
      case GoOn(messages, usage) =>
        var rest := Transcript(t, n + 1);
        Outcome(messages + rest.messages, rest.exit, [usage] + rest.usages, rest.calls + 1)
  }

  lemma BatchPaired(c: Completion, output: nat -> string)
    ensures Paired(Batch(c, output))
    ensures forall m :: m in Batch(c, output) ==> Stripped(m) == m
  {
    var batch := Batch(c, output);
    assert batch[|c.toolCalls| + 1..] == [];
  }

  function StepMessages(step: Step): seq<Message> { if step.Stop? then step.outcome.messages else step.messages }

  lemma RoundOk(r: Round, limited: string -> bool)
    ensures var step := RoundStep(r, limited);
            && Paired(StepMessages(step)) && (forall m :: m in StepMessages(step) ==> Stripped(m) == m)
            && (step.Stop? ==> |step.outcome.usages| <= step.outcome.calls <= 1 && step.outcome.exit != OutOfRounds)
  {
    if r.result.Some? {
      BatchPaired(r.result.value, r.toolOutput);
    }
  }

  /** The turn, one round unfolded. */
  lemma Unfold(t: Turn, n: nat)
    requires n < t.maxRounds
    ensures var step, o, rest := RoundStep(t.RoundAt(n), t.limited), Transcript(t, n), Transcript(t, n + 1);
            if step.Stop? then o == step.outcome
            else o.messages == step.messages + rest.messages && o.exit == rest.exit
                 && o.usages == [step.usage] + rest.usages && o.calls == rest.calls + 1
  {
  }

  /** The model is called no more often than allowed, and exactly that often when the
      bound ends the turn. */
  lemma {:induction false} CallsBounded(t: Turn, n: nat)
    requires n <= t.maxRounds
    ensures |Transcript(t, n).usages| <= Transcript(t, n).calls <= t.maxRounds - n
    ensures Transcript(t, n).exit == OutOfRounds ==> Transcript(t, n).calls == t.maxRounds - n
    decreases t.maxRounds - n
  {
    if n < t.maxRounds {
      Unfold(t, n);
      RoundOk(t.RoundAt(n), t.limited);
      CallsBounded(t, n + 1);
    }
  }

  /** On every exit, no tool call is left without its result. */
  lemma {:induction false} TranscriptPaired(t: Turn, n: nat)
    ensures Paired(Transcript(t, n).messages)
    ensures forall m :: m in Transcript(t, n).messages ==> Stripped(m) == m
    decreases t.maxRounds - n
  {
    if n < t.maxRounds {
      var step, rest := RoundStep(t.RoundAt(n), t.limited), Transcript(t, n + 1).messages;
      Unfold(t, n);
      RoundOk(t.RoundAt(n), t.limited);
      if step.GoOn? {
        TranscriptPaired(t, n + 1);
        PairedConcat(step.messages, rest);
      }
    }
  }

  // ---------------------------------------------------------------- the message list

  const SESSION_CONTEXT_HEADER := "[Session context: a snapshot taken when this session started. " +
    "Memory changes made later in the conversation replace it.]"

  /** The content of a message, where it is a plain string. */
  function PlainContent(m: Message): Option<string> {
    match m
    case System(prompt) => Some(prompt)
    case User(content, _) => if content.Plain? then Some(content.text) else None
    case Assistant(reply, _) => reply
    case ToolResult(_, output) => Some(output)
  }

  predicate IsSessionContext(m: Message) {
    PlainContent(m).Some? && StartsWith(PlainContent(m).value, SESSION_CONTEXT_HEADER)
  }

  /** The history a turn starts from: the session context goes in front, once. */
  function WithContext(past: seq<Message>, context: Message): seq<Message> {
    if past != [] && IsSessionContext(past[0]) then past else [context] + past
  }

  /** The first list sent to the model. */
  function Sent(past: seq<Message>, t: Turn): seq<Message> {
    [t.system, t.skills] + StripAll(WithContext(past, t.context)) + [t.Said()]
  }

  /** The list held when the turn ends. */
  function Held(past: seq<Message>, t: Turn): seq<Message> { Sent(past, t) + t.Added() }

  /** The history a turn leaves. */
  function Stored(past: seq<Message>, t: Turn): seq<Message> {
    WithContext(past, t.context) + [t.Kept()] + t.Added()
  }

  /** The next turn sends exactly what this one held, and the new request: the prompt
      cache sees a prefix it knows, although history keeps more than the model saw. */
  lemma NextTurnExtends(past: seq<Message>, t: Turn, u: Turn)
    requires IsSessionContext(t.context) && u.system == t.system && u.skills == t.skills
    ensures Sent(Stored(past, t), u) == Held(past, t) + [u.Said()]
    ensures WithContext(Stored(past, t), u.context) == Stored(past, t)
  {
    var before := WithContext(past, t.context);
    assert Stored(past, t)[0] == before[0];
    StripTurnBehind(before, t);
    RegroupSent([t.system, t.skills], StripAll(before), [t.Said()], t.Added(), [u.Said()]);
  }

  lemma RegroupSent(fixed: seq<Message>, before: seq<Message>, said: seq<Message>, added: seq<Message>,
                    next: seq<Message>)
    ensures fixed + (before + said + added) + next == fixed + before + said + added + next
  {
  }

  /** A stored turn, as the model sees it. */
  lemma StripTurnBehind(before: seq<Message>, t: Turn)
    ensures StripAll(before + [t.Kept()] + t.Added()) == StripAll(before) + [t.Said()] + t.Added()
  {
    TranscriptPaired(t, 0);
    StripConcat(before + [t.Kept()], t.Added());
    StripConcat(before, [t.Kept()]);
    assert [t.Kept()][..0] == [] && StripAll([t.Kept()]) == [t.Said()];
    StripNothing(t.Added());
  }

  function HistoryAfter(past: seq<Message>, turns: seq<Turn>): seq<Message> {
    if turns == [] then past else Stored(HistoryAfter(past, turns[..|turns| - 1]), turns[|turns| - 1])
  }

  lemma PrefixTransitive<T>(a: seq<T>, b: seq<T>, c: seq<T>)
    requires a <= b <= c
    ensures a <= c
  {
  }

  lemma NextTurnPrefix(past: seq<Message>, t: Turn, u: Turn)
    requires IsSessionContext(t.context) && u.system == t.system && u.skills == t.skills
    ensures Held(past, t) <= Sent(Stored(past, t), u) && Sent(past, t) <= Sent(Stored(past, t), u)
  {
    NextTurnExtends(past, t, u);
    PrefixTransitive(Sent(past, t), Held(past, t), Sent(Stored(past, t), u));
  }

  lemma HistorySnoc(past: seq<Message>, turns: seq<Turn>, j: nat)
    requires 0 < j <= |turns|
    ensures HistoryAfter(past, turns[..j]) == Stored(HistoryAfter(past, turns[..j - 1]), turns[j - 1])
  {
    assert turns[..j][..j - 1] == turns[..j - 1];
  }

  /** Within a session, all that any turn held is a prefix of whatever any later turn sends. */
  lemma {:induction false} PrefixOnlyGrows(past: seq<Message>, turns: seq<Turn>, i: nat, j: nat)
    requires i < j < |turns|
    requires forall k :: 0 <= k < |turns| ==>
               && IsSessionContext(turns[k].context)
               && turns[k].system == turns[0].system && turns[k].skills == turns[0].skills
    ensures Held(HistoryAfter(past, turns[..i]), turns[i]) <= Sent(HistoryAfter(past, turns[..j]), turns[j])
    decreases j
  {
    var h := HistoryAfter(past, turns[..j - 1]);
    HistorySnoc(past, turns, j);
    NextTurnPrefix(h, turns[j - 1], turns[j]);
    if i < j - 1 {
      PrefixOnlyGrows(past, turns, i, j - 1);
      PrefixTransitive(Held(HistoryAfter(past, turns[..i]), turns[i]), Sent(h, turns[j - 1]),
          Sent(HistoryAfter(past, turns[..j]), turns[j]));
    }
  }

  /** If the append that ends a turn is lost, the next list extends this one only when the
      turn added nothing and the user says the same again. */
  lemma LostAppend(past: seq<Message>, t: Turn, u: Turn)
    requires IsSessionContext(t.context) && u.system == t.system && u.skills == t.skills
    ensures Held(past, t) <= Sent(WithContext(past, t.context), u) <==> t.Added() == [] && u.content == t.content
  {
    var before := WithContext(past, t.context);
    assert WithContext(before, u.context) == before;
    var prefix := [t.system, t.skills] + StripAll(before);
    assert Sent(past, t) == prefix + [t.Said()] && Sent(before, u) == prefix + [u.Said()];
    assert (prefix + [t.Said()] + t.Added())[|prefix|] == t.Said();
    assert (prefix + [u.Said()])[|prefix|] == u.Said();
  }

  /** Turns keep a paired history paired. */
  lemma StoredPaired(past: seq<Message>, t: Turn)
    requires Paired(past) && t.context.User?
    ensures Paired(WithContext(past, t.context)) && Paired(Stored(past, t))
  {
    assert ([t.context] + past)[1..] == past;
    TranscriptPaired(t, 0);
    var before := WithContext(past, t.context);
    assert [t.Kept()][1..] == [] && Paired([t.Kept()]);
    PairedConcat(before, [t.Kept()]);
    PairedConcat(before + [t.Kept()], t.Added());
  }
}

/** The agent object: runs, compactions and resets over one history store. */
module AgentObject {
  import opened Text
  import opened Messages
  import opened HistoryFile
  import opened AgentTurn
  import opened TurnRounds

  datatype Stats = Stats(requests: nat, contextTokens: nat, inputTokens: nat, outputTokens: nat, cachedTokens: nat)

  const NO_STATS := Stats(0, 0, 0, 0, 0)

  function Recorded(s: Stats, u: Usage): Stats {
    Stats(s.requests + 1, u.promptTokens, s.inputTokens + u.promptTokens,
          s.outputTokens + u.completionTokens, s.cachedTokens + u.cachedTokens)
  }

  function StatsOf(stats: map<string, Stats>, user: string): Stats { if user in stats then stats[user] else NO_STATS }

  function RecordAll(stats: map<string, Stats>, user: string, usages: seq<Usage>): map<string, Stats> {
    if usages == [] then stats
    else
      var before := RecordAll(stats, user, usages[..|usages| - 1]);
      before[user := Recorded(StatsOf(before, user), usages[|usages| - 1])]
  }

  lemma RecordOne(stats: map<string, Stats>, user: string, usages: seq<Usage>, u: Usage)
    ensures var before := RecordAll(stats, user, usages);
            RecordAll(stats, user, usages + [u]) == before[user := Recorded(StatsOf(before, user), u)]
  {
    assert (usages + [u])[..|usages|] == usages;
  }

  function Sum(usages: seq<Usage>, tokens: Usage -> nat): nat {
    if usages == [] then 0 else Sum(usages[..|usages| - 1], tokens) + tokens(usages[|usages| - 1])
  }

  /** Recording some usages counts them as requests, adds up their tokens, leaves the prompt
      of the last as the size of the context, and changes nobody else's counters. */
  lemma {:induction false} CountersAddUp(stats: map<string, Stats>, user: string, usages: seq<Usage>)
    ensures RecordAll(stats, user, usages) - {user} == stats - {user}
    ensures usages == [] ==> RecordAll(stats, user, usages) == stats
    ensures usages != [] ==>
              var before, after := StatsOf(stats, user), RecordAll(stats, user, usages);
              && user in after
              && after[user].requests == before.requests + |usages|
              && after[user].contextTokens == usages[|usages| - 1].promptTokens
              && after[user].inputTokens == before.inputTokens + Sum(usages, (u: Usage) => u.promptTokens)
              && after[user].outputTokens == before.outputTokens + Sum(usages, (u: Usage) => u.completionTokens)
              && after[user].cachedTokens == before.cachedTokens + Sum(usages, (u: Usage) => u.cachedTokens)
    decreases |usages|
  {
    if usages != [] {
      CountersAddUp(stats, user, usages[..|usages| - 1]);
    }
  }

  /** What a turn comes to when `rest` follows what has been done. */
  function Continue(messages: seq<Message>, usages: seq<Usage>, calls: nat, rest: Outcome): Outcome {
    Outcome(messages + rest.messages, rest.exit, usages + rest.usages, calls + rest.calls)
  }

  /** After `round` rounds, which added `messages` and `usages`, the turn is still on its way to `outcome`. */
  ghost predicate OnTheWay(t: Turn, outcome: Outcome, messages: seq<Message>, usages: seq<Usage>, round: nat) {
    outcome == Continue(messages, usages, round, Transcript(t, round))
  }

  lemma OneRound(t: Turn, outcome: Outcome, messages: seq<Message>, usages: seq<Usage>, round: nat, step: Step)
    requires round < t.maxRounds && OnTheWay(t, outcome, messages, usages, round) &&
        step == RoundStep(t.RoundAt(round), t.limited)
    ensures step.Stop? ==> outcome == Continue(messages, usages, round, step.outcome)
    ensures step.GoOn? ==> OnTheWay(t, outcome, messages + step.messages, usages + [step.usage], round + 1)
  {
    Unfold(t, round);
    if step.GoOn? {
      var rest := Transcript(t, round + 1);
      assert messages + (step.messages + rest.messages) == messages + step.messages + rest.messages;
      assert usages + ([step.usage] + rest.usages) == usages + [step.usage] + rest.usages;
    }
  }

  lemma PushedBoth(sent: seq<Message>, added: seq<Message>, more: seq<Message>)
    ensures sent + added + more == sent + (added + more)
  {
  }

  lemma WholeTurn(t: Turn, whole: Outcome)
    requires whole == Transcript(t, 0)
    ensures OnTheWay(t, whole, [], [], 0)
  {
    assert [] + whole.messages == whole.messages && [] + whole.usages == whole.usages;
  }

  lemma BoundReached(t: Turn, outcome: Outcome, messages: seq<Message>, usages: seq<Usage>)
    requires OnTheWay(t, outcome, messages, usages, t.maxRounds)
    ensures outcome == Outcome(messages, OutOfRounds, usages, t.maxRounds)
  {
    assert messages + [] == messages && usages + [] == usages;
  }

  /** A model's answer to a request for a summary. */
  datatype Summary = NoAnswer | Summarized(content: Option<string>, usage: Usage)

  /** Which file operations of a compaction succeed, and what the model says. */
  datatype Compaction = Compaction(readable: bool, summary: Summary, clearable: bool, writable: bool, date: string)

  function SummaryText(s: Summary): string { if s.Summarized? && s.content.Some? then s.content.value else "" }

  function CarryOver(date: string, summary: string): seq<Message> {
    [User(Plain("## Summary of our earlier conversation (" + date + ")\n" + summary), None),
     Assistant(Some("Understood — I'll continue from that summary."), [])]
  }

  /** Some request of the history holds the text of the summary. */
  ghost predicate Recalls(ms: seq<Message>, s: Summary) {
    && s.Summarized? && s.content.Some?
    && exists k :: 0 <= k < |ms| && ms[k].User? && ms[k].content.Plain? && Occurs(ms[k].content.text, s.content.value)
  }

  lemma CarryOverRecalls(date: string, s: Summary)
    requires s.Summarized? && s.content.Some?
    ensures Recalls(CarryOver(date, SummaryText(s)), s)
  {
    var intro := "## Summary of our earlier conversation (" + date + ")\n";
    var text := s.content.value;
    MatchBetween(intro, text, "");
    assert intro + text + "" == intro + text;
    assert CarryOver(date, text)[0] == User(Plain(intro + text), None);
  }

  /** Which file operations of a run succeed. */
  datatype Storage = Storage(readable: bool, rereadable: bool, contextWritable: bool, appendReadable: bool,
      appendWritable: bool)

  /** The history as a compaction finds it. */
  function ToCompact(onFile: seq<Message>, c: Compaction): seq<Message> { if c.readable then onFile else [] }

  /** A compaction succeeds when there is nothing to compact or the summary says something. */
  predicate Compacts(onFile: seq<Message>, c: Compaction) {
    ToCompact(onFile, c) == [] || Trim(SummaryText(c.summary)) != ""
  }

  /** What a compaction leaves on file: the summary carried over, or what was there; or
      nothing, when the old file could be removed but the new one not written. */
  function Compacted(onFile: seq<Message>, c: Compaction): seq<Message> {
    if ToCompact(onFile, c) == [] || !Compacts(onFile, c) then onFile
    else if c.writable then CarryOver(c.date, SummaryText(c.summary))
    else if c.clearable then [] else onFile
  }

  lemma TakeOutPutBack<V>(m: map<string, V>, key: string)
    ensures if key in m then (m - {key})[key := m[key]] == m else m - {key} == m
  {
  }

  /** What a run starts from: the file, the history as loaded from it, and the counters. */
  datatype Opening = Opening(onFile: seq<Message>, past: seq<Message>, stats: map<string, Stats>)

  function Opened(onFile: seq<Message>, stats: map<string, Stats>, nearlyFull: bool, user: string, io: Storage,
                  c: Compaction): Opening
  {
    var past := if io.readable then onFile else [];
    if past == [] || !nearlyFull then Opening(onFile, past, stats)
    else
      var after := Compacted(onFile, c);
      Opening(after, if io.rereadable then after else [], if Compacts(onFile, c) then stats - {user} else stats)
  }

  /** The conversations with one for `user`: the active one, or a new one. */
  function CurrentOr(conversations: map<string, string>, user: string, newId: string): map<string, string> {
    if user in conversations then conversations else conversations[user := newId]
  }

  /** The conversations of a run: a compaction that succeeds ends the active one. */
  function Conversing(conversations: map<string, string>, onFile: seq<Message>, nearlyFull: bool, user: string,
                      io: Storage, c: Compaction, newId: string): map<string, string>
  {
    var compacting := io.readable && onFile != [] && nearlyFull;
    CurrentOr(if compacting && Compacts(onFile, c) then conversations - {user} else conversations, user, newId)
  }

  class Agent {
    const history: History
    const window: nat
    var stats: map<string, Stats>
    var conversations: map<string, string>

    ghost predicate Valid()
      reads this, history
    {
      history.Valid() && AllPaired()
    }

    ghost predicate AllPaired()
      reads this, history
    {
      forall u :: Paired(history.Contents(u))
    }

    /** No other user's history changed. */
    twostate predicate OnlyChanged(user: string)
      reads this, history
    {
      forall u :: u != user ==> history.Contents(u) == old(history.Contents(u))
    }

    constructor (history: History, window: nat)
      requires history.Valid() && history.files == map[]
      ensures Valid() && this.history == history && this.window == window && stats == map[] && conversations == map[]
    {
      this.history, this.window, stats, conversations := history, window, map[], map[];
    }

    method RecordUsage(user: string, usage: Usage)
      modifies `stats
      ensures stats == old(stats)[user := Recorded(StatsOf(old(stats), user), usage)]
    {
      var s := if user in stats then stats[user] else NO_STATS;
      stats := stats[user := Recorded(s, usage)];
    }

    /** The active conversation's id, or a new one. */
    method CurrentConversation(user: string, newId: string)
      modifies `conversations
      ensures conversations == if user in old(conversations) then old(conversations)
                               else old(conversations)[user := newId]
    {
      if user !in conversations {
        conversations := conversations[user := newId];
      }
    }

    /** The tool loop: run rounds until an answer, a failure, a cancellation or the bound. */
    method RunRounds(user: string, t: Turn, sent: seq<Message>)
      returns (held: seq<Message>, added: seq<Message>, exit: Exit, ghost calls: nat)
      modifies `stats
      ensures Outcome(added, exit, Transcript(t, 0).usages, calls) == Transcript(t, 0) && held == sent + added
      ensures stats == RecordAll(old(stats), user, Transcript(t, 0).usages)
    {
      ghost var whole, usages := Transcript(t, 0), [];
      WholeTurn(t, whole);
      held, added := sent, [];
      var round := 0;
      while round < t.maxRounds
        invariant round <= t.maxRounds && held == sent + added
        invariant OnTheWay(t, whole, added, usages, round)
        invariant stats == RecordAll(old(stats), user, usages)
      {
        var step;
        held, added, step := NextRound(user, t, round, sent, held, added, whole, usages, old(stats));
        if step.Stop? {
          return held, added, step.outcome.exit, round + step.outcome.calls;
        }
        usages, round := usages + [step.usage], round + 1;
      }
      BoundReached(t, whole, added, usages);
      exit, calls := OutOfRounds, round;
    }

    /** Run one round and push what it adds to both lists. */
    method NextRound(user: string, t: Turn, round: nat, ghost sent: seq<Message>, held: seq<Message>,
                     added: seq<Message>, ghost whole: Outcome, ghost usages: seq<Usage>,
                     ghost stats0: map<string, Stats>)
      returns (held': seq<Message>, added': seq<Message>, step: Step)
      requires round < t.maxRounds && held == sent + added && OnTheWay(t, whole, added, usages, round)
      requires stats == RecordAll(stats0, user, usages)
      modifies `stats
      ensures held' == sent + added'
      ensures step.Stop? ==>
                && whole == Outcome(added', step.outcome.exit, whole.usages, round + step.outcome.calls)
                && stats == RecordAll(stats0, user, whole.usages)
      ensures step.GoOn? ==>
                && OnTheWay(t, whole, added', usages + [step.usage], round + 1)
                && stats == RecordAll(stats0, user, usages + [step.usage])
    {
      step := RunRound(user, t.RoundAt(round), t.limited, stats0, usages);
      OneRound(t, whole, added, usages, round, step);
      PushedBoth(sent, added, StepMessages(step));
      held', added' := held + StepMessages(step), added + StepMessages(step);
    }

    /** One round: honour a cancellation before and after the call, then answer, fail, or
        run the tools. */
    method RunRound(user: string, r: Round, isLimited: string -> bool, ghost stats0: map<string, Stats>,
        ghost usages: seq<Usage>) returns (step: Step)
      requires stats == RecordAll(stats0, user, usages)
      modifies `stats
      ensures step == RoundStep(r, isLimited)
      ensures stats == RecordAll(stats0, user, usages + if step.Stop? then step.outcome.usages else [step.usage])
    {
      assert usages + [] == usages;
      if r.cancelledBefore {
        return Stop(Outcome([], Cancelled, [], 0));
      }
      if r.cancelledDuring || r.cancelledAfter {
        return Stop(Outcome([], Cancelled, [], 1));
      }
      if r.result.None? {
        return Stop(Outcome([], ModelError, [], 1));
      }
      var c := r.result.value;
      RecordOne(stats0, user, usages, c.usage);
      RecordUsage(user, c.usage);
      var batch, limited := RunTools(c, r.toolOutput, isLimited);
      if c.toolCalls == [] {
        return Stop(Outcome(batch, Answer(if c.content.Some? then c.content.value else ""), [c.usage], 1));
      }
      if limited {
        return Stop(Outcome(batch, RateLimited, [c.usage], 1));
      }
      return GoOn(batch, c.usage);
    }

    /** The assistant message and one result for every call it makes, rate-limited or not. */
    method RunTools(c: Completion, output: nat -> string, isLimited: string -> bool)
      returns (batch: seq<Message>, limited: bool)
      ensures batch == Batch(c, output) && limited == SearchLimited(c.toolCalls, output, isLimited)
      ensures |batch| == |c.toolCalls| + 1 && batch[0] == Assistant(c.content, c.toolCalls)
      ensures forall k :: 0 <= k < |c.toolCalls| ==> batch[k + 1] == ToolResult(c.toolCalls[k].id, output(k))
    {
      batch, limited := [Assistant(c.content, c.toolCalls)], false;
      for k := 0 to |c.toolCalls|
        invariant |batch| == k + 1 && batch[0] == Assistant(c.content, c.toolCalls)
        invariant forall j :: 0 <= j < k ==> batch[j + 1] == ToolResult(c.toolCalls[j].id, output(j))
        invariant limited <==> exists j :: 0 <= j < k && c.toolCalls[j].name == "web_search" && isLimited(output(j))
      {
        var call := c.toolCalls[k];
        batch := batch + [ToolResult(call.id, output(k))];
        if call.name == "web_search" && isLimited(output(k)) {
          limited := true;
        }
      }
    }

    /** Clear a user's history and counters without preserving a summary. */
    method ResetSession(user: string, clearable: bool)
      requires Valid()
      modifies this, history
      ensures Valid() && stats == old(stats) - {user} && conversations == old(conversations) - {user}
      ensures history.Contents(user) == if clearable then [] else old(history.Contents(user))
      ensures OnlyChanged(user)
    {
      stats := stats - {user};
      assert Paired(history.Contents(user));
      history.Clear(user, clearable);
      assert forall u :: u != user ==> old(Paired(history.Contents(u)));
      conversations := conversations - {user};
    }

    /** Replace a user's history by the summary carried over. */
    method StartOver(user: string, c: Compaction, summary: string)
      requires Valid()
      modifies history
      ensures Valid() && OnlyChanged(user)
      ensures history.Contents(user) == if c.writable then CarryOver(c.date, summary)
                                        else if c.clearable then [] else old(history.Contents(user))
    {
      CarryOverPaired(c.date, summary);
      assert Paired(history.Contents(user));
      history.Clear(user, c.clearable);
      history.Save(user, CarryOver(c.date, summary), c.writable);
      assert forall u :: u != user ==> old(Paired(history.Contents(u)));
    }

    /** Ask for a summary; the request's own usage does not stay in the counters. */
    method Summarize(user: string, answer: Summary) returns (summary: string)
      requires user !in stats
      modifies `stats
      ensures summary == SummaryText(answer) && stats == old(stats)
    {
      if answer.Summarized? {
        RecordUsage(user, answer.usage);
      }
      summary := SummaryText(answer);
      stats := stats - {user};
    }

    /** Summarize the conversation and start a fresh session.  False means that no summary
        could be made, and then history and counters are as they were. */
    method CompactSession(user: string, c: Compaction, newId: string) returns (ok: bool)
      requires Valid()
      modifies this, history
      ensures Valid()
      ensures !ok ==> history.files == old(history.files) && stats == old(stats)
      ensures ok ==> stats == old(stats) - {user} && user !in conversations
      ensures ok <==> Compacts(old(history.Contents(user)), c)
      ensures ok <==> || !c.readable || old(history.Contents(user)) == []
                      || (c.summary.Summarized? && c.summary.content.Some? && Trim(c.summary.content.value) != "")
      ensures ok && c.readable && old(history.Contents(user)) != [] && c.writable ==>
                Recalls(history.Contents(user), c.summary)
      ensures history.Contents(user) == Compacted(old(history.Contents(user)), c) && OnlyChanged(user)
      ensures conversations == if ok then old(conversations) - {user} else CurrentOr(old(conversations), user, newId)
    {
      var previous := if user in stats then Some(stats[user]) else None;
      TakeOutPutBack(stats, user);
      stats := stats - {user};
      var past := history.Load(user, c.readable);
      if past == [] {
        conversations := conversations - {user};
        return true;
      }
      ok := CompactPast(user, c, newId, previous);
      if ok && c.writable {
        CarryOverRecalls(c.date, c.summary);
      }
    }

    /** Ask for a summary of a history that is not empty.  With one, start over; without,
        put the counters back. */
    method CompactPast(user: string, c: Compaction, newId: string, previous: Option<Stats>) returns (ok: bool)
      requires Valid() && user !in stats
      modifies this, history
      ensures Valid() && OnlyChanged(user)
      ensures ok <==> Trim(SummaryText(c.summary)) != ""
      ensures stats == if !ok && previous.Some? then old(stats)[user := previous.value] else old(stats)
      ensures conversations == if ok then old(conversations) - {user} else CurrentOr(old(conversations), user, newId)
      ensures !ok ==> history.files == old(history.files)
      ensures ok ==> history.Contents(user) == if c.writable then CarryOver(c.date, SummaryText(c.summary))
                                               else if c.clearable then [] else old(history.Contents(user))
    {
      CurrentConversation(user, newId);
      var summary := Summarize(user, c.summary);
      ok := Trim(summary) != "";
      if ok {
        StartOver(user, c, summary);
        conversations := conversations - {user};
      } else if previous.Some? {
        stats := stats[user := previous.value];
      }
    }

    /** The context has reached nine tenths of the window. */
    function NearlyFull(user: string): bool
      reads this
    {
      10 * StatsOf(stats, user).contextTokens >= 9 * (if window >= 1 then window else 1)
    }

    /** The last prompt of the session took at least nine tenths of the window. */
    ghost predicate NineTenthsFull(user: string)
      reads this
    {
      var tokens := if user in stats then stats[user].contextTokens else 0;
      tokens as real / (if window >= 1 then window else 1) as real >= 0.9
    }

    lemma NearlyFullIs(user: string)
      ensures NearlyFull(user) <==> NineTenthsFull(user)
    {
      var tokens := if user in stats then stats[user].contextTokens else 0;
      var size := if window >= 1 then window else 1;
      NineTenths(tokens, size);
    }

    /** Put the session context in front of a history that lacks it, and save that. */
    method Prepare(user: string, past: seq<Message>, context: Message, writable: bool) returns (headed: seq<Message>)
      requires Valid() && context.User? && Paired(past)
      modifies history
      ensures Valid() && OnlyChanged(user) && headed == WithContext(past, context)
      ensures history.Contents(user) == if writable && headed != past then headed else old(history.Contents(user))
    {
      headed := past;
      if past == [] || !IsSessionContext(past[0]) {
        headed := [context] + past;
        assert headed[1..] == past && Paired(headed);
        assert Paired(history.Contents(user));
        history.Save(user, headed, writable);
        assert forall u :: u != user ==> old(Paired(history.Contents(u)));
      }
    }

    /** Append a finished turn. */
    method Finish(user: string, message: Message, added: seq<Message>, readable: bool, writable: bool)
      requires Valid() && message.User? && Paired(added)
      modifies history
      ensures Valid() && OnlyChanged(user)
      ensures history.Contents(user) == if !writable then old(history.Contents(user))
                                        else (if readable then old(history.Contents(user)) else []) + [message] + added
    {
      ghost var before := if readable then history.Contents(user) else [];
      assert Paired(history.Contents(user));
      AppendPaired(before, message, added);
      history.AppendTurn(user, message, added, readable, writable);
      assert forall u :: u != user ==> old(Paired(history.Contents(u)));
    }

    /** Load the history, compacting it first when the context is nearly full. */
    method Open(user: string, io: Storage, c: Compaction, newId: string) returns (past: seq<Message>)
      requires Valid()
      modifies this, history
      ensures Valid() && OnlyChanged(user) && Paired(past)
      ensures var onFile, nearlyFull := old(history.Contents(user)), old(NineTenthsFull(user));
              && (!io.readable || onFile == [] || !nearlyFull ==>
                    && history.Contents(user) == onFile && stats == old(stats)
                    && past == if io.readable then onFile else [])
              && (io.readable && onFile != [] && nearlyFull ==>
                    && history.Contents(user) == Compacted(onFile, c)
                    && past == if io.rereadable then history.Contents(user) else [])
      ensures Opening(history.Contents(user), past, stats)
           == Opened(old(history.Contents(user)), old(stats), old(NearlyFull(user)), user, io, c)
      ensures conversations
           == Conversing(old(conversations), old(history.Contents(user)), old(NearlyFull(user)), user, io, c, newId)
    {
      assert Paired(history.Contents(user));
      NearlyFullIs(user);
      past := history.Load(user, io.readable);
      if past != [] && NearlyFull(user) {
        var compacted := CompactSession(user, c, newId);
        assert Paired(history.Contents(user));
        past := history.Load(user, io.rereadable);
      }
      CurrentConversation(user, newId);
    }

    /** One user turn. */
    method Run(user: string, t: Turn, io: Storage, c: Compaction, newId: string)
      returns (sent: seq<Message>, held: seq<Message>, exit: Exit, ghost calls: nat)
      requires Valid() && t.context.User? && IsSessionContext(t.context)
      modifies this, history
      ensures Valid() && OnlyChanged(user) && calls <= t.maxRounds
      ensures exit == Transcript(t, 0).exit && calls == Transcript(t, 0).calls
      ensures exists n :: StopsAt(Transcript(t, 0), t, n)
      ensures sent <= held && RoundsStand(held, |sent|, t)
      ensures io.appendWritable ==> StoresTurn(history.Contents(user), t)
      ensures var start := Opened(old(history.Contents(user)), old(stats), old(NearlyFull(user)), user, io, c);
              && sent == Sent(start.past, t) && held == Held(start.past, t)
              && SendsHistory(sent, start.past, t)
              && stats == RecordAll(start.stats, user, Transcript(t, 0).usages)
              && history.Contents(user) == AfterRun(start, t, io)
      ensures conversations
           == Conversing(old(conversations), old(history.Contents(user)), old(NearlyFull(user)), user, io, c, newId)
    {
      var past := Open(user, io, c, newId);
      var headed := Prepare(user, past, t.context, io.contextWritable);
      ghost var before := history.Contents(user);
      sent := [t.system, t.skills] + StripAll(headed) + [t.Said()];
      var added;
      held, added, exit, calls := RunRounds(user, t, sent);
      CallsBounded(t, 0);
      TranscriptPaired(t, 0);
      Finish(user, t.Kept(), added, io.appendReadable, io.appendWritable);
      ghost var last := TurnStops(t);
      EveryRoundStands(sent, held, t);
      SentIsSeen(past, t);
      if io.appendWritable {
        TurnStored(history.Contents(user), if io.appendReadable then before else [], t);
      }
    }
  }

  lemma NineTenths(tokens: nat, size: nat)
    requires size >= 1
    ensures 10 * tokens >= 9 * size <==> tokens as real / size as real >= 0.9
  {
    var x := tokens as real / size as real;
    assert x * size as real == tokens as real;
    if x >= 0.9 {
      TimesMore(0.9, x, size as real);
    } else {
      TimesMore(x, 0.9, size as real);
    }
  }

  lemma TimesMore(x: real, y: real, a: real)
    requires x <= y && a > 0.0
    ensures x * a <= y * a && (x < y ==> x * a < y * a)
  {
  }

  lemma CarryOverPaired(date: string, summary: string)
    ensures Paired(CarryOver(date, summary))
  {
    var ms := CarryOver(date, summary);
    assert ms[1..][1..] == [];
  }

  lemma AppendPaired(before: seq<Message>, message: Message, added: seq<Message>)
    requires Paired(before) && message.User? && Paired(added)
    ensures Paired(before + [message] + added)
  {
    assert [message][1..] == [] && Paired([message]);
    PairedConcat(before, [message]);
    PairedConcat(before + [message], added);
  }

  /** What a run leaves on file, whichever file operations fail. */
  function AfterRun(start: Opening, t: Turn, io: Storage): seq<Message> {
    var headed := WithContext(start.past, t.context);
    var before := if io.contextWritable && headed != start.past then headed else start.onFile;
    if !io.appendWritable then before
    else (if io.appendReadable then before else []) + [t.Kept()] + t.Added()
  }

  /** With every file operation succeeding, a run leaves the history that the prefix
      property is about, on top of what was on file or of what compaction made of it. */
  lemma RunStores(onFile: seq<Message>, stats: map<string, Stats>, nearlyFull: bool, user: string, t: Turn, io: Storage,
      c: Compaction)
    requires io.readable && io.rereadable && io.contextWritable && io.appendReadable && io.appendWritable
    ensures var start := Opened(onFile, stats, nearlyFull, user, io, c);
            start.past == start.onFile && AfterRun(start, t, io) == Stored(start.onFile, t)
    ensures onFile == [] || !nearlyFull ==> Opened(onFile, stats, nearlyFull, user, io, c).onFile == onFile
  {
  }

  // ---------------------------------------------------------------- the next prompt

  /** The session context stands in front of the file when the turn begins. */
  predicate ContextOnFile(start: Opening, t: Turn, io: Storage) {
    io.contextWritable || WithContext(start.past, t.context) == start.past
  }

  /** The next user says the same, and this turn added nothing. */
  predicate Repeats(t: Turn, u: Turn) { t.Added() == [] && u.content == t.content }

  /** When the next list extends this one, though the file was read as empty and now holds
      this turn alone: after a first turn, if the next context is the same or the turn's own
      message passes for one; or if what came before it is repeated. */
  predicate ExtendsAlone(past: seq<Message>, t: Turn, u: Turn) {
    var headed := StripAll(WithContext(past, t.context));
    if IsSessionContext(t.Kept()) then headed == [t.Said()] && Repeats(t, u)
    else headed == [Stripped(u.context)] || (headed == [Stripped(u.context), t.Said()] && Repeats(t, u))
  }

  /** When the next list extends this one, for every outcome of the turn's file operations. */
  predicate NextExtends(start: Opening, t: Turn, u: Turn, io: Storage) {
    if io.appendWritable && !io.appendReadable then ExtendsAlone(start.past, t, u)
    else if ContextOnFile(start, t, io) then io.appendWritable || Repeats(t, u)
    else if start.past != start.onFile then OldFileExtends(start.onFile, t, u, io.appendWritable)
    else if !io.appendWritable then Stripped(t.context) == Stripped(u.context) && Repeats(t, u)
    else if start.past == [] && IsSessionContext(t.Kept()) then Stripped(t.context) == t.Said() && Repeats(t, u)
    else Stripped(t.context) == Stripped(u.context)
  }

  /** The history was read as empty and nothing could be written over it.  Either the file
      already begins with this very context and turn; or, with its context in front, it is
      that context alone, and the turn was appended or is repeated. */
  predicate OldFileExtends(onFile: seq<Message>, t: Turn, u: Turn, appended: bool) {
    var front := StripAll(WithContext(onFile, u.context));
    || [Stripped(t.context), t.Said()] + t.Added() <= front
    || (front == [Stripped(t.context)] && (appended || Repeats(t, u)))
  }

  lemma AddedStartsWithReply(t: Turn)
    ensures t.Added() == [] || t.Added()[0].Assistant?
  {
    if t.maxRounds > 0 {
      Unfold(t, 0);
      var step := RoundStep(t.RoundAt(0), t.limited);
      assert step.GoOn? ==> step.messages != [] && step.messages[0].Assistant?;
    }
  }

  ghost predicate NoRequests(ms: seq<Message>) { forall m :: m in ms ==> !m.User? }

  lemma NoRequestInRound(r: Round, limited: string -> bool)
    ensures NoRequests(StepMessages(RoundStep(r, limited)))
  {
    if r.result.Some? {
      var batch := Batch(r.result.value, r.toolOutput);
      assert forall k :: 0 < k < |batch| ==> batch[k].ToolResult?;
    }
  }

  /** A turn adds replies and results, never a request. */
  lemma {:induction false} NoRequestAdded(t: Turn, n: nat)
    ensures NoRequests(Transcript(t, n).messages)
    decreases t.maxRounds - n
  {
    if n < t.maxRounds {
      Unfold(t, n);
      NoRequestInRound(t.RoundAt(n), t.limited);
      NoRequestAdded(t, n + 1);
    }
  }

  /** A turn of one request, behind the end of another list or of a part of itself. */
  lemma TurnBehind(front: seq<Message>, said: Message, added: seq<Message>, more: seq<Message>)
    requires said.User? && NoRequests(added) && 0 < |front| < |[said] + added|
    requires more != [] && more[0].User?
    ensures !([said] + added <= front + more)
  {
    var turn, at := [said] + added, |front|;
    assert turn[at] == added[at - 1] && added[at - 1] in added;
    assert (front + more)[at] == more[0];
  }

  /** A context and a turn of one request, against a file, the turn again if it was
      appended, and the next request. */
  lemma OldFileDecides(c: Message, said: Message, added: seq<Message>, front: seq<Message>, appended: bool,
                       next: Message)
    requires said.User? && NoRequests(added) && front != [] && next.User?
    ensures [c] + ([said] + added) <= front + (if appended then [said] + added else []) + [next] <==>
            || [c, said] + added <= front
            || (front == [c] && (appended || (added == [] && next == said)))
  {
    var turn := [said] + added;
    var more := (if appended then turn else []) + [next];
    var rest := front[1..];
    assert [c, said] + added == [c] + turn;
    assert front + (if appended then turn else []) + [next] == [front[0]] + (rest + more);
    assert front == [front[0]] + rest;
    if [c] + turn <= [front[0]] + (rest + more) {
      assert ([c] + turn)[0] == ([front[0]] + (rest + more))[0];
    }
    if front[0] == c {
      Cancel([c], turn, rest + more);
      Cancel([c], turn, rest);
      if 0 < |rest| < |turn| {
        TurnBehind(rest, said, added, more);
      } else if rest == [] {
        assert rest + more == more;
      } else {
        assert (rest + more)[..|turn|] == rest[..|turn|];
      }
    }
  }

  lemma Cancel<T>(p: seq<T>, x: seq<T>, y: seq<T>)
    ensures p + x <= p + y <==> x <= y
  {
    assert (p + x)[|p|..] == x && (p + y)[|p|..] == y;
    if p + x <= p + y {
      assert (p + y)[..|p + x|][|p|..] == y[..|x|];
    }
  }

  /** One message in front, the turn behind it, and the next request. */
  lemma AloneBehindContext(headed: seq<Message>, c: Message, said: Message, added: seq<Message>, next: Message)
    requires headed != [] && said.User? && (added == [] || added[0].Assistant?)
    ensures headed + ([said] + added) <= [c] + ([said] + added) + [next] <==>
            headed == [c] || (headed == [c, said] && added == [] && next == said)
  {
    var x, y := headed + ([said] + added), [c] + ([said] + added) + [next];
    if x <= y {
      assert x[0] == y[0] && headed[0] == c;
      if |headed| == 2 {
        assert x[1] == y[1] && x[2] == y[2];
      }
    }
    if headed == [c, said] && added == [] && next == said {
      assert x == y;
    }
  }

  /** The same with nothing in front. */
  lemma AloneInFront(headed: seq<Message>, said: Message, added: seq<Message>, next: Message)
    requires headed != [] && said.User? && (added == [] || added[0].Assistant?)
    ensures headed + ([said] + added) <= [said] + added + [next] <==> headed == [said] && added == [] && next == said
  {
    var x, y := headed + ([said] + added), [said] + added + [next];
    if x <= y {
      assert x[0] == y[0] && x[1] == y[1];
    }
    if headed == [said] && added == [] && next == said {
      assert x == y;
    }
  }

  /** What the next turn sends, and what this one held, without the two fixed messages. */
  lemma WithoutFixed(past: seq<Message>, file: seq<Message>, t: Turn, u: Turn)
    requires u.system == t.system && u.skills == t.skills
    ensures Held(past, t) <= Sent(file, u) <==>
            StripAll(WithContext(past, t.context)) + ([t.Said()] + t.Added())
              <= StripAll(WithContext(file, u.context)) + [u.Said()]
  {
    var fixed := [t.system, t.skills];
    var headed, next := StripAll(WithContext(past, t.context)), StripAll(WithContext(file, u.context));
    assert Held(past, t) == fixed + (headed + ([t.Said()] + t.Added()));
    assert Sent(file, u) == fixed + (next + [u.Said()]);
    Cancel(fixed, headed + ([t.Said()] + t.Added()), next + [u.Said()]);
  }

  lemma StripTurn(t: Turn)
    ensures StripAll([t.Kept()] + t.Added()) == [t.Said()] + t.Added()
  {
    TranscriptPaired(t, 0);
    StripConcat([t.Kept()], t.Added());
    StripNothing(t.Added());
    StripAt([t.Kept()]);
    assert StripAll([t.Kept()]) == [t.Said()];
  }

  lemma StripFront(c: Message, ms: seq<Message>)
    ensures StripAll([c] + ms) == [Stripped(c)] + StripAll(ms)
  {
    StripConcat([c], ms);
    StripAt([c]);
    assert StripAll([c]) == [Stripped(c)];
  }

  /** The file holds the turn alone. */
  lemma AloneExtends(past: seq<Message>, t: Turn, u: Turn)
    requires u.system == t.system && u.skills == t.skills
    ensures Held(past, t) <= Sent([t.Kept()] + t.Added(), u) <==> ExtendsAlone(past, t, u)
  {
    var file, headed := [t.Kept()] + t.Added(), StripAll(WithContext(past, t.context));
    WithoutFixed(past, file, t, u);
    AddedStartsWithReply(t);
    StripAt(WithContext(past, t.context));
    StripTurn(t);
    if IsSessionContext(t.Kept()) {
      AloneInFront(headed, t.Said(), t.Added(), u.Said());
    } else {
      StripFront(u.context, file);
      AloneBehindContext(headed, Stripped(u.context), t.Said(), t.Added(), u.Said());
    }
  }

  /** A context in front of what is on file, and the turn behind it, against the next context. */
  lemma ContextsDecide(past: seq<Message>, t: Turn, u: Turn)
    requires u.system == t.system && u.skills == t.skills
    requires past == [] || !IsSessionContext(past[0])
    requires past != [] || !IsSessionContext(t.Kept())
    ensures Held(past, t) <= Sent(past + ([t.Kept()] + t.Added()), u) <==> Stripped(t.context) == Stripped(u.context)
  {
    var turn, said := [t.Kept()] + t.Added(), [t.Said()] + t.Added();
    WithoutFixed(past, past + turn, t, u);
    StripFront(t.context, past);
    StripFront(u.context, past + turn);
    StripConcat(past, turn);
    StripTurn(t);
    SameBehind(Stripped(t.context), Stripped(u.context), StripAll(past), said, [u.Said()]);
  }

  /** No context was put on file, but the turn was. */
  lemma HeadlessExtends(past: seq<Message>, t: Turn, u: Turn)
    requires u.system == t.system && u.skills == t.skills
    requires past == [] || !IsSessionContext(past[0])
    ensures Held(past, t) <= Sent(past + ([t.Kept()] + t.Added()), u) <==>
            if past == [] && IsSessionContext(t.Kept()) then Stripped(t.context) == t.Said() && Repeats(t, u)
            else Stripped(t.context) == Stripped(u.context)
  {
    var turn := [t.Kept()] + t.Added();
    if past == [] && IsSessionContext(t.Kept()) {
      assert past + turn == turn;
      StripFront(t.context, past);
      assert [Stripped(t.context)] + StripAll(past) == [Stripped(t.context)];
      AloneExtends(past, t, u);
    } else {
      ContextsDecide(past, t, u);
    }
  }

  lemma SameBehind(c: Message, d: Message, ms: seq<Message>, turn: seq<Message>, more: seq<Message>)
    ensures [c] + ms + turn <= [d] + (ms + turn) + more <==> c == d
  {
    var x, y := [c] + ms + turn, [d] + (ms + turn) + more;
    assert x[0] == c && y[0] == d;
    if c == d {
      assert x == y[..|x|];
    }
  }

  lemma RequestsBehind(c: Message, d: Message, ms: seq<Message>, said: Message, added: seq<Message>, next: Message)
    ensures [c] + ms + ([said] + added) <= [d] + ms + [next] <==> c == d && added == [] && said == next
  {
    var x, y := [c] + ms + ([said] + added), [d] + ms + [next];
    assert x[0] == c && y[0] == d && x[|ms| + 1] == said && y[|ms| + 1] == next;
    if c == d && added == [] && said == next {
      assert x == y;
    }
  }

  /** Neither the context nor the turn was put on file. */
  lemma NothingWritten(past: seq<Message>, t: Turn, u: Turn)
    requires u.system == t.system && u.skills == t.skills
    requires past == [] || !IsSessionContext(past[0])
    ensures Held(past, t) <= Sent(past, u) <==> Stripped(t.context) == Stripped(u.context) && Repeats(t, u)
  {
    WithoutFixed(past, past, t, u);
    StripFront(t.context, past);
    StripFront(u.context, past);
    RequestsBehind(Stripped(t.context), Stripped(u.context), StripAll(past), t.Said(), t.Added(), u.Said());
  }

  /** The file could not be read, nor the context saved over it. */
  lemma UnreadExtends(onFile: seq<Message>, t: Turn, u: Turn, appended: bool)
    requires u.system == t.system && u.skills == t.skills && onFile != []
    ensures Held([], t) <= Sent(onFile + (if appended then [t.Kept()] + t.Added() else []), u) <==>
            OldFileExtends(onFile, t, u, appended)
  {
    var more := if appended then [t.Kept()] + t.Added() else [];
    WithoutFixed([], onFile + more, t, u);
    StripFront(t.context, []);
    StripTurn(t);
    ContextBefore(onFile, more, u.context);
    StripConcat(WithContext(onFile, u.context), more);
    assert [t.context] + [] == [t.context] && [Stripped(t.context)] + [] == [Stripped(t.context)];
    StripAt(WithContext(onFile, u.context));
    NoRequestAdded(t, 0);
    OldFileDecides(Stripped(t.context), t.Said(), t.Added(), StripAll(WithContext(onFile, u.context)), appended,
        u.Said());
  }

  lemma ContextBefore(file: seq<Message>, more: seq<Message>, context: Message)
    requires file != []
    ensures WithContext(file + more, context) == WithContext(file, context) + more
  {
    assert (file + more)[0] == file[0];
    if !IsSessionContext(file[0]) {
      assert [context] + (file + more) == [context] + file + more;
    }
  }

  /** After a turn with any of its file operations failing, the next list extends this one
      exactly as `NextExtends` says. */
  lemma NextPromptExtends(start: Opening, t: Turn, u: Turn, io: Storage)
    requires IsSessionContext(t.context) && u.system == t.system && u.skills == t.skills
    requires start.past == start.onFile || start.past == []
    ensures Held(start.past, t) <= Sent(AfterRun(start, t, io), u) <==> NextExtends(start, t, u, io)
  {
    var past, turn := start.past, [t.Kept()] + t.Added();
    var headed := WithContext(past, t.context);
    if io.appendWritable && !io.appendReadable {
      assert AfterRun(start, t, io) == turn;
      AloneExtends(past, t, u);
    } else if ContextOnFile(start, t, io) {
      assert headed == past ==> start.onFile == past;
      if io.appendWritable {
        assert AfterRun(start, t, io) == Stored(past, t);
        NextTurnPrefix(past, t, u);
      } else {
        assert AfterRun(start, t, io) == headed;
        LostAppend(past, t, u);
      }
    } else if past != start.onFile {
      assert AfterRun(start, t, io) == start.onFile + if io.appendWritable then turn else [];
      UnreadExtends(start.onFile, t, u, io.appendWritable);
    } else if io.appendWritable {
      assert AfterRun(start, t, io) == past + turn;
      HeadlessExtends(past, t, u);
    } else {
      assert AfterRun(start, t, io) == past;
      NothingWritten(past, t, u);
    }
  }
}
