/** A turn, round by round: what each round adds, which round is the last, and how the turn
    ends, told from what the model and the tools returned. */
module TurnRounds {
  import opened Text
  import opened Messages
  import opened AgentTurn

  /** The call went through and nobody cancelled. */
  predicate Answered(r: Round) {
    !r.cancelledBefore && !r.cancelledDuring && !r.cancelledAfter && r.result.Some?
  }

  function CallsOf(r: Round): seq<ToolCall> { if r.result.Some? then r.result.value.toolCalls else [] }

  /** Some web search of the round was turned away. */
  predicate TurnedAway(r: Round, limited: string -> bool) {
    exists k :: 0 <= k < |CallsOf(r)| && CallsOf(r)[k].name == "web_search" && limited(r.toolOutput(k))
  }

  /** Another round follows. */
  predicate GoesOn(r: Round, limited: string -> bool) {
    Answered(r) && CallsOf(r) != [] && !TurnedAway(r, limited)
  }

  /** The turn gets as far as round `n`. */
  predicate Reached(t: Turn, n: nat) { forall m: nat :: m < n ==> GoesOnAt(t, m) }

  predicate GoesOnAt(t: Turn, n: nat) { GoesOn(t.rounds(n), t.limited) }

  /** How many messages the first `n` rounds add: a reply and a result for each call. */
  function Offset(t: Turn, n: nat): nat {
    if n == 0 then 0 else Offset(t, n - 1) + 1 + |CallsOf(t.rounds(n - 1))|
  }

  /** From position `at` stand the reply of a round and, in order, the result of each call. */
  ghost predicate RoundStands(ms: seq<Message>, at: nat, r: Round)
    requires r.result.Some?
  {
    var c := r.result.value;
    && at + |c.toolCalls| < |ms|
    && ms[at] == Assistant(c.content, c.toolCalls)
    && forall k: nat :: k < |c.toolCalls| ==> ms[at + 1 + k] == ToolResult(c.toolCalls[k].id, r.toolOutput(k))
  }

  /** Every answered round of the turn stands where it should, behind the first `from` messages. */
  ghost predicate RoundsStand(ms: seq<Message>, from: nat, t: Turn) {
    forall n: nat :: n < t.maxRounds && Reached(t, n) ==> RoundStandsIn(ms, from, t, n)
  }

  ghost predicate RoundStandsIn(ms: seq<Message>, from: nat, t: Turn, n: nat) {
    Answered(t.rounds(n)) ==> RoundStands(ms, from + Offset(t, n), t.rounds(n))
  }

  /** How a turn ends that stops in round `r`. */
  ghost predicate EndsIn(exit: Exit, r: Round, limited: string -> bool) {
    if r.cancelledBefore || r.cancelledDuring || r.cancelledAfter then exit == Cancelled
    else if r.result.None? then exit == ModelError
    else if r.result.value.toolCalls == [] then
      exit == Answer(if r.result.value.content.Some? then r.result.value.content.value else "")
    else exit == RateLimited
  }

  predicate UsedBy(u: Usage, t: Turn, n: nat) {
    t.rounds(n).result.Some? && u == t.rounds(n).result.value.usage
  }

  /** What the rounds of a turn come to when it stops in round `n`, or at the bound `n`. */
  ghost predicate StopsAt(o: Outcome, t: Turn, n: nat) {
    && n <= t.maxRounds && Reached(t, n)
    && (n < t.maxRounds ==> !GoesOn(t.rounds(n), t.limited) && EndsIn(o.exit, t.rounds(n), t.limited))
    && (n == t.maxRounds ==> o.exit == OutOfRounds)
    && var answered := if n < t.maxRounds && Answered(t.rounds(n)) then n + 1 else n;
       && |o.messages| == Offset(t, answered) && |o.usages| == answered
       && (forall m: nat :: m < answered ==> UsedBy(o.usages[m], t, m))
       && o.calls == n + if n < t.maxRounds && !t.rounds(n).cancelledBefore then 1 else 0
  }

  // ---------------------------------------------------------------- the list sent

  /** A session context is a plain text that begins with its header. */
  lemma SessionContextIs(content: Content, discord: Option<DiscordContext>)
    ensures IsSessionContext(User(content, discord)) <==>
            content.Plain? && exists rest ::
              content.text == "[Session context: a snapshot taken when this session started. " +
                "Memory changes made later in the conversation replace it.]" + rest
  {
    if content.Plain? && StartsWith(content.text, SESSION_CONTEXT_HEADER) {
      assert content.text == SESSION_CONTEXT_HEADER + content.text[|SESSION_CONTEXT_HEADER|..];
    }
  }

  /** The message without what only history keeps. */
  predicate AsSeen(m: Message, seen: Message) {
    if m.User? then seen == User(m.content, None) else seen == m
  }

  /** The list sent is the system prompt, the skills, the session context if the history has
      none in front, each message of the history, and the new request. */
  ghost predicate SendsHistory(sent: seq<Message>, past: seq<Message>, t: Turn) {
    var more := if past != [] && IsSessionContext(past[0]) then 0 else 1;
    && |sent| == |past| + more + 3
    && sent[0] == t.system && sent[1] == t.skills && sent[|sent| - 1] == User(t.content, None)
    && (more == 1 ==> AsSeen(t.context, sent[2]))
    && forall i: nat :: i < |past| ==> AsSeen(past[i], sent[2 + more + i])
  }

  lemma SeenAt(sent: seq<Message>, front: seq<Message>, headed: seq<Message>, last: Message, i: nat)
    requires |front| == 2 && i < |headed| && sent == front + StripAll(headed) + [last]
    ensures |sent| == |headed| + 3 && AsSeen(headed[i], sent[2 + i])
  {
    StripAt(headed);
    Inside(front, StripAll(headed), [last]);
    assert sent[2 + i] == StripAll(headed)[i];
  }

  lemma SentIsSeen(past: seq<Message>, t: Turn)
    ensures SendsHistory(Sent(past, t), past, t)
  {
    var headed, front := WithContext(past, t.context), [t.system, t.skills];
    var sent, more := Sent(past, t), |headed| - |past|;
    StripAt(headed);
    forall i: nat | i < |past| ensures AsSeen(past[i], sent[2 + more + i]) {
      assert past[i] == headed[more + i];
      SeenAt(sent, front, headed, t.Said(), more + i);
    }
    if more == 1 {
      SeenAt(sent, front, headed, t.Said(), 0);
    }
  }

  // ---------------------------------------------------------------- one round

  lemma BatchIs(r: Round)
    requires r.result.Some?
    ensures var c, batch := r.result.value, Batch(r.result.value, r.toolOutput);
            && |batch| == 1 + |c.toolCalls| && batch[0] == Assistant(c.content, c.toolCalls)
            && forall k: nat :: k < |c.toolCalls| ==> batch[1 + k] == ToolResult(c.toolCalls[k].id, r.toolOutput(k))
  {
    var c, batch := r.result.value, Batch(r.result.value, r.toolOutput);
    var results := Results(c.toolCalls, r.toolOutput);
    Behind(Assistant(c.content, c.toolCalls), results);
    forall k: nat | k < |c.toolCalls|
      ensures batch[1 + k] == ToolResult(c.toolCalls[k].id, r.toolOutput(k)) {
      assert batch[1 + k] == results[k];
    }
  }

  lemma Behind<T>(x: T, s: seq<T>)
    ensures forall k: nat :: k < |s| ==> ([x] + s)[1 + k] == s[k]
  {
  }

  lemma Inside<T>(before: seq<T>, part: seq<T>, after: seq<T>)
    ensures forall k: nat :: k < |part| ==> (before + part + after)[|before| + k] == part[k]
  {
  }

  lemma BatchStands(before: seq<Message>, r: Round, after: seq<Message>)
    requires r.result.Some?
    ensures |Batch(r.result.value, r.toolOutput)| == 1 + |CallsOf(r)|
    ensures RoundStands(before + Batch(r.result.value, r.toolOutput) + after, |before|, r)
  {
    var c, batch := r.result.value, Batch(r.result.value, r.toolOutput);
    var all := before + batch + after;
    BatchIs(r);
    Inside(before, batch, after);
    assert all[|before|] == all[|before| + 0];
    forall k: nat | k < |c.toolCalls|
      ensures all[|before| + 1 + k] == ToolResult(c.toolCalls[k].id, r.toolOutput(k)) {
      assert all[|before| + (1 + k)] == batch[1 + k];
    }
  }

  lemma StepIs(r: Round, limited: string -> bool)
    ensures var step := RoundStep(r, limited);
            && (step.GoOn? <==> GoesOn(r, limited))
            && StepMessages(step) == (if Answered(r) then Batch(r.result.value, r.toolOutput) else [])
            && (step.GoOn? ==> step.usage == r.result.value.usage)
            && (step.Stop? ==>
                  && EndsIn(step.outcome.exit, r, limited)
                  && step.outcome.usages == (if Answered(r) then [r.result.value.usage] else [])
                  && step.outcome.calls == if r.cancelledBefore then 0 else 1)
  {
  }

  // ---------------------------------------------------------------- the rounds before some round

  /** What the first `n` rounds add, while each goes on. */
  function SoFar(t: Turn, n: nat): seq<Message>
    requires Reached(t, n)
  {
    if n == 0 then []
    else
      var r := t.rounds(n - 1);
      assert GoesOnAt(t, n - 1);
      SoFar(t, n - 1) + Batch(r.result.value, r.toolOutput)
  }

  function UsageSoFar(t: Turn, n: nat): seq<Usage>
    requires Reached(t, n)
  {
    if n == 0 then []
    else
      assert GoesOnAt(t, n - 1);
      UsageSoFar(t, n - 1) + [t.rounds(n - 1).result.value.usage]
  }

  lemma {:induction false} SoFarIs(t: Turn, n: nat)
    requires Reached(t, n)
    ensures |SoFar(t, n)| == Offset(t, n) && |UsageSoFar(t, n)| == n
    ensures forall m: nat :: m < n ==> UsedBy(UsageSoFar(t, n)[m], t, m)
  {
    if n > 0 {
      SoFarIs(t, n - 1);
      assert GoesOnAt(t, n - 1);
      BatchStands([], t.rounds(n - 1), []);
    }
  }

  /** A round that goes on, in front of the rest of the turn. */
  lemma OneGoneOn(t: Turn, n: nat)
    requires n < t.maxRounds && GoesOn(t.rounds(n), t.limited)
    ensures var r, here, rest := t.rounds(n), Transcript(t, n), Transcript(t, n + 1);
            && here.messages == Batch(r.result.value, r.toolOutput) + rest.messages
            && here.usages == [r.result.value.usage] + rest.usages
            && here.exit == rest.exit && here.calls == 1 + rest.calls
  {
    StepIs(t.rounds(n), t.limited);
    Unfold(t, n);
  }

  lemma SoFarNext(t: Turn, n: nat)
    requires Reached(t, n + 1)
    ensures Reached(t, n) && GoesOn(t.rounds(n), t.limited)
    ensures SoFar(t, n + 1) == SoFar(t, n) + Batch(t.rounds(n).result.value, t.rounds(n).toolOutput)
    ensures UsageSoFar(t, n + 1) == UsageSoFar(t, n) + [t.rounds(n).result.value.usage]
  {
    assert GoesOnAt(t, n);
  }

  /** The turn is what the first `n` rounds come to, and the turn from there on. */
  ghost predicate Continues(t: Turn, n: nat)
    requires Reached(t, n)
  {
    var whole, rest := Transcript(t, 0), Transcript(t, n);
    && whole.messages == SoFar(t, n) + rest.messages && whole.usages == UsageSoFar(t, n) + rest.usages
    && whole.exit == rest.exit && whole.calls == n + rest.calls
  }

  lemma ContinuesNext(t: Turn, n: nat)
    requires 0 < n <= t.maxRounds && Reached(t, n) && Reached(t, n - 1) && Continues(t, n - 1)
    ensures Continues(t, n)
  {
    SoFarNext(t, n - 1);
    OneGoneOn(t, n - 1);
    var r, rest := t.rounds(n - 1), Transcript(t, n);
    Regroup(SoFar(t, n - 1), Batch(r.result.value, r.toolOutput), rest.messages);
    Regroup(UsageSoFar(t, n - 1), [r.result.value.usage], rest.usages);
  }

  lemma {:induction false} GoneOn(t: Turn, n: nat)
    requires Reached(t, n) && n <= t.maxRounds
    ensures Continues(t, n)
  {
    if n > 0 {
      ReachedBefore(t, n);
      GoneOn(t, n - 1);
      ContinuesNext(t, n);
    } else {
      ContinuesFirst(t);
    }
  }

  lemma ReachedBefore(t: Turn, n: nat)
    requires n > 0 && Reached(t, n)
    ensures Reached(t, n - 1)
  {
  }

  lemma ContinuesFirst(t: Turn)
    ensures Continues(t, 0)
  {
    var whole := Transcript(t, 0);
    assert [] + whole.messages == whole.messages && [] + whole.usages == whole.usages;
  }

  lemma Regroup<T>(a: seq<T>, b: seq<T>, c: seq<T>)
    ensures a + (b + c) == a + b + c
  {
  }

  // ---------------------------------------------------------------- the whole turn

  /** What a round that is reached adds, in the turn it is part of. */
  lemma RoundInTurn(t: Turn, n: nat)
    requires n < t.maxRounds && Reached(t, n) && Answered(t.rounds(n))
    ensures RoundStands(t.Added(), Offset(t, n), t.rounds(n))
  {
    var r := t.rounds(n);
    var step, batch := RoundStep(r, t.limited), Batch(r.result.value, r.toolOutput);
    var tail := if step.Stop? then [] else Transcript(t, n + 1).messages;
    StepIs(r, t.limited);
    GoneOn(t, n);
    SoFarIs(t, n);
    Unfold(t, n);
    assert Transcript(t, n).messages == batch + tail;
    BatchStands(SoFar(t, n), r, tail);
    Regroup(SoFar(t, n), batch, tail);
  }

  lemma StandsBehind(before: seq<Message>, ms: seq<Message>, at: nat, r: Round)
    requires r.result.Some? && RoundStands(ms, at, r)
    ensures RoundStands(before + ms, |before| + at, r)
  {
    var all, c := before + ms, r.result.value;
    assert all[|before| + at] == ms[at];
    forall k: nat | k < |c.toolCalls|
      ensures all[|before| + at + 1 + k] == ToolResult(c.toolCalls[k].id, r.toolOutput(k)) {
      assert all[|before| + at + 1 + k] == ms[at + 1 + k];
    }
  }

  lemma OneRoundStands(before: seq<Message>, t: Turn, n: nat)
    requires n < t.maxRounds && Reached(t, n)
    ensures RoundStandsIn(before + t.Added(), |before|, t, n)
  {
    if Answered(t.rounds(n)) {
      RoundInTurn(t, n);
      StandsBehind(before, t.Added(), Offset(t, n), t.rounds(n));
    }
  }

  /** On every exit: behind whatever came before the turn, the reply of each answered round
      carries that round's content and calls, and each call is followed by its own output. */
  lemma EveryRoundStands(before: seq<Message>, ms: seq<Message>, t: Turn)
    requires ms == before + t.Added()
    ensures RoundsStand(ms, |before|, t)
  {
    forall n: nat | n < t.maxRounds && Reached(t, n) ensures RoundStandsIn(ms, |before|, t, n) {
      OneRoundStands(before, t, n);
    }
  }

  /** A history that ends with the turn: the request with its metadata, and the rounds. */
  ghost predicate StoresTurn(ms: seq<Message>, t: Turn) {
    var from := |ms| - |t.Added()|;
    from > 0 && ms[from - 1] == User(t.content, Some(t.discord)) && RoundsStand(ms, from, t)
  }

  lemma TurnStored(ms: seq<Message>, before: seq<Message>, t: Turn)
    requires ms == before + [t.Kept()] + t.Added()
    ensures StoresTurn(ms, t)
  {
    EveryRoundStands(before + [t.Kept()], ms, t);
  }

  lemma {:induction false} LastRound(t: Turn, from: nat) returns (n: nat)
    requires from <= t.maxRounds && Reached(t, from)
    ensures n <= t.maxRounds && Reached(t, n) && (n < t.maxRounds ==> !GoesOn(t.rounds(n), t.limited))
    decreases t.maxRounds - from
  {
    n := from;
    if from < t.maxRounds && GoesOn(t.rounds(from), t.limited) {
      n := LastRound(t, from + 1);
    }
  }

  /** The round in which a turn stops. */
  lemma OnlyRound(t: Turn, n: nat)
    requires n < t.maxRounds && !GoesOn(t.rounds(n), t.limited)
    ensures var r, here := t.rounds(n), Transcript(t, n);
            && |here.messages| == (if Answered(r) then 1 + |CallsOf(r)| else 0)
            && here.usages == (if Answered(r) then [r.result.value.usage] else [])
            && here.calls == (if r.cancelledBefore then 0 else 1) && EndsIn(here.exit, r, t.limited)
  {
    var r := t.rounds(n);
    StepIs(r, t.limited);
    Unfold(t, n);
    if Answered(r) {
      BatchStands([], r, []);
    }
  }

  lemma UsagesUpTo(t: Turn, n: nat, usages: seq<Usage>, u: Usage)
    requires |usages| == n && (forall m: nat :: m < n ==> UsedBy(usages[m], t, m)) && UsedBy(u, t, n)
    ensures forall m: nat :: m < n + 1 ==> UsedBy((usages + [u])[m], t, m)
  {
  }

  lemma StopsInRound(t: Turn, n: nat)
    requires n < t.maxRounds && Reached(t, n) && !GoesOn(t.rounds(n), t.limited)
    ensures StopsAt(Transcript(t, 0), t, n)
  {
    GoneOn(t, n);
    SoFarIs(t, n);
    OnlyRound(t, n);
    if Answered(t.rounds(n)) {
      UsagesUpTo(t, n, UsageSoFar(t, n), t.rounds(n).result.value.usage);
      assert Offset(t, n + 1) == Offset(t, n) + 1 + |CallsOf(t.rounds(n))|;
    } else {
      assert UsageSoFar(t, n) + [] == UsageSoFar(t, n);
    }
  }

  lemma StopsAtBound(t: Turn)
    requires Reached(t, t.maxRounds)
    ensures StopsAt(Transcript(t, 0), t, t.maxRounds)
  {
    GoneOn(t, t.maxRounds);
    SoFarIs(t, t.maxRounds);
  }

  /** A turn stops in the first round that does not go on, or at the bound; its exit, its
      messages, its usages and its calls of the model are those of its rounds and no others. */
  lemma TurnStops(t: Turn) returns (n: nat)
    ensures StopsAt(Transcript(t, 0), t, n)
  {
    n := LastRound(t, 0);
    if n < t.maxRounds {
      StopsInRound(t, n);
    } else {
      StopsAtBound(t);
    }
  }
}
