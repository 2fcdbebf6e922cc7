/** The in-memory message buffer of every channel, against the full log it stands for. */
module ChannelBuffer {
  import opened Text

  datatype Message = Message(at: int, user: string, username: string, nick: Option<string>, content: string)

  ghost predicate Chronological(s: seq<Message>) {
    forall i, j :: 0 <= i < j < |s| ==> s[i].at <= s[j].at
  }

  function LastK<T>(s: seq<T>, k: nat): seq<T> {
    if |s| <= k then s else s[|s| - k..]
  }

  /** The last `k` of a sequence, or with `k` zero all of it. */
  function LastOrAll<T>(s: seq<T>, k: nat): seq<T> {
    if k == 0 then s else LastK(s, k)
  }

  /** Pushing onto a queue of at most `k`, which drops its oldest when it is full. */
  lemma LastOrAllSnoc<T>(s: seq<T>, x: T, k: nat)
    ensures var kept := LastOrAll(s, k);
            LastOrAll(s + [x], k) == (if |kept| == k && kept != [] then kept[1..] else kept) + [x]
  {
  }

  /** The messages no older than `cutoff`. */
  function Since(s: seq<Message>, cutoff: int): seq<Message> {
    if s == [] then []
    else if s[0].at >= cutoff then [s[0]] + Since(s[1..], cutoff)
    else Since(s[1..], cutoff)
  }

  /** What a buffer of the log should hold: of the last `capacity` messages, those inside the window. */
  function Window(log: seq<Message>, capacity: nat, cutoff: int): seq<Message> {
    Since(LastK(log, capacity), cutoff)
  }

  function Matching(s: seq<Message>, f: Message -> bool): seq<Message> {
    if s == [] then [] else Matching(s[..|s| - 1], f) + if f(s[|s| - 1]) then [s[|s| - 1]] else []
  }

  /** `part` keeps the order of `whole` and leaves messages out. */
  ghost predicate Subsequence(part: seq<Message>, whole: seq<Message>) {
    if part == [] then true
    else if whole == [] then false
    else if part[|part| - 1] == whole[|whole| - 1] then Subsequence(part[..|part| - 1], whole[..|whole| - 1])
    else Subsequence(part, whole[..|whole| - 1])
  }

  lemma {:induction false} SinceIsSuffix(s: seq<Message>, cutoff: int) returns (k: nat)
    requires Chronological(s)
    ensures k <= |s| && Since(s, cutoff) == s[k..]
    ensures forall i :: 0 <= i < |s| ==> (s[i].at >= cutoff <==> k <= i)
  {
    if s == [] {
      k := 0;
    } else {
      var k' := SinceIsSuffix(s[1..], cutoff);
      assert forall i :: 0 < i < |s| ==> s[i] == s[1..][i - 1];
      if s[0].at >= cutoff {
        k := 0;
        assert s[1..] != [] ==> s[1..][0].at >= cutoff;
        assert [s[0]] + s[1..] == s;
      } else {
        k := k' + 1;
      }
    }
  }

  lemma {:induction false} SinceTwice(s: seq<Message>, a: int, b: int)
    ensures Since(Since(s, a), b) == Since(s, if a > b then a else b)
  {
    if s != [] {
      SinceTwice(s[1..], a, b);
      if s[0].at >= a {
        assert ([s[0]] + Since(s[1..], a))[1..] == Since(s[1..], a);
      }
    }
  }

  lemma {:induction false} SinceAppend(s: seq<Message>, m: Message, cutoff: int)
    requires m.at >= cutoff
    ensures Since(s + [m], cutoff) == Since(s, cutoff) + [m]
  {
    if s == [] {
      assert s + [m] == [m];
    } else {
      SinceAppend(s[1..], m, cutoff);
      assert (s + [m])[1..] == s[1..] + [m];
    }
  }

  lemma LastKChronological(s: seq<Message>, k: nat)
    requires Chronological(s)
    ensures Chronological(LastK(s, k))
  {
  }

  /** Making room for one message leaves what the last `capacity - 1` messages leave. */
  lemma MakeRoom(log: seq<Message>, capacity: nat, cutoff: int)
    requires Chronological(log) && capacity >= 1
    ensures var held := Window(log, capacity, cutoff);
            |held| <= capacity
            && (if |held| >= capacity then held[1..] else held) == Window(log, capacity - 1, cutoff)
  {
    var last := LastK(log, capacity);
    LastKChronological(log, capacity);
    var k := SinceIsSuffix(last, cutoff);
    if |log| >= capacity {
      assert last[1..] == LastK(log, capacity - 1);
      LastKChronological(log, capacity - 1);
      var k' := SinceIsSuffix(last[1..], cutoff);
      assert last[0].at < cutoff ==> Since(last, cutoff) == Since(last[1..], cutoff);
    }
  }

  lemma AppendKeepsWindow(log: seq<Message>, m: Message, capacity: nat, cutoff: int)
    requires Chronological(log) && capacity >= 1 && m.at >= cutoff
    ensures var held := Window(log, capacity, cutoff);
            Window(log + [m], capacity, cutoff) == (if |held| >= capacity then held[1..] else held) + [m]
  {
    MakeRoom(log, capacity, cutoff);
    SinceAppend(LastK(log, capacity - 1), m, cutoff);
    assert LastK(log + [m], capacity) == LastK(log, capacity - 1) + [m];
  }

  // ---------------------------------------------------------------- subsequences

  lemma SubsequenceSnoc(part: seq<Message>, whole: seq<Message>, m: Message)
    requires Subsequence(part, whole)
    ensures Subsequence(part + [m], whole + [m])
  {
    assert (part + [m])[..|part|] == part && (whole + [m])[..|whole|] == whole;
  }

  /** Leaving more out still leaves a subsequence, and one that ends earlier matches earlier. */
  lemma {:induction false} SubsequenceInit(part: seq<Message>, whole: seq<Message>)
    requires Subsequence(part, whole) && part != []
    ensures Subsequence(part[..|part| - 1], whole)
    decreases |whole|, 0
  {
    var w := whole[..|whole| - 1];
    if part[|part| - 1] == whole[|whole| - 1] {
      SubsequenceGrow(part[..|part| - 1], w, whole[|whole| - 1]);
      assert w + [whole[|whole| - 1]] == whole;
    } else {
      SubsequenceInit(part, w);
      SubsequenceGrow(part[..|part| - 1], w, whole[|whole| - 1]);
      assert w + [whole[|whole| - 1]] == whole;
    }
  }

  lemma {:induction false} SubsequenceGrow(part: seq<Message>, whole: seq<Message>, m: Message)
    requires Subsequence(part, whole)
    ensures Subsequence(part, whole + [m])
    decreases |whole|, 1
  {
    assert (whole + [m])[..|whole|] == whole;
    if part != [] && part[|part| - 1] == m {
      SubsequenceInit(part, whole);
    }
  }

  lemma {:induction false} SubsequenceDrop(part: seq<Message>, whole: seq<Message>, k: nat)
    requires Subsequence(part, whole) && k <= |part|
    ensures Subsequence(part[k..], whole)
    decreases |whole|
  {
    if k < |part| {
      var p := part[k..];
      assert p[|p| - 1] == part[|part| - 1];
      if part[|part| - 1] == whole[|whole| - 1] {
        SubsequenceDrop(part[..|part| - 1], whole[..|whole| - 1], k);
        assert p[..|p| - 1] == part[..|part| - 1][k..];
      } else {
        SubsequenceDrop(part, whole[..|whole| - 1], k);
      }
    }
  }

  lemma {:induction false} SubsequenceMatching(part: seq<Message>, whole: seq<Message>, f: Message -> bool)
    requires Subsequence(part, whole)
    ensures Subsequence(Matching(part, f), whole)
    decreases |whole|
  {
    if part != [] {
      var w, m := whole[..|whole| - 1], whole[|whole| - 1];
      assert w + [m] == whole;
      if part[|part| - 1] == m {
        SubsequenceMatching(part[..|part| - 1], w, f);
        SubsequenceSnoc(Matching(part[..|part| - 1], f), w, m);
        SubsequenceGrow(Matching(part[..|part| - 1], f), w, m);
        assert Matching(part[..|part| - 1], f) + [] == Matching(part[..|part| - 1], f);
      } else {
        SubsequenceMatching(part, w, f);
        SubsequenceGrow(Matching(part, f), w, m);
      }
    }
  }

  lemma {:induction false} SubsequenceChronological(part: seq<Message>, whole: seq<Message>)
    requires Subsequence(part, whole) && Chronological(whole)
    ensures Chronological(part) && forall m :: m in part ==> m in whole
    decreases |whole|
  {
    if part != [] {
      var w, m := whole[..|whole| - 1], whole[|whole| - 1];
      if part[|part| - 1] == m {
        SubsequenceChronological(part[..|part| - 1], w);
        assert part == part[..|part| - 1] + [m];
        forall i, j | 0 <= i < j < |part| ensures part[i].at <= part[j].at {
          assert part[i] in part[..|part| - 1];
        }
      } else {
        SubsequenceChronological(part, w);
      }
    }
  }
}

module ChannelStore {
  import opened Text
  import opened ChannelBuffer

  datatype Found = Found(messages: seq<Message>) | InvalidRegex

  predicate Hit(isMatch: string -> bool, m: Message) {
    isMatch(m.content) || isMatch(m.username) || (m.nick.Some? && isMatch(m.nick.value))
  }

  /** How a buffer relates to all that was ever said in its channel. */
  ghost predicate Stands(buffer: seq<Message>, log: seq<Message>, capacity: nat, cutoff: int, intact: bool) {
    && Chronological(log)
    && |buffer| <= capacity && Subsequence(buffer, log)
    && (intact ==> buffer == Window(log, capacity, cutoff))
  }

  lemma ExpireStands(buffer: seq<Message>, log: seq<Message>, capacity: nat, cutoff: int, intact: bool, now: int)
    requires Stands(buffer, log, capacity, cutoff, intact)
    ensures Chronological(buffer)
    ensures Stands(Since(buffer, now), log, capacity, if cutoff > now then cutoff else now, intact)
  {
    SubsequenceChronological(buffer, log);
    var k := SinceIsSuffix(buffer, now);
    SubsequenceDrop(buffer, log, k);
    SinceTwice(LastK(log, capacity), cutoff, now);
  }

  lemma ChronologicalAppend(log: seq<Message>, m: Message)
    requires Chronological(log) && forall x :: x in log ==> x.at <= m.at
    ensures Chronological(log + [m])
  {
    forall i, j | 0 <= i < j < |log + [m]| ensures (log + [m])[i].at <= (log + [m])[j].at {
      assert log[i] in log;
    }
  }

  lemma AppendStands(buffer: seq<Message>, log: seq<Message>, capacity: nat, cutoff: int, intact: bool, m: Message)
    requires Stands(buffer, log, capacity, cutoff, intact) && capacity >= 1 && m.at >= cutoff
    requires forall x :: x in log ==> x.at <= m.at
    ensures Stands((if |buffer| >= capacity then buffer[1..] else buffer) + [m], log + [m], capacity, cutoff, intact)
  {
    var kept := if |buffer| >= capacity then buffer[1..] else buffer;
    ChronologicalAppend(log, m);
    SubsequenceDrop(buffer, log, |buffer| - |kept|);
    assert buffer[|buffer| - |kept|..] == kept;
    SubsequenceSnoc(kept, log, m);
    AppendKeepsWindow(log, m, capacity, cutoff);
  }

  ghost predicate ChannelOk(buffer: seq<Message>, log: seq<Message>, capacity: nat, cutoff: int,
                            intact: bool, clock: int)
  {
    && Stands(buffer, log, capacity, cutoff, intact)
    && cutoff <= clock
    && forall m :: m in log ==> m.at <= clock
  }

  lemma ChannelPushed(buffer: seq<Message>, log: seq<Message>, capacity: nat, cutoff: int, intact: bool, clock: int,
                      m: Message)
    requires ChannelOk(buffer, log, capacity, cutoff, intact, clock) && capacity >= 1 && clock <= m.at
    ensures ChannelOk((if |buffer| >= capacity then buffer[1..] else buffer) + [m], log + [m], capacity, cutoff, intact,
                m.at)
  {
    AppendStands(buffer, log, capacity, cutoff, intact, m);
  }

  ghost predicate StoreOk(channels: map<int, seq<Message>>, logs: map<int, seq<Message>>, cutoffs: map<int, int>,
                          capacity: nat, intact: bool, clock: int) {
    && channels.Keys == logs.Keys == cutoffs.Keys
    && forall c :: c in channels ==> ChannelOk(channels[c], logs[c], capacity, cutoffs[c], intact, clock)
  }

  /** One channel changes, time goes on, and the rest of the store stays as it should be. */
  lemma SetChannel(channels: map<int, seq<Message>>, logs: map<int, seq<Message>>, cutoffs: map<int, int>,
                   capacity: nat, intact: bool, clock: int, clock': int,
                   c: int, buffer: seq<Message>, log: seq<Message>, cutoff: int)
    requires StoreOk(channels, logs, cutoffs, capacity, intact, clock) && clock <= clock'
    requires ChannelOk(buffer, log, capacity, cutoff, intact, clock')
    ensures StoreOk(channels[c := buffer], logs[c := log], cutoffs[c := cutoff], capacity, intact, clock')
  {
    forall d | d in channels && d != c ensures ChannelOk(channels[d], logs[d], capacity, cutoffs[d], intact, clock') {
      assert ChannelOk(channels[d], logs[d], capacity, cutoffs[d], intact, clock);
    }
  }

  lemma PutPut<V>(m: map<int, V>, c: int, x: V, y: V)
    ensures m[c := x][c := y] == m[c := y]
  {
  }

  /** `kept` is what is left of a buffer when everything older than `cutoff` is dropped. */
  ghost predicate KeptSince(kept: seq<Message>, before: seq<Message>, cutoff: int) {
    exists k: nat :: CutAt(before, k, cutoff) && kept == before[k..]
  }

  ghost predicate CutAt(before: seq<Message>, k: nat, cutoff: int) {
    k <= |before| && forall i :: 0 <= i < |before| ==> (before[i].at >= cutoff <==> k <= i)
  }

  lemma SinceKept(before: seq<Message>, cutoff: int)
    requires Chronological(before)
    ensures KeptSince(Since(before, cutoff), before, cutoff)
  {
    var k := SinceIsSuffix(before, cutoff);
    assert CutAt(before, k, cutoff);
  }

  lemma BufferKept(channels: map<int, seq<Message>>, logs: map<int, seq<Message>>, cutoffs: map<int, int>,
                   capacity: nat, intact: bool, clock: int, c: int, cutoff: int)
    requires StoreOk(channels, logs, cutoffs, capacity, intact, clock) && c in channels
    ensures KeptSince(Since(channels[c], cutoff), channels[c], cutoff)
  {
    assert ChannelOk(channels[c], logs[c], capacity, cutoffs[c], intact, clock);
    SubsequenceChronological(channels[c], logs[c]);
    SinceKept(channels[c], cutoff);
  }

  /** `r` is the end of the buffer, `count` messages long or, if there are fewer, all of it. */
  ghost predicate LastOf(r: seq<Message>, buffer: seq<Message>, count: nat) {
    |r| == (if |buffer| <= count then |buffer| else count) && r == buffer[|buffer| - |r|..]
  }

  /** The messages found stand at `at`, in order; in each the content, the username or the
      nick matches; and one that matches and is not among them came before all of them,
      which then are as many as were asked for. */
  ghost predicate Shows(found: seq<Message>, buffer: seq<Message>, at: seq<nat>, isMatch: string -> bool,
                        maxResults: nat)
  {
    && |at| == |found| && (maxResults > 0 ==> |found| <= maxResults)
    && (forall k :: 0 <= k < |at| ==> at[k] < |buffer| && found[k] == buffer[at[k]])
    && (forall k, l :: 0 <= k < l < |at| ==> at[k] < at[l])
    && (forall m :: m in found ==>
          isMatch(m.content) || isMatch(m.username) || (m.nick.Some? && isMatch(m.nick.value)))
    && forall i: nat :: i < |buffer| && i !in at ==>
         var m := buffer[i];
         isMatch(m.content) || isMatch(m.username) || (m.nick.Some? && isMatch(m.nick.value)) ==>
           maxResults > 0 && |found| == maxResults && forall k :: 0 <= k < |at| ==> i < at[k]
  }

  // ---------------------------------------------------------------- where matches stand

  ghost predicate MatchHere(s: seq<Message>, f: Message -> bool, m: Message, i: nat) {
    i < |s| && f(s[i]) && m == s[i]
  }

  ghost predicate InOrder(at: seq<nat>) { forall k, l :: 0 <= k < l < |at| ==> at[k] < at[l] }

  ghost predicate NoneMissed(s: seq<Message>, f: Message -> bool, at: seq<nat>) {
    forall i: nat :: i < |s| && f(s[i]) ==> i in at
  }

  ghost predicate MatchesAt(s: seq<Message>, f: Message -> bool, found: seq<Message>, at: seq<nat>) {
    && |at| == |found| && InOrder(at) && NoneMissed(s, f, at)
    && forall k :: 0 <= k < |at| ==> MatchHere(s, f, found[k], at[k])
  }

  lemma MatchNext(s: seq<Message>, m: Message, f: Message -> bool, found: seq<Message>, at: seq<nat>)
    requires MatchesAt(s, f, found, at) && f(m)
    ensures MatchesAt(s + [m], f, found + [m], at + [|s|])
  {
    forall i: nat | i < |s + [m]| && f((s + [m])[i]) ensures i in at + [|s|] {
      if i < |s| {
        assert (s + [m])[i] == s[i];
        assert i in at;
      }
    }
    forall k | 0 <= k < |at| ensures MatchHere(s + [m], f, found[k], at[k]) && at[k] < |s| {
      assert MatchHere(s, f, found[k], at[k]);
    }
  }

  lemma NoMatchNext(s: seq<Message>, m: Message, f: Message -> bool, found: seq<Message>, at: seq<nat>)
    requires MatchesAt(s, f, found, at) && !f(m)
    ensures MatchesAt(s + [m], f, found, at)
  {
    forall i: nat | i < |s + [m]| && f((s + [m])[i]) ensures i in at {
      assert (s + [m])[i] == s[i];
    }
    forall k | 0 <= k < |at| ensures MatchHere(s + [m], f, found[k], at[k]) {
      assert MatchHere(s, f, found[k], at[k]);
    }
  }

  lemma {:induction false} MatchingAt(s: seq<Message>, f: Message -> bool) returns (at: seq<nat>)
    ensures MatchesAt(s, f, Matching(s, f), at)
    decreases |s|
  {
    at := [];
    if s != [] {
      var init, m := s[..|s| - 1], s[|s| - 1];
      assert s == init + [m];
      at := MatchingAt(init, f);
      if f(m) {
        MatchNext(init, m, f, Matching(init, f), at);
        at := at + [|init|];
      } else {
        NoMatchNext(init, m, f, Matching(init, f), at);
        assert Matching(init, f) + [] == Matching(init, f);
      }
    }
  }

  lemma LastMatchesShown(buffer: seq<Message>, isMatch: string -> bool, maxResults: nat) returns (at: seq<nat>)
    ensures Shows(LastOrAll(Matching(buffer, m => Hit(isMatch, m)), maxResults), buffer, at, isMatch, maxResults)
  {
    var f := m => Hit(isMatch, m);
    var all := MatchingAt(buffer, f);
    var found := Matching(buffer, f);
    var skipped := if maxResults == 0 || |all| <= maxResults then 0 else |all| - maxResults;
    assert LastOrAll(found, maxResults) == found[skipped..];
    ShownFrom(buffer, f, found, all, skipped, isMatch, maxResults);
    at := all[skipped..];
  }

  lemma ShownFrom(buffer: seq<Message>, f: Message -> bool, found: seq<Message>, all: seq<nat>, skipped: nat,
                  isMatch: string -> bool, maxResults: nat)
    requires MatchesAt(buffer, f, found, all) && forall m :: f(m) <==> Hit(isMatch, m)
    requires skipped == if maxResults == 0 || |all| <= maxResults then 0 else |all| - maxResults
    ensures Shows(found[skipped..], buffer, all[skipped..], isMatch, maxResults)
  {
    LaterMatches(buffer, f, found, all, skipped);
    forall i: nat | i < |buffer| && i !in all[skipped..] && f(buffer[i])
      ensures skipped > 0 && forall k :: 0 <= k < |all| - skipped ==> i < all[skipped..][k] {
      SkippedBefore(all, skipped, i);
    }
  }

  lemma LaterMatches(buffer: seq<Message>, f: Message -> bool, found: seq<Message>, all: seq<nat>, skipped: nat)
    requires MatchesAt(buffer, f, found, all) && skipped <= |all|
    ensures InOrder(all[skipped..])
    ensures forall k :: 0 <= k < |found| - skipped ==> MatchHere(buffer, f, found[skipped..][k], all[skipped..][k])
    ensures forall m :: m in found[skipped..] ==> f(m)
  {
    forall k | 0 <= k < |found| - skipped
      ensures MatchHere(buffer, f, found[skipped..][k], all[skipped..][k]) {
      assert MatchHere(buffer, f, found[skipped + k], all[skipped + k]);
    }
  }

  lemma SkippedBefore(all: seq<nat>, skipped: nat, i: nat)
    requires InOrder(all) && skipped <= |all| && i in all && i !in all[skipped..]
    ensures skipped > 0 && forall k :: 0 <= k < |all| - skipped ==> i < all[skipped..][k]
  {
    var j :| 0 <= j < |all| && all[j] == i;
    assert forall k :: skipped <= k < |all| ==> all[k] == all[skipped..][k - skipped];
  }

  function Max(a: int, b: int): int { if a > b then a else b }

  class ChannelContext {
    const capacity: nat
    const retention: int
    var channels: map<int, seq<Message>>

    /** All messages of each channel, the latest cut-off applied to it, the latest time
        read under the lock, and whether no user was ever forgotten. */
    ghost var logs: map<int, seq<Message>>
    ghost var cutoffs: map<int, int>
    ghost var clock: int
    ghost var intact: bool

    ghost predicate Valid()
      reads this
    {
      capacity >= 1 && retention >= 1 && StoreOk(channels, logs, cutoffs, capacity, intact, clock)
    }

    ghost function Log(c: int): seq<Message>
      reads this
      requires Valid()
    {
      if c in logs then logs[c] else []
    }

    constructor (capacity: nat, retentionSecs: int)
      ensures Valid() && channels == map[] && intact
      ensures this.capacity == (if capacity >= 1 then capacity else 1)
      ensures this.retention == (if retentionSecs >= 1 then retentionSecs else 1)
    {
      this.capacity := if capacity >= 1 then capacity else 1;
      this.retention := if retentionSecs >= 1 then retentionSecs else 1;
      channels, logs, cutoffs, intact := map[], map[], map[], true;
    }

    /** Drop the expired front of a buffer. */
    static method Expire(buffer: seq<Message>, cutoff: int) returns (kept: seq<Message>)
      requires Chronological(buffer)
      ensures kept == Since(buffer, cutoff)
    {
      kept := buffer;
      while kept != [] && kept[0].at < cutoff
        invariant Since(kept, cutoff) == Since(buffer, cutoff) && Chronological(kept)
        decreases |kept|
      {
        kept := kept[1..];
      }
      var k := SinceIsSuffix(kept, cutoff);
    }

    /** Expire channel `c` at a time read before the lock was taken. */
    method Touch(c: int, readAt: int)
      requires Valid() && c in channels
      modifies `channels, `cutoffs, `clock
      ensures Valid()
      ensures channels == old(channels)[c := Since(old(channels[c]), readAt - retention)]
      ensures cutoffs == old(cutoffs)[c := Max(old(cutoffs[c]), readAt - retention)]
      ensures clock == Max(old(clock), readAt)
    {
      assert ChannelOk(channels[c], logs[c], capacity, cutoffs[c], intact, clock);
      ExpireStands(channels[c], logs[c], capacity, cutoffs[c], intact, readAt - retention);
      var kept := Expire(channels[c], readAt - retention);
      ghost var cutoff := Max(cutoffs[c], readAt - retention);
      assert ChannelOk(kept, logs[c], capacity, cutoff, intact, Max(clock, readAt));
      SetChannel(channels, logs, cutoffs, capacity, intact, clock, Max(clock, readAt), c, kept, logs[c], cutoff);
      assert logs[c := logs[c]] == logs;
      channels := channels[c := kept];
      cutoffs := cutoffs[c := cutoff];
      clock := Max(clock, readAt);
    }

    /** `channels.entry(c).or_default()`. */
    method Open(c: int, readAt: int)
      requires Valid()
      modifies `channels, `logs, `cutoffs, `clock
      ensures Valid() && clock == Max(old(clock), readAt)
      ensures logs == old(logs)[c := old(Log(c))]
      ensures c in channels && channels == old(channels)[c := channels[c]]
      ensures channels[c] == if c in old(channels) then old(channels)[c] else []
      ensures cutoffs == old(cutoffs)[c := if c in old(cutoffs) then old(cutoffs)[c] else readAt - retention]
    {
      assert c in logs ==> logs[c := logs[c]] == logs && channels[c := channels[c]] == channels;
      if c !in channels {
        SetChannel(channels, logs, cutoffs, capacity, intact, clock, Max(clock, readAt), c, [], [], readAt - retention);
        channels, logs, cutoffs := channels[c := []], logs[c := []], cutoffs[c := readAt - retention];
        clock := Max(clock, readAt);
      } else {
        assert ChannelOk(channels[c], logs[c], capacity, cutoffs[c], intact, clock);
        SetChannel(channels, logs, cutoffs, capacity, intact, clock, Max(clock, readAt), c, channels[c], logs[c],
            cutoffs[c]);
        assert cutoffs[c := cutoffs[c]] == cutoffs;
        clock := Max(clock, readAt);
      }
    }

    /** Push onto an open channel, first making room when it is full. */
    method Push(c: int, m: Message)
      requires Valid() && c in channels && clock <= m.at
      modifies `channels, `logs, `clock
      ensures Valid() && clock == m.at
      ensures logs == old(logs)[c := old(logs[c]) + [m]]
      ensures channels == old(channels)[c := (if old(|channels[c]|) >= capacity then old(channels[c])[1..]
          else old(channels[c])) + [m]]
    {
      assert ChannelOk(channels[c], logs[c], capacity, cutoffs[c], intact, clock);
      ChannelPushed(channels[c], logs[c], capacity, cutoffs[c], intact, clock, m);
      var buffer := channels[c];
      if |buffer| >= capacity {
        buffer := buffer[1..];
      }
      SetChannel(channels, logs, cutoffs, capacity, intact, clock, m.at, c, buffer + [m], logs[c] + [m], cutoffs[c]);
      assert cutoffs[c := cutoffs[c]] == cutoffs;
      channels := channels[c := buffer + [m]];
      logs := logs[c := logs[c] + [m]];
      clock := m.at;
    }

    /** Record a message; `readAt` was read before taking the lock, `m.at` under it. */
    method Append(c: int, m: Message, readAt: int)
      requires Valid() && readAt <= m.at && clock <= m.at
      modifies this
      ensures Valid() && intact == old(intact)
      ensures logs == old(logs)[c := old(Log(c)) + [m]]
      ensures c in channels && channels == old(channels)[c := channels[c]]
      ensures cutoffs == old(cutoffs)[c := if c in old(cutoffs) then Max(old(cutoffs)[c], readAt - retention)
          else readAt - retention]
      ensures exists kept ::
                && KeptSince(kept, if c in old(channels) then old(channels)[c] else [], readAt - retention)
                && channels[c] == (if |kept| >= capacity then kept[1..] else kept) + [m]
    {
      ghost var channels0, logs0 := channels, logs;
      OpenCurrent(c, readAt);
      ghost var kept, logs1 := channels[c], logs[c];
      Push(c, m);
      PutPut(channels0, c, kept, channels[c]);
      PutPut(logs0, c, logs1, logs[c]);
    }

    /** The channel's buffer, made if there is none, without what is expired. */
    method OpenCurrent(c: int, readAt: int)
      requires Valid()
      modifies `channels, `logs, `cutoffs, `clock
      ensures Valid() && clock == Max(old(clock), readAt)
      ensures logs == old(logs)[c := old(Log(c))]
      ensures c in channels && channels == old(channels)[c := channels[c]]
      ensures KeptSince(channels[c], if c in old(channels) then old(channels)[c] else [], readAt - retention)
      ensures cutoffs == old(cutoffs)[c := if c in old(cutoffs) then Max(old(cutoffs)[c], readAt - retention)
          else readAt - retention]
    {
      ghost var channels0, cutoffs0 := channels, cutoffs;
      Open(c, readAt);
      ghost var buffer := channels[c];
      PutPut(cutoffs0, c, cutoffs[c], Max(cutoffs[c], readAt - retention));
      PutPut(channels0, c, buffer, Since(buffer, readAt - retention));
      BufferKept(channels, logs, cutoffs, capacity, intact, clock, c, readAt - retention);
      Touch(c, readAt);
    }

    /** Collect matches in a queue of `maxResults`, dropping the oldest to make room. */
    static method Collect(buffer: seq<Message>, f: Message -> bool, maxResults: nat) returns (recent: seq<Message>)
      ensures recent == LastOrAll(Matching(buffer, f), maxResults)
    {
      recent := [];
      for n := 0 to |buffer|
        invariant recent == LastOrAll(Matching(buffer[..n], f), maxResults)
      {
        assert buffer[..n + 1][..n] == buffer[..n];
        LastOrAllSnoc(Matching(buffer[..n], f), buffer[n], maxResults);
        if f(buffer[n]) {
          if |recent| == maxResults && recent != [] {
            recent := recent[1..];
          }
          recent := recent + [buffer[n]];
        }
      }
      assert buffer[..|buffer|] == buffer;
    }

    /** The buffer of a channel, without what is expired. */
    method Current(c: int, readAt: int) returns (buffer: seq<Message>)
      requires Valid() && c in channels
      modifies `channels, `cutoffs, `clock
      ensures Valid() && c in channels && buffer == channels[c]
      ensures KeptSince(buffer, old(channels)[c], readAt - retention)
      ensures channels == old(channels)[c := Since(old(channels)[c], readAt - retention)]
      ensures cutoffs == old(cutoffs)[c := Max(old(cutoffs[c]), readAt - retention)]
      ensures clock == Max(old(clock), readAt)
      ensures intact ==> buffer == Window(logs[c], capacity, cutoffs[c])
    {
      BufferKept(channels, logs, cutoffs, capacity, intact, clock, c, readAt - retention);
      Touch(c, readAt);
      assert ChannelOk(channels[c], logs[c], capacity, cutoffs[c], intact, clock);
      buffer := channels[c];
    }

    /** The last `maxResults` matches, most recent last; with `maxResults` zero, all of them. */
    method Search(c: int, regex: Option<string -> bool>, maxResults: nat, readAt: int) returns (r: Found)
      requires Valid()
      modifies `channels, `cutoffs, `clock
      ensures Valid()
      ensures r.InvalidRegex? <==> regex.None?
      ensures r.Found? && c !in channels ==> r.messages == []
      ensures r.Found? && c in channels ==>
                && r.messages == LastOrAll(Matching(channels[c], m => Hit(regex.value, m)), maxResults)
                && KeptSince(channels[c], old(channels)[c], readAt - retention)
                && exists at :: Shows(r.messages, channels[c], at, regex.value, maxResults)
      ensures var read := regex.Some? && c in old(channels);
              && cutoffs == (if read then old(cutoffs)[c := Max(old(cutoffs)[c], readAt - retention)] else old(cutoffs))
              && clock == (if read then Max(old(clock), readAt) else old(clock))
      ensures channels ==
              if r.InvalidRegex? || c !in old(channels) then old(channels)
              else old(channels)[c := Since(old(channels)[c], readAt - retention)]
      ensures r.Found? && c in channels && intact ==> channels[c] == Window(logs[c], capacity, cutoffs[c])
    {
      if regex.None? { return InvalidRegex; }
      if c !in channels { return Found([]); }
      var buffer := Current(c, readAt);
      var recent := Collect(buffer, m => Hit(regex.value, m), maxResults);
      ghost var at := LastMatchesShown(buffer, regex.value, maxResults);
      return Found(recent);
    }

    /** The last `count` messages, oldest first. */
    method Recent(c: int, count: nat, readAt: int) returns (r: seq<Message>)
      requires Valid()
      modifies `channels, `cutoffs, `clock
      ensures Valid()
      ensures c !in channels ==> r == []
      ensures c in channels ==>
                && LastOf(r, channels[c], count)
                && KeptSince(channels[c], old(channels)[c], readAt - retention)
      ensures var read := c in old(channels);
              && cutoffs == (if read then old(cutoffs)[c := Max(old(cutoffs)[c], readAt - retention)] else old(cutoffs))
              && clock == (if read then Max(old(clock), readAt) else old(clock))
      ensures channels ==
              if c !in old(channels) then old(channels)
              else old(channels)[c := Since(old(channels)[c], readAt - retention)]
      ensures c in channels && intact ==> r == LastK(Window(logs[c], capacity, cutoffs[c]), count)
    {
      if c !in channels { return []; }
      var buffer := Current(c, readAt);
      r := Last(buffer, count);
    }

    static method Last(buffer: seq<Message>, count: nat) returns (r: seq<Message>)
      ensures r == LastK(buffer, count)
      ensures LastOf(r, buffer, count)
    {
      var skip := if |buffer| >= count then |buffer| - count else 0;
      return buffer[skip..];
    }

    /** Forget everything a user has said, across every channel. */
    method RemoveUserEntries(user: string)
      requires Valid()
      modifies `channels, `intact
      ensures Valid() && channels.Keys == old(channels.Keys)
      ensures forall c :: c in channels ==> channels[c] == Matching(old(channels[c]), (m: Message) => m.user != user)
      ensures forall c, m :: c in channels ==> (m in channels[c] <==> m in old(channels[c]) && m.user != user)
    {
      var f := (m: Message) => m.user != user;
      forall c | c in channels
        ensures ChannelOk(Matching(channels[c], f), logs[c], capacity, cutoffs[c], false, clock) {
        assert ChannelOk(channels[c], logs[c], capacity, cutoffs[c], intact, clock);
        SubsequenceMatching(channels[c], logs[c], f);
        MatchingOnly(channels[c], f);
      }
      forall c | c in channels
        ensures forall m :: m in Matching(channels[c], f) <==> m.user != user && m in channels[c] {
        MatchingOnly(channels[c], f);
      }
      channels := map c | c in channels :: Matching(channels[c], f);
      intact := false;
    }
  }

  lemma {:induction false} MatchingOnly(s: seq<Message>, f: Message -> bool)
    ensures forall m :: m in Matching(s, f) <==> m in s && f(m)
    ensures |Matching(s, f)| <= |s|
  {
    if s != [] {
      MatchingOnly(s[..|s| - 1], f);
      assert s == s[..|s| - 1] + [s[|s| - 1]];
    }
  }
}
