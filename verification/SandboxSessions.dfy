/** The sandbox daemon's session map: every handler is one or two sections under the
    lock, and other handlers and the reaper run in between. */
module SandboxProtocol {
  type Id = string

  datatype Network = NoNetwork | PublicInternet
  {
    predicate AtLeast(wanted: Network) { wanted == PublicInternet ==> this == PublicInternet }
  }

  datatype Container = Container(name: string, key: string, network: Network, lastUsedAt: int)

  /** A start that found nothing to reuse and is waiting for Docker. */
  datatype Start = Start(key: string, network: Network)

  datatype State = State(
    containers: map<Id, Container>,
    created: map<Id, Start>,      // what every sandbox so far was created for
    starting: map<nat, Start>,    // by request
    clock: int, lastSweep: int)

  datatype Label =
    | ReuseHit(key: string, network: Network, id: Id, at: int)
    | ReuseRefused(key: string, id: Id, at: int)
    | ReuseMiss(request: nat, key: string, network: Network, at: int)
    | StartFailed(request: nat, at: int)
    | Insert(request: nat, id: Id, at: int)
    | Touch(key: string, at: int)
    | Require(id: Id, at: int)
    | Sweep(at: int)
    | Remove(id: Id, at: int)

  function NameOf(id: Id): string { "housebot-sandbox-" + id }

  predicate Owns(s: State, id: Id, key: string) { id in s.containers && s.containers[id].key == key }

  predicate Enabled(s: State, l: Label) {
    && s.clock <= l.at
    && match l
       case ReuseHit(key, network, id, _) => Owns(s, id, key) && s.containers[id].network.AtLeast(network)
       case ReuseRefused(key, id, _) => Owns(s, id, key) && s.containers[id].network == NoNetwork
       case ReuseMiss(r, key, _, _) => r !in s.starting && forall id :: id in s.containers ==> !Owns(s, id, key)
       case StartFailed(r, _) => r in s.starting
       case Insert(r, id, _) => r in s.starting && id !in s.created
       case Require(id, _) => id in s.containers
       case _ => true
  }

  function Used(c: Container, at: int): Container { c.(lastUsedAt := at) }

  function TouchAll(cs: map<Id, Container>, key: string, at: int): map<Id, Container> {
    map id | id in cs :: if cs[id].key == key then Used(cs[id], at) else cs[id]
  }

  predicate Expired(c: Container, at: int, timeout: int) { at - c.lastUsedAt >= timeout }

  function Survivors(cs: map<Id, Container>, at: int, timeout: int): map<Id, Container> {
    map id | id in cs && !Expired(cs[id], at, timeout) :: cs[id]
  }

  function Next(s: State, l: Label, timeout: int): State
    requires Enabled(s, l)
  {
    var t := s.(clock := l.at);
    match l
    case ReuseHit(_, _, id, at) => t.(containers := s.containers[id := Used(s.containers[id], at)])
    case ReuseRefused(_, _, _) => t
    case ReuseMiss(r, key, network, _) => t.(starting := s.starting[r := Start(key, network)])
    case StartFailed(r, _) => t.(starting := s.starting - {r})
    case Insert(r, id, at) =>
      var start := s.starting[r];
      t.(containers := s.containers[id := Container(NameOf(id), start.key, start.network, at)],
         created := s.created[id := start], starting := s.starting - {r})
    case Touch(key, at) => t.(containers := TouchAll(s.containers, key, at))
    case Require(id, at) => t.(containers := s.containers[id := Used(s.containers[id], at)])
    case Sweep(at) => t.(containers := Survivors(s.containers, at, timeout), lastSweep := at)
    case Remove(id, _) => t.(containers := s.containers - {id})
  }

  /** The reaper starts with a sweep of an empty map. */
  function Init(at: int): State { State(map[], map[], map[], at, at) }

  ghost predicate Run(s: State, ls: seq<Label>, timeout: int)
    decreases |ls|
  {
    ls == [] || (Enabled(s, ls[0]) && Run(Next(s, ls[0], timeout), ls[1..], timeout))
  }

  ghost function After(s: State, ls: seq<Label>, timeout: int): State
    requires Run(s, ls, timeout)
    decreases |ls|
  {
    if ls == [] then s else After(Next(s, ls[0], timeout), ls[1..], timeout)
  }

  // ---------------------------------------------------------------- ids and sessions

  /** Every sandbox in the map is one that was created for the session it is filed under. */
  ghost predicate Inv(s: State) {
    forall id :: id in s.containers ==>
      var c := s.containers[id];
      && id in s.created && s.created[id] == Start(c.key, c.network) && c.name == NameOf(id)
      && c.lastUsedAt <= s.clock
  }

  lemma InvStep(s: State, l: Label, timeout: int)
    requires Inv(s) && Enabled(s, l)
    ensures Inv(Next(s, l, timeout))
  {
  }

  lemma {:induction false} InvRun(s: State, ls: seq<Label>, timeout: int)
    requires Inv(s) && Run(s, ls, timeout)
    ensures Inv(After(s, ls, timeout))
    decreases |ls|
  {
    if ls != [] {
      InvStep(s, ls[0], timeout);
      InvRun(Next(s, ls[0], timeout), ls[1..], timeout);
    }
  }

  /** A label that answers session `key` with sandbox `id`, asked for `wanted` access. */
  predicate Hands(s: State, l: Label, key: string, wanted: Network, id: Id) {
    || (l.ReuseHit? && l.key == key && l.network == wanted && l.id == id)
    || (l.Insert? && l.request in s.starting && s.starting[l.request] == Start(key, wanted) && l.id == id)
  }

  /** Whatever interleaves, a sandbox handed to a session was created for that session
      with at least the access it asked for, and is in the map as it is handed out. */
  lemma HandedOutRightly(at: int, ls: seq<Label>, l: Label, timeout: int, key: string, wanted: Network, id: Id)
    requires Run(Init(at), ls, timeout)
    requires Enabled(After(Init(at), ls, timeout), l) && Hands(After(Init(at), ls, timeout), l, key, wanted, id)
    ensures var s := Next(After(Init(at), ls, timeout), l, timeout);
            && id in s.containers && id in s.created
            && s.created[id].key == key && (wanted == PublicInternet ==> s.created[id].network == PublicInternet)
            && s.containers[id].lastUsedAt == l.at
  {
    InvRun(Init(at), ls, timeout);
    InvStep(After(Init(at), ls, timeout), l, timeout);
  }

  // ---------------------------------------------------------------- one container per session

  /** No start of a session begins while another one of it is waiting for Docker. */
  ghost predicate NoOverlap(s: State, l: Label) {
    l.ReuseMiss? ==> forall r :: r in s.starting ==> s.starting[r].key != l.key
  }

  ghost predicate RunNoOverlap(s: State, ls: seq<Label>, timeout: int)
    requires Run(s, ls, timeout)
    decreases |ls|
  {
    ls == [] || (NoOverlap(s, ls[0]) && RunNoOverlap(Next(s, ls[0], timeout), ls[1..], timeout))
  }

  ghost predicate OnePerKey(s: State) {
    && (forall i, j :: i in s.containers && j in s.containers && s.containers[i].key == s.containers[j].key ==> i == j)
    && (forall r, q :: r in s.starting && q in s.starting && s.starting[r].key == s.starting[q].key ==> r == q)
    && (forall r, i :: r in s.starting && i in s.containers ==> s.starting[r].key != s.containers[i].key)
  }

  /** Steps that add no start and no container keep every container's session. */
  lemma KeysKept(s: State, l: Label, timeout: int)
    requires Enabled(s, l) && !l.ReuseMiss? && !l.Insert?
    ensures var t := Next(s, l, timeout);
            && (forall i :: i in t.containers ==> i in s.containers && t.containers[i].key == s.containers[i].key)
            && (forall r :: r in t.starting ==> r in s.starting && t.starting[r] == s.starting[r])
  {
  }

  lemma OnePerKeyStep(s: State, l: Label, timeout: int)
    requires OnePerKey(s) && Enabled(s, l) && NoOverlap(s, l)
    ensures OnePerKey(Next(s, l, timeout))
  {
    if l.ReuseMiss? {
      assert forall i :: i in s.containers ==> !Owns(s, i, l.key);
    } else if !l.Insert? {
      KeysKept(s, l, timeout);
    }
  }

  /** Starts that do not overlap keep one container per session. */
  lemma {:induction false} OneContainerPerSession(s: State, ls: seq<Label>, timeout: int)
    requires OnePerKey(s) && Run(s, ls, timeout) && RunNoOverlap(s, ls, timeout)
    ensures OnePerKey(After(s, ls, timeout)) && AlwaysUnique(s, ls, timeout)
    decreases |ls|
  {
    if ls != [] {
      OnePerKeyStep(s, ls[0], timeout);
      OneContainerPerSession(Next(s, ls[0], timeout), ls[1..], timeout);
    }
  }

  /** No two containers belong to the same session. */
  ghost predicate Unique(s: State) {
    forall i, j :: i in s.containers && j in s.containers && s.containers[i].key == s.containers[j].key ==> i == j
  }

  /** A container is filed under a session that has got one since its start looked. */
  ghost predicate Doubles(s: State, l: Label)
    requires Enabled(s, l)
  {
    l.Insert? && exists i :: i in s.containers && s.containers[i].key == s.starting[l.request].key
  }

  /** Just such an insert makes a second container. */
  lemma UniqueStep(s: State, l: Label, timeout: int)
    requires Unique(s) && s.containers.Keys <= s.created.Keys && Enabled(s, l)
    ensures Unique(Next(s, l, timeout)) <==> !Doubles(s, l)
    ensures Next(s, l, timeout).containers.Keys <= Next(s, l, timeout).created.Keys
  {
    var t := Next(s, l, timeout);
    if l.Insert? {
      assert forall i :: i in s.containers ==> i != l.id && t.containers[i] == s.containers[i];
      assert t.containers[l.id].key == s.starting[l.request].key;
      if i :| i in s.containers && s.containers[i].key == s.starting[l.request].key {
        assert i in t.containers && t.containers[i].key == t.containers[l.id].key;
      }
    } else {
      assert forall i :: i in t.containers ==> i in s.containers && t.containers[i].key == s.containers[i].key;
    }
  }

  ghost predicate AlwaysUnique(s: State, ls: seq<Label>, timeout: int)
    requires Run(s, ls, timeout)
    decreases |ls|
  {
    Unique(s) && (ls == [] || AlwaysUnique(Next(s, ls[0], timeout), ls[1..], timeout))
  }

  ghost predicate NeverDoubles(s: State, ls: seq<Label>, timeout: int)
    requires Run(s, ls, timeout)
    decreases |ls|
  {
    ls == [] || (!Doubles(s, ls[0]) && NeverDoubles(Next(s, ls[0], timeout), ls[1..], timeout))
  }

  lemma {:induction false} UniqueRun(s: State, ls: seq<Label>, timeout: int)
    requires Unique(s) && s.containers.Keys <= s.created.Keys && Run(s, ls, timeout)
    ensures AlwaysUnique(s, ls, timeout) <==> NeverDoubles(s, ls, timeout)
    decreases |ls|
  {
    if ls != [] {
      UniqueStep(s, ls[0], timeout);
      if !Doubles(s, ls[0]) {
        UniqueRun(Next(s, ls[0], timeout), ls[1..], timeout);
      }
    }
  }

  /** Every session has at most one container all along a run exactly when none of the
      run's inserts meets a container of its own session. */
  lemma UniqueFromStart(at: int, ls: seq<Label>, timeout: int)
    requires Run(Init(at), ls, timeout)
    ensures AlwaysUnique(Init(at), ls, timeout) <==> NeverDoubles(Init(at), ls, timeout)
  {
    UniqueRun(Init(at), ls, timeout);
  }

  /** Once two starts of a session overlap, nothing stands in the way of two containers:
      from any state in which a start misses while another one waits, both may go on. */
  lemma OverlapGoesOn(s: State, l: Label, other: nat, a: Id, b: Id, timeout: int) returns (ls: seq<Label>)
    requires Enabled(s, l) && l.ReuseMiss?
    requires other in s.starting && s.starting[other].key == l.key
    requires a != b && a !in s.created && b !in s.created
    ensures ls != [] && ls[0] == l && Run(s, ls, timeout)
    ensures Owns(After(s, ls, timeout), a, l.key) && Owns(After(s, ls, timeout), b, l.key)
  {
    var l1, l2 := Insert(other, a, l.at), Insert(l.request, b, l.at);
    var s1 := Next(s, l, timeout);
    var s2 := Next(s1, l1, timeout);
    var s3 := Next(s2, l2, timeout);
    ls := [l, l1, l2];
    var none: seq<Label> := [];
    assert Run(s3, none, timeout) && After(s3, none, timeout) == s3;
    OneMoreStep(s2, l2, none, timeout);
    OneMoreStep(s1, l1, [l2], timeout);
    OneMoreStep(s, l, [l1, l2], timeout);
    assert [l2] == [l2] + none && [l1, l2] == [l1] + [l2] && ls == [l] + [l1, l2];
  }

  lemma OneMoreStep(s: State, l: Label, ls: seq<Label>, timeout: int)
    requires Enabled(s, l) && Run(Next(s, l, timeout), ls, timeout)
    ensures Run(s, [l] + ls, timeout) && After(s, [l] + ls, timeout) == After(Next(s, l, timeout), ls, timeout)
  {
    assert ([l] + ls)[1..] == ls;
  }

  /** So it is from the very start: two requests that both find nothing both provision. */
  lemma OverlapMakesTwo(key: string, a: Id, b: Id) returns (ls: seq<Label>)
    requires a != b
    ensures Run(Init(0), ls, 1)
    ensures Owns(After(Init(0), ls, 1), a, key) && Owns(After(Init(0), ls, 1), b, key)
  {
    var first := ReuseMiss(0, key, NoNetwork, 0);
    var s := Next(Init(0), first, 1);
    var rest := OverlapGoesOn(s, ReuseMiss(1, key, NoNetwork, 0), 0, a, b, 1);
    OneMoreStep(Init(0), first, rest, 1);
    ls := [first] + rest;
  }

  // ---------------------------------------------------------------- reaping

  const SECOND := 1_000_000_000 // nanoseconds

  function SweepInterval(timeout: nat): (r: nat)
    ensures r >= SECOND && 2 * r >= timeout - 1
  {
    if timeout / 2 > SECOND then timeout / 2 else SECOND
  }

  /** Sweeps come no later than `gap` apart: nothing happens later than that after one. */
  ghost predicate SweptEvery(s: State, ls: seq<Label>, timeout: nat, gap: nat)
    requires Run(s, ls, timeout)
    decreases |ls|
  {
    ls == [] || (ls[0].at <= s.lastSweep + gap && SweptEvery(Next(s, ls[0], timeout), ls[1..], timeout, gap))
  }

  lemma {:induction false} ClockNearSweep(s: State, ls: seq<Label>, timeout: nat, gap: nat)
    requires Run(s, ls, timeout) && SweptEvery(s, ls, timeout, gap) && s.clock <= s.lastSweep + gap
    ensures After(s, ls, timeout).clock <= After(s, ls, timeout).lastSweep + gap
    decreases |ls|
  {
    if ls != [] {
      ClockNearSweep(Next(s, ls[0], timeout), ls[1..], timeout, gap);
    }
  }

  /** Every sandbox in the map was used less than the timeout before the last sweep, or after it. */
  ghost predicate Swept(s: State, timeout: int) {
    s.lastSweep <= s.clock && forall id :: id in s.containers ==> s.lastSweep < s.containers[id].lastUsedAt + timeout
  }

  lemma {:induction false} SweptRun(s: State, ls: seq<Label>, timeout: int)
    requires timeout > 0 && Swept(s, timeout) && Run(s, ls, timeout)
    ensures Swept(After(s, ls, timeout), timeout)
    decreases |ls|
  {
    if ls != [] {
      SweptRun(Next(s, ls[0], timeout), ls[1..], timeout);
    }
  }

  /** With sweeps at most an interval and a delay apart, no sandbox stays unused for the
      timeout, an interval and the delay. */
  lemma IdleIsBounded(at: int, ls: seq<Label>, timeout: nat, delay: nat, id: Id)
    requires timeout > 0 && Run(Init(at), ls, timeout)
    requires SweptEvery(Init(at), ls, timeout, SweepInterval(timeout) + delay)
    requires id in After(Init(at), ls, timeout).containers
    ensures var s := After(Init(at), ls, timeout);
            var interval := if timeout / 2 > 1_000_000_000 then timeout / 2 else 1_000_000_000;
            s.clock - s.containers[id].lastUsedAt < timeout + interval + delay
  {
    SweptRun(Init(at), ls, timeout);
    ClockNearSweep(Init(at), ls, timeout, SweepInterval(timeout) + delay);
  }
}

/** Which sandboxes are in the map after a run, told by the labels of the run alone. */
module SandboxLifetimes {
  import opened SandboxProtocol

  /** `l` marks sandbox `id` of session `key` as used. */
  predicate Uses(l: Label, id: Id, key: string) {
    match l
    case Insert(_, i, _) => i == id
    case ReuseHit(_, _, i, _) => i == id
    case Require(i, _) => i == id
    case Touch(k, _) => k == key
    case _ => false
  }

  predicate Removes(l: Label, id: Id) { l.Remove? && l.id == id }

  /** A use of the sandbox since step `i`, less than `timeout` before step `n`. */
  ghost predicate UsedShortlyBefore(ls: seq<Label>, id: Id, key: string, i: nat, n: nat, timeout: int)
    requires n < |ls|
  {
    exists m :: i <= m < n && Uses(ls[m], id, key) && ls[n].at - ls[m].at < timeout
  }

  ghost predicate SparedAt(ls: seq<Label>, id: Id, key: string, i: nat, n: nat, timeout: int)
    requires n < |ls|
  {
    && !Removes(ls[n], id)
    && (ls[n].Sweep? ==> UsedShortlyBefore(ls, id, key, i, n, timeout))
  }

  /** After step `i` and before step `n` nothing removed the sandbox, and every sweep came
      shortly after a use. */
  ghost predicate Spared(ls: seq<Label>, id: Id, key: string, i: nat, n: nat, timeout: int)
    requires n <= |ls|
  {
    forall k :: i < k < n ==> SparedAt(ls, id, key, i, k, timeout)
  }

  lemma {:induction false} RunPrefix(s: State, ls: seq<Label>, n: nat, timeout: int)
    requires Run(s, ls, timeout) && n < |ls|
    ensures Run(s, ls[..n], timeout) && Enabled(After(s, ls[..n], timeout), ls[n])
    ensures Run(s, ls[..n + 1], timeout)
    ensures After(s, ls[..n + 1], timeout) == Next(After(s, ls[..n], timeout), ls[n], timeout)
    decreases n
  {
    var rest := ls[1..];
    if n == 0 {
      var none: seq<Label> := [];
      assert ls[..0] == none && ls[..1][1..] == none && Run(Next(s, ls[0], timeout), none, timeout);
    } else {
      RunPrefix(Next(s, ls[0], timeout), rest, n - 1, timeout);
      assert ls[..n][1..] == rest[..n - 1] && ls[..n + 1][1..] == rest[..n];
    }
  }

  /** The state after the first `n` steps. */
  ghost function StateAt(s: State, ls: seq<Label>, n: nat, timeout: int): State
    requires Run(s, ls, timeout) && n <= |ls|
  {
    if n < |ls| then RunPrefix(s, ls, n, timeout); After(s, ls[..n], timeout) else After(s, ls, timeout)
  }

  lemma StateNext(s: State, ls: seq<Label>, n: nat, timeout: int)
    requires Run(s, ls, timeout) && n < |ls|
    ensures Enabled(StateAt(s, ls, n, timeout), ls[n])
    ensures StateAt(s, ls, n + 1, timeout) == Next(StateAt(s, ls, n, timeout), ls[n], timeout)
  {
    RunPrefix(s, ls, n, timeout);
    assert n + 1 == |ls| ==> ls[..n + 1] == ls;
  }

  /** The sandbox was last used by one of the labels since step `i`, and by none later. */
  ghost predicate LastUse(c: Container, ls: seq<Label>, id: Id, i: nat, n: nat)
    requires i < n <= |ls|
  {
    && (exists m :: i <= m < n && Uses(ls[m], id, c.key) && ls[m].at == c.lastUsedAt)
    && forall m :: i <= m < n && Uses(ls[m], id, c.key) ==> ls[m].at <= c.lastUsedAt
  }

  /** What the labels since step `i` say of the sandbox inserted there is what the state says. */
  ghost predicate Told(s: State, ls: seq<Label>, id: Id, key: string, i: nat, n: nat, timeout: int)
    requires i < n <= |ls|
  {
    && id in s.created && s.created[id].key == key
    && (forall m :: i <= m < n ==> ls[m].at <= s.clock)
    && (id in s.containers <==> Spared(ls, id, key, i, n, timeout))
    && (id in s.containers ==> s.containers[id].key == key && LastUse(s.containers[id], ls, id, i, n))
  }

  /** A sweep takes the sandbox unless it was used shortly before. */
  lemma SweepDecides(c: Container, ls: seq<Label>, id: Id, i: nat, n: nat, timeout: int)
    requires i < n < |ls| && LastUse(c, ls, id, i, n)
    ensures ls[n].at - c.lastUsedAt < timeout <==> UsedShortlyBefore(ls, id, c.key, i, n, timeout)
  {
  }

  lemma LastUseNext(c: Container, c': Container, ls: seq<Label>, id: Id, i: nat, n: nat)
    requires i < n < |ls| && LastUse(c, ls, id, i, n) && c'.key == c.key
    requires forall m :: i <= m < n ==> ls[m].at <= ls[n].at
    requires c'.lastUsedAt == if Uses(ls[n], id, c.key) then ls[n].at else c.lastUsedAt
    ensures LastUse(c', ls, id, i, n + 1)
  {
    if Uses(ls[n], id, c.key) {
      assert ls[n].at == c'.lastUsedAt;
    } else {
      var m :| i <= m < n && Uses(ls[m], id, c.key) && ls[m].at == c.lastUsedAt;
      assert ls[m].at == c'.lastUsedAt;
    }
  }

  /** What one step does to a sandbox that is in the map. */
  lemma OneSandbox(s: State, l: Label, id: Id, timeout: int)
    requires Enabled(s, l) && id in s.containers && id in s.created
    ensures var t, c := Next(s, l, timeout), s.containers[id];
            && (id in t.containers <==> !Removes(l, id) && (l.Sweep? ==> l.at - c.lastUsedAt < timeout))
            && (id in t.containers ==>
                  t.containers[id] == if Uses(l, id, c.key) then c.(lastUsedAt := l.at) else c)
  {
  }

  /** A sandbox that is gone does not come back. */
  lemma GoneForGood(s: State, l: Label, id: Id, timeout: int)
    requires Enabled(s, l) && id in s.created
    ensures id in Next(s, l, timeout).created && Next(s, l, timeout).created[id] == s.created[id]
    ensures id !in s.containers ==> id !in Next(s, l, timeout).containers
  {
  }

  lemma SparedNext(ls: seq<Label>, id: Id, key: string, i: nat, n: nat, timeout: int)
    requires i < n < |ls|
    ensures Spared(ls, id, key, i, n + 1, timeout) <==>
            Spared(ls, id, key, i, n, timeout) && SparedAt(ls, id, key, i, n, timeout)
  {
  }

  lemma ToldNext(s: State, ls: seq<Label>, id: Id, key: string, i: nat, n: nat, timeout: int)
    requires i < n < |ls| && Enabled(s, ls[n]) && Told(s, ls, id, key, i, n, timeout)
    ensures Told(Next(s, ls[n], timeout), ls, id, key, i, n + 1, timeout)
  {
    var t := Next(s, ls[n], timeout);
    GoneForGood(s, ls[n], id, timeout);
    SparedNext(ls, id, key, i, n, timeout);
    if id in s.containers {
      OneSandbox(s, ls[n], id, timeout);
      SweepDecides(s.containers[id], ls, id, i, n, timeout);
      if id in t.containers {
        LastUseNext(s.containers[id], t.containers[id], ls, id, i, n);
      }
    }
  }

  lemma ToldFirst(s: State, ls: seq<Label>, id: Id, i: nat, timeout: int)
    requires i < |ls| && Enabled(s, ls[i]) && ls[i].Insert? && ls[i].id == id
    ensures var t := Next(s, ls[i], timeout);
            id in t.created && Told(t, ls, id, t.created[id].key, i, i + 1, timeout)
  {
    var c := Next(s, ls[i], timeout).containers[id];
    assert Uses(ls[i], id, c.key) && ls[i].at == c.lastUsedAt;
  }

  lemma {:induction false} ToldRun(s: State, ls: seq<Label>, id: Id, i: nat, n: nat, timeout: int)
    requires Run(s, ls, timeout) && i < n <= |ls| && ls[i].Insert? && ls[i].id == id
    ensures var t := StateAt(s, ls, n, timeout);
            id in t.created && Told(t, ls, id, t.created[id].key, i, n, timeout)
    decreases n
  {
    StateNext(s, ls, n - 1, timeout);
    if n == i + 1 {
      ToldFirst(StateAt(s, ls, i, timeout), ls, id, i, timeout);
    } else {
      ToldRun(s, ls, id, i, n - 1, timeout);
      var t := StateAt(s, ls, n - 1, timeout);
      GoneForGood(t, ls[n - 1], id, timeout);
      ToldNext(t, ls, id, t.created[id].key, i, n - 1, timeout);
    }
  }

  /** A sandbox inserted at step `i` of a run is in the map at its end exactly when since
      then nothing removed it by name, and every sweep came less than the timeout after its
      insertion, a reuse or a request for it, or a touch of its session. */
  lemma SparedOrGone(at: int, ls: seq<Label>, id: Id, i: nat, timeout: int)
    requires Run(Init(at), ls, timeout) && i < |ls| && ls[i].Insert? && ls[i].id == id
    ensures var s := After(Init(at), ls, timeout);
            && id in s.created
            && (id in s.containers <==> Spared(ls, id, s.created[id].key, i, |ls|, timeout))
  {
    ToldRun(Init(at), ls, id, i, |ls|, timeout);
  }
}

/** The daemon object: each handler is one section under the lock, or two; other handlers
    and the reaper run in between. */
module SandboxDaemon {
  import opened SandboxProtocol

  datatype ReuseAnswer = Reuse(id: Id) | Refuse | Provision

  datatype StartAnswer = Handed(id: Id) | Refused | DockerFailed

  lemma RemoveOne(cs: map<Id, Container>, ids: set<Id>, left: set<Id>, id: Id)
    requires id in left && left <= ids
    ensures cs - (ids - left) - {id} == cs - (ids - (left - {id}))
  {
  }

  lemma SurvivorsAre(cs: map<Id, Container>, at: int, timeout: int, expired: set<Id>)
    requires expired == set id | id in cs && Expired(cs[id], at, timeout)
    ensures Survivors(cs, at, timeout) == cs - expired
  {
  }

  ghost predicate Reachable(s: State, timeout: int) {
    exists at, ls :: Run(Init(at), ls, timeout) && After(Init(at), ls, timeout) == s
  }

  lemma {:induction false} RunSnoc(s: State, ls: seq<Label>, l: Label, timeout: int)
    requires Run(s, ls, timeout) && Enabled(After(s, ls, timeout), l)
    ensures Run(s, ls + [l], timeout) && After(s, ls + [l], timeout) == Next(After(s, ls, timeout), l, timeout)
    decreases |ls|
  {
    if ls == [] {
      var none: seq<Label> := [];
      assert Run(Next(s, l, timeout), none, timeout);
      assert [l][1..] == none && ls + [l] == [l];
    } else {
      RunSnoc(Next(s, ls[0], timeout), ls[1..], l, timeout);
      assert (ls + [l])[1..] == ls[1..] + [l];
    }
  }

  lemma ReachableStep(s: State, l: Label, timeout: int)
    requires Reachable(s, timeout) && Enabled(s, l)
    ensures Reachable(Next(s, l, timeout), timeout)
  {
    var at, ls :| Run(Init(at), ls, timeout) && After(Init(at), ls, timeout) == s;
    RunSnoc(Init(at), ls, l, timeout);
  }

  lemma ReachableInv(s: State, timeout: int)
    requires Reachable(s, timeout)
    ensures Inv(s)
  {
    var at, ls :| Run(Init(at), ls, timeout) && After(Init(at), ls, timeout) == s;
    InvRun(Init(at), ls, timeout);
  }

  /** An id handed out in a reachable state. */
  lemma HandedOut(s: State, l: Label, timeout: int, key: string, wanted: Network, id: Id)
    requires Reachable(s, timeout) && Enabled(s, l) && Hands(s, l, key, wanted, id)
    ensures RightFor(Next(s, l, timeout), id, key, wanted, l.at)
  {
    var at, ls :| Run(Init(at), ls, timeout) && After(Init(at), ls, timeout) == s;
    HandedOutRightly(at, ls, l, timeout, key, wanted, id);
  }

  /** The sandbox is in the map, was created for the session with enough access, and was just used. */
  ghost predicate RightFor(s: State, id: Id, key: string, wanted: Network, at: int) {
    && id in s.containers && id in s.created
    && s.created[id].key == key && (wanted == PublicInternet ==> s.created[id].network == PublicInternet)
    && s.containers[id].lastUsedAt == at
  }

  function OwnersOf(cs: map<Id, Container>, key: string): set<Id> {
    set id | id in cs && cs[id].key == key
  }

  lemma NoOwners(s: State, key: string)
    ensures OwnersOf(s.containers, key) == {} ==> forall id :: id in s.containers ==> !Owns(s, id, key)
  {
    forall id | Owns(s, id, key) ensures OwnersOf(s.containers, key) != {} {
      assert id in OwnersOf(s.containers, key);
    }
  }

  class Daemon {
    const timeout: nat
    var containers: map<Id, Container>
    /** The other side: what sandboxes were created for, the starts that wait for Docker,
        the latest time read under the lock, and the last sweep. */
    var created: map<Id, Start>
    var starting: map<nat, Start>
    var clock: int
    var lastSweep: int

    function View(): State
      reads this
    {
      State(containers, created, starting, clock, lastSweep)
    }

    ghost predicate Valid()
      reads this
    {
      Reachable(View(), timeout)
    }

    constructor (timeout: nat, at: int)
      ensures Valid() && View() == Init(at) && this.timeout == timeout
    {
      this.timeout := timeout;
      containers, created, starting, clock, lastSweep := map[], map[], map[], at, at;
      new;
      assert Run(Init(at), [], timeout) && After(Init(at), [], timeout) == View();
    }

    /** A time read under the lock. */
    method Now() returns (now: int)
      ensures now >= clock
    {
      now := *;
      if now < clock {
        now := clock;
      }
    }

    method Become(s: State)
      modifies this
      ensures View() == s
    {
      containers, created, starting, clock, lastSweep := s.containers, s.created, s.starting, s.clock, s.lastSweep;
    }

    /** Any steps of other requests and of the reaper, while request `mine` waits for the
        container `id` that it has named. */
    method Interfere(mine: nat, id: Id)
      requires Valid() && mine in starting && id !in created
      modifies this
      ensures Valid() && mine in starting && starting[mine] == old(starting)[mine] && id !in created
    {
      var events: nat := *;
      while events > 0
        invariant Valid() && mine in starting && starting[mine] == old(starting)[mine] && id !in created
      {
        events := events - 1;
        var l: Label := *;
        if OfOthers(l, mine, id) && Enabled(View(), l) {
          ReachableStep(View(), l, timeout);
          Become(Next(View(), l, timeout));
        }
      }
    }

    /** Another request's step; ids are unique, so it names no container `id`. */
    static predicate OfOthers(l: Label, mine: nat, id: Id) {
      match l
      case ReuseMiss(r, _, _, _) => r != mine
      case StartFailed(r, _) => r != mine
      case Insert(r, other, _) => r != mine && other != id
      case _ => true
    }

    /** A whole start: reuse the session's sandbox, refuse, or provision one named `id`
        while everything else goes on.  An id handed back names a sandbox created for this
        session with the access asked for. */
    method HandleStart(request: nat, key: string, network: Network, id: Id, dockerOk: bool)
      returns (answer: StartAnswer)
      requires Valid() && request !in starting && id !in created
      modifies this
      ensures Valid()
      ensures answer.Handed? ==> RightFor(View(), answer.id, key, network, clock)
      ensures answer.DockerFailed? ==> !dockerOk
      ensures answer.Refused? ==> network == PublicInternet && created == old(created)
    {
      var now := Now();
      var reuse := ReuseSession(request, key, network, now);
      match reuse {
        case Reuse(existing) =>
          return Handed(existing);
        case Refuse =>
          return Refused;
        case Provision =>
      }
      Interfere(request, id);
      now := Now();
      if !dockerOk {
        StartFails(request, now);
        return DockerFailed;
      }
      InsertContainer(request, key, network, id, now);
      return Handed(id);
    }

    /** First section of a start: hand back the session's sandbox when it has one. */
    method ReuseSession(request: nat, key: string, network: Network, now: int) returns (answer: ReuseAnswer)
      requires Valid() && clock <= now && request !in starting
      modifies this
      ensures Valid()
      ensures match answer
              case Reuse(id) =>
                && Enabled(old(View()), ReuseHit(key, network, id, now))
                && View() == Next(old(View()), ReuseHit(key, network, id, now), timeout)
                && RightFor(View(), id, key, network, now)
              case Refuse =>
                && network == PublicInternet && View() == old(View()).(clock := now)
                && exists id :: id in containers && containers[id].key == key && containers[id].network == NoNetwork
                             && Enabled(old(View()), ReuseRefused(key, id, now))
                             && View() == Next(old(View()), ReuseRefused(key, id, now), timeout)
              case Provision =>
                && (forall id :: id in containers ==> containers[id].key != key)
                && Enabled(old(View()), ReuseMiss(request, key, network, now))
                && View() == Next(old(View()), ReuseMiss(request, key, network, now), timeout)
    {
      var owners := OwnersOf(containers, key);
      NoOwners(View(), key);
      clock := now;
      if owners != {} {
        var id :| id in owners;
        if network == PublicInternet && containers[id].network == NoNetwork {
          assert Enabled(old(View()), ReuseRefused(key, id, now));
          ReachableStep(old(View()), ReuseRefused(key, id, now), timeout);
          return Refuse;
        }
        ReachableStep(old(View()), ReuseHit(key, network, id, now), timeout);
        HandedOut(old(View()), ReuseHit(key, network, id, now), timeout, key, network, id);
        containers := containers[id := Used(containers[id], now)];
        return Reuse(id);
      }
      ReachableStep(old(View()), ReuseMiss(request, key, network, now), timeout);
      starting := starting[request := Start(key, network)];
      return Provision;
    }

    /** Second section of a start, once Docker has made the container. */
    method InsertContainer(request: nat, key: string, network: Network, id: Id, now: int)
      requires Valid() && clock <= now
      requires request in starting && starting[request] == Start(key, network) && id !in created
      modifies this
      ensures Valid() && RightFor(View(), id, key, network, now)
      ensures Enabled(old(View()), Insert(request, id, now))
      ensures View() == Next(old(View()), Insert(request, id, now), timeout)
    {
      ReachableStep(View(), Insert(request, id, now), timeout);
      HandedOut(View(), Insert(request, id, now), timeout, key, network, id);
      clock := now;
      containers := containers[id := Container(NameOf(id), key, network, now)];
      created := created[id := Start(key, network)];
      starting := starting - {request};
    }

    /** Docker made no container. */
    method StartFails(request: nat, now: int)
      requires Valid() && clock <= now && request in starting
      modifies this
      ensures Valid() && Enabled(old(View()), StartFailed(request, now))
      ensures View() == Next(old(View()), StartFailed(request, now), timeout)
    {
      ReachableStep(View(), StartFailed(request, now), timeout);
      clock, starting := now, starting - {request};
    }

    method HandleTouch(key: string, now: int) returns (touched: nat)
      requires Valid() && clock <= now
      modifies this
      ensures Valid()
      ensures Enabled(old(View()), Touch(key, now)) && View() == Next(old(View()), Touch(key, now), timeout)
      ensures touched == |set id | id in old(containers) && old(containers)[id].key == key|
    {
      ReachableStep(View(), Touch(key, now), timeout);
      clock := now;
      touched := |set id | id in containers && containers[id].key == key|;
      containers := map id | id in containers ::
        if containers[id].key == key then Used(containers[id], now) else containers[id];
    }

    /** Resolve a sandbox and mark it as used. */
    method RequireSandbox(id: Id, now: int) returns (name: string, known: bool)
      requires Valid() && clock <= now
      modifies this
      ensures Valid() && (known <==> id in old(containers))
      ensures known ==> Enabled(old(View()), Require(id, now)) && View() == Next(old(View()), Require(id, now), timeout)
      ensures known ==> name == "housebot-sandbox-" + id
      ensures !known ==> View() == old(View())
    {
      if id !in containers { return "", false; }
      ReachableInv(View(), timeout);
      ReachableStep(View(), Require(id, now), timeout);
      clock := now;
      containers := containers[id := Used(containers[id], now)];
      return containers[id].name, true;
    }

    /** A close, or the end of a command that timed out. */
    method RemoveSandbox(id: Id, now: int) returns (known: bool)
      requires Valid() && clock <= now
      modifies this
      ensures Valid()
      ensures known <==> id in old(containers)
      ensures Enabled(old(View()), Remove(id, now)) && View() == Next(old(View()), Remove(id, now), timeout)
    {
      ReachableStep(View(), Remove(id, now), timeout);
      clock := now;
      known := id in containers;
      containers := containers - {id};
    }

    /** One sweep of the reaper: collect the expired sandboxes, then remove each. */
    method SweepIdle(now: int) returns (expired: set<string>)
      requires Valid() && clock <= now
      modifies this
      ensures Valid()
      ensures Enabled(old(View()), Sweep(now)) && View() == Next(old(View()), Sweep(now), timeout)
      ensures expired == set id | id in old(containers) && Expired(old(containers)[id], now, timeout)
      ensures forall id :: id in old(containers) ==>
                (id in containers <==> now - old(containers)[id].lastUsedAt < timeout)
    {
      ReachableStep(View(), Sweep(now), timeout);
      clock, lastSweep := now, now;
      expired := set id | id in containers && Expired(containers[id], now, timeout);
      RemoveAll(expired);
      SurvivorsAre(old(containers), now, timeout, expired);
    }

    method RemoveAll(ids: set<Id>)
      modifies `containers
      ensures containers == old(containers) - ids
    {
      var left := ids;
      while left != {}
        invariant left <= ids && containers == old(containers) - (ids - left)
        decreases |left|
      {
        var id :| id in left;
        RemoveOne(old(containers), ids, left, id);
        containers := containers - {id};
        left := left - {id};
      }
      assert ids - left == ids;
    }
  }
}
