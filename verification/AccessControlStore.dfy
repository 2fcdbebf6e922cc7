/** The access-control store: a cache in front of storage that may fail, updates that
    take turns, and loads that do not. */
module AccessProtocol {
  import opened Text

  datatype UserPolicy = UserPolicy(maxOutputTokens: Option<nat>, respond: bool)
  datatype AccessControl = AccessControl(configurerIds: set<nat>, userPolicies: map<nat, UserPolicy>)

  const DEFAULT := AccessControl({}, map[])
  const ACCESS_CACHE_TTL := 30_000_000_000 // nanoseconds

  type Mutation = AccessControl -> AccessControl

  datatype Stored = Absent | Garbled | Value(access: AccessControl)

  /** What a successful read makes of the stored bytes. */
  function Decode(s: Stored): AccessControl { if s.Value? then s.access else DEFAULT }

  datatype Snapshot = Snapshot(access: AccessControl, fetchedAt: int)

  /** Where a call of `update` or `load` stands. */
  datatype Phase =
    | Queued(f: Mutation)
    | Locked(f: Mutation)
    | Mutating(f: Mutation, read: AccessControl)
    | Saved(written: AccessControl)
    | Updated(ok: bool)
    | Checking
    | Fetching
    | Fetched(access: AccessControl)
    | FallingBack
    | Loaded(access: AccessControl)

  predicate Locking(p: Phase) { p.Locked? || p.Mutating? || p.Saved? }

  datatype State = State(
    storage: Stored, cache: Option<Snapshot>, writer: Option<nat>, calls: map<nat, Phase>,
    log: seq<Mutation>,         // the mutations that reached storage, in order
    held: set<AccessControl>)   // everything storage has held
  {
    predicate At(c: nat) { c in calls }
    function With(c: nat, p: Phase): State { this.(calls := calls[c := p]) }
    predicate Fresh(at: int) { cache.Some? && at - cache.value.fetchedAt < ACCESS_CACHE_TTL }
  }

  datatype Label =
    | BeginUpdate(c: nat, f: Mutation)
    | TakeLock(c: nat)
    | ReadForUpdate(c: nat, ok: bool)
    | Save(c: nat, ok: bool, reached: bool)
    | RefreshCache(c: nat, at: int)
    | BeginLoad(c: nat)
    | LookInCache(c: nat, at: int)
    | Fetch(c: nat, ok: bool)
    | Refill(c: nat, at: int)
    | FallBack(c: nat)

  predicate Enabled(s: State, l: Label) {
    match l
    case BeginUpdate(c, _) => c !in s.calls
    case TakeLock(c) => c in s.calls && s.calls[c].Queued? && s.writer == None
    case ReadForUpdate(c, _) => c in s.calls && s.calls[c].Locked?
    case Save(c, ok, reached) => c in s.calls && s.calls[c].Mutating? && (ok ==> reached)
    case RefreshCache(c, _) => c in s.calls && s.calls[c].Saved?
    case BeginLoad(c) => c !in s.calls
    case LookInCache(c, _) => c in s.calls && s.calls[c].Checking?
    case Fetch(c, _) => c in s.calls && s.calls[c].Fetching?
    case Refill(c, _) => c in s.calls && s.calls[c].Fetched?
    case FallBack(c) => c in s.calls && s.calls[c].FallingBack?
  }

  function Next(s: State, l: Label): State
    requires Enabled(s, l)
  {
    match l
    case BeginUpdate(c, f) => s.With(c, Queued(f))
    case TakeLock(c) => s.With(c, Locked(s.calls[c].f)).(writer := Some(c))
    case ReadForUpdate(c, ok) =>
      if ok then s.With(c, Mutating(s.calls[c].f, Decode(s.storage)))
      else s.With(c, Updated(false)).(writer := None)
    case Save(c, ok, reached) =>
      var f := s.calls[c].f;
      var b := f(s.calls[c].read);
      var t := if reached then s.(storage := Value(b), log := s.log + [f], held := s.held + {b}) else s;
      if ok then t.With(c, Saved(b)) else t.With(c, Updated(false)).(writer := None)
    case RefreshCache(c, at) =>
      s.With(c, Updated(true)).(cache := Some(Snapshot(s.calls[c].written, at)), writer := None)
    case BeginLoad(c) => s.With(c, Checking)
    case LookInCache(c, at) =>
      if s.Fresh(at) then s.With(c, Loaded(s.cache.value.access)) else s.With(c, Fetching)
    case Fetch(c, ok) => s.With(c, if ok then Fetched(Decode(s.storage)) else FallingBack)
    case Refill(c, at) =>
      s.With(c, Loaded(s.calls[c].access)).(cache := Some(Snapshot(s.calls[c].access, at)))
    case FallBack(c) =>
      s.With(c, Loaded(if s.cache.Some? then s.cache.value.access else DEFAULT))
  }

  function Init(storage: Stored): State { State(storage, None, None, map[], [], {Decode(storage)}) }

  ghost predicate Run(s: State, ls: seq<Label>)
    decreases |ls|
  {
    ls == [] || (Enabled(s, ls[0]) && Run(Next(s, ls[0]), ls[1..]))
  }

  ghost function After(s: State, ls: seq<Label>): State
    requires Run(s, ls)
    decreases |ls|
  {
    if ls == [] then s else After(Next(s, ls[0]), ls[1..])
  }

  lemma {:induction false} RunConcat(s: State, a: seq<Label>, b: seq<Label>)
    requires Run(s, a) && Run(After(s, a), b)
    ensures Run(s, a + b) && After(s, a + b) == After(After(s, a), b)
    decreases |a|
  {
    if a == [] {
      assert a + b == b;
    } else {
      RunConcat(Next(s, a[0]), a[1..], b);
      assert (a + b)[1..] == a[1..] + b;
    }
  }

  lemma RunSnoc(s: State, ls: seq<Label>, l: Label)
    requires Run(s, ls) && Enabled(After(s, ls), l)
    ensures Run(s, ls + [l]) && After(s, ls + [l]) == Next(After(s, ls), l)
  {
    assert Run(Next(After(s, ls), l), [l][1..]);
    RunConcat(s, ls, [l]);
  }

  // ---------------------------------------------------------------- what every run keeps

  /** The mutations applied one after another. */
  function Compose(log: seq<Mutation>, start: AccessControl): AccessControl {
    if log == [] then start else var f := log[|log| - 1]; f(Compose(log[..|log| - 1], start))
  }

  ghost predicate StorageOk(s: State, start: AccessControl) {
    Decode(s.storage) == Compose(s.log, start) && Decode(s.storage) in s.held
  }

  ghost predicate CacheOk(s: State) { s.cache.Some? ==> s.cache.value.access in s.held }

  ghost predicate LockOk(s: State) {
    forall c :: c in s.calls && Locking(s.calls[c]) ==> s.writer == Some(c)
  }

  /** What a call in progress knows of storage. */
  predicate PhaseOk(p: Phase, stored: AccessControl, held: set<AccessControl>) {
    match p
    case Mutating(_, read) => read == stored
    case Saved(written) => written == stored
    case Fetched(access) => access in held
    case Loaded(access) => access in held || access == DEFAULT
    case _ => true
  }

  ghost predicate CallsOk(s: State) {
    forall c :: c in s.calls ==> PhaseOk(s.calls[c], Decode(s.storage), s.held)
  }

  ghost predicate Inv(s: State, start: AccessControl) {
    StorageOk(s, start) && CacheOk(s) && LockOk(s) && CallsOk(s)
  }

  lemma ComposeSnoc(log: seq<Mutation>, f: Mutation, start: AccessControl)
    ensures Compose(log + [f], start) == f(Compose(log, start))
  {
    assert (log + [f])[..|log|] == log;
  }

  /** The state once a save by call `c` has reached storage. */
  function Written(s: State, f: Mutation, b: AccessControl): State {
    s.(storage := Value(b), log := s.log + [f], held := s.held + {b})
  }

  lemma WrittenStored(s: State, f: Mutation, start: AccessControl)
    requires StorageOk(s, start) && CacheOk(s)
    ensures StorageOk(Written(s, f, f(Decode(s.storage))), start) && CacheOk(Written(s, f, f(Decode(s.storage))))
  {
    ComposeSnoc(s.log, f, start);
  }

  /** Calls other than the one that holds the lock. */
  ghost predicate OthersOk(s: State, c: nat) {
    forall d :: d in s.calls && d != c ==> !Locking(s.calls[d]) && PhaseOk(s.calls[d], Decode(s.storage), s.held)
  }

  lemma WrittenOthers(s: State, c: nat, f: Mutation, b: AccessControl)
    requires LockOk(s) && CallsOk(s) && s.writer == Some(c)
    ensures OthersOk(s, c) && OthersOk(Written(s, f, b), c)
  {
    assert forall d :: d in s.calls && d != c ==> !Locking(s.calls[d]);
  }

  /** The call that holds the lock goes on, or is over. */
  lemma HolderMoves(s: State, c: nat, p: Phase)
    requires OthersOk(s, c) && PhaseOk(p, Decode(s.storage), s.held)
    ensures LockOk(s.With(c, p).(writer := Some(c))) && CallsOk(s.With(c, p).(writer := Some(c)))
    ensures !Locking(p) ==> LockOk(s.With(c, p).(writer := None)) && CallsOk(s.With(c, p).(writer := None))
  {
  }

  lemma InvSave(s: State, l: Label, start: AccessControl)
    requires Inv(s, start) && Enabled(s, l) && l.Save?
    ensures Inv(Next(s, l), start)
  {
    var c := l.c;
    var f := s.calls[c].f;
    var b := f(s.calls[c].read);
    var t := if l.reached then Written(s, f, b) else s;
    assert Locking(s.calls[c]) && s.writer == Some(c);
    WrittenStored(s, f, start);
    WrittenOthers(s, c, f, b);
    HolderMoves(t, c, if l.ok then Saved(b) else Updated(false));
  }

  lemma InvUpdateStep(s: State, l: Label, start: AccessControl)
    requires Inv(s, start) && Enabled(s, l)
    requires l.BeginUpdate? || l.TakeLock? || l.ReadForUpdate? || l.RefreshCache?
    ensures Inv(Next(s, l), start)
  {
  }

  lemma InvLoadStep(s: State, l: Label, start: AccessControl)
    requires Inv(s, start) && Enabled(s, l)
    requires l.BeginLoad? || l.LookInCache? || l.Fetch? || l.Refill? || l.FallBack?
    ensures Inv(Next(s, l), start)
  {
  }

  lemma InvStep(s: State, l: Label, start: AccessControl)
    requires Inv(s, start) && Enabled(s, l)
    ensures Inv(Next(s, l), start)
  {
    match l
    case Save(_, _, _) => InvSave(s, l, start);
    case BeginUpdate(_, _) => InvUpdateStep(s, l, start);
    case TakeLock(_) => InvUpdateStep(s, l, start);
    case ReadForUpdate(_, _) => InvUpdateStep(s, l, start);
    case RefreshCache(_, _) => InvUpdateStep(s, l, start);
    case _ => InvLoadStep(s, l, start);
  }

  lemma {:induction false} InvRun(s: State, ls: seq<Label>, start: AccessControl)
    requires Inv(s, start) && Run(s, ls)
    ensures Inv(After(s, ls), start)
    decreases |ls|
  {
    if ls != [] {
      InvStep(s, ls[0], start);
      InvRun(Next(s, ls[0]), ls[1..], start);
    }
  }

  /** However updates, loads and failures interleave: storage holds the composition, in
      lock order, of the mutations that reached it, and whatever a load returns is a
      value storage once held, or the default. */
  lemma StorageIsTheComposition(storage: Stored, ls: seq<Label>, c: nat)
    requires Run(Init(storage), ls)
    ensures var s := After(Init(storage), ls);
            && Decode(s.storage) == Compose(s.log, Decode(storage))
            && (c in s.calls && s.calls[c].Loaded? ==> s.calls[c].access in s.held || s.calls[c].access == DEFAULT)
  {
    InvRun(Init(storage), ls, Decode(storage));
  }

  /** No update is lost: a save applies its mutation to what storage holds at that very
      moment, and an update that could not read saves nothing. */
  lemma UpdatesAreAtomic(storage: Stored, ls: seq<Label>, l: Label)
    requires Run(Init(storage), ls) && Enabled(After(Init(storage), ls), l)
    ensures var s := After(Init(storage), ls);
            && (l.Save? && l.reached ==>
                  var f := s.calls[l.c].f;
                  Next(s, l).storage == Value(f(Decode(s.storage))) && Next(s, l).log == s.log + [f])
            && (!(l.Save? && l.reached) ==> Next(s, l).storage == s.storage && Next(s, l).log == s.log)
            && (l.ReadForUpdate? && !l.ok ==> Next(s, l).calls[l.c] == Updated(false))
  {
    InvRun(Init(storage), ls, Decode(storage));
  }

  // ---------------------------------------------------------------- the order of the lock

  function TakenBy(l: Label): seq<nat> { if l.TakeLock? then [l.c] else [] }
  function SavedBy(l: Label): seq<nat> { if ReachesStorage(l) then [l.c] else [] }

  /** The calls that took the lock, in order. */
  function Takers(ls: seq<Label>): seq<nat> {
    if ls == [] then [] else TakenBy(ls[0]) + Takers(ls[1..])
  }

  /** The calls whose save reached storage, in order. */
  function Savers(ls: seq<Label>): seq<nat> {
    if ls == [] then [] else SavedBy(ls[0]) + Savers(ls[1..])
  }

  function Asking(asked: map<nat, Mutation>, l: Label): map<nat, Mutation> {
    if l.BeginUpdate? then asked[l.c := l.f] else asked
  }

  /** What each update was asked to do. */
  function Asked(asked: map<nat, Mutation>, ls: seq<Label>): map<nat, Mutation>
    decreases |ls|
  {
    if ls == [] then asked else Asked(Asking(asked, ls[0]), ls[1..])
  }

  /** `part` is `whole` with some elements left out. */
  predicate InOrder(part: seq<nat>, whole: seq<nat>) {
    if part == [] then true
    else if whole == [] then false
    else if part[|part| - 1] == whole[|whole| - 1] then InOrder(part[..|part| - 1], whole[..|whole| - 1])
    else InOrder(part, whole[..|whole| - 1])
  }

  lemma InOrderBoth(part: seq<nat>, whole: seq<nat>, c: nat)
    requires InOrder(part, whole)
    ensures InOrder(part + [c], whole + [c])
  {
    assert (part + [c])[..|part|] == part && (whole + [c])[..|whole|] == whole;
  }

  lemma InOrderMore(part: seq<nat>, whole: seq<nat>, c: nat)
    requires InOrder(part, whole) && c !in part
    ensures InOrder(part, whole + [c])
  {
    assert (whole + [c])[..|whole|] == whole;
  }

  /** Holds the lock and has not saved. */
  predicate Holds(s: State, c: nat) { c in s.calls && (s.calls[c].Locked? || s.calls[c].Mutating?) }

  /** The lock was taken in the order `taken`, and saves followed it. */
  ghost predicate SavesFollow(s: State, taken: seq<nat>, saved: seq<nat>) {
    if s.writer.Some? && Holds(s, s.writer.value) then
      taken != [] && taken[|taken| - 1] == s.writer.value && InOrder(saved, taken[..|taken| - 1])
    else InOrder(saved, taken)
  }

  predicate Wants(p: Phase) { p.Queued? || p.Locked? || p.Mutating? }
  predicate Succeeded(p: Phase) { p.Saved? || p == Updated(true) }

  /** The log holds what the calls that saved were asked to do, once each. */
  ghost predicate LogFollows(s: State, asked: map<nat, Mutation>, saved: seq<nat>) {
    && asked.Keys <= s.calls.Keys
    && |saved| == |s.log| && (forall i :: 0 <= i < |saved| ==> saved[i] in asked && s.log[i] == asked[saved[i]])
    && (forall i, j :: 0 <= i < j < |saved| ==> saved[i] != saved[j])
    && (forall c :: c in s.calls && Wants(s.calls[c]) ==> c in asked && asked[c] == s.calls[c].f && c !in saved)
    && (forall c :: c in s.calls && Succeeded(s.calls[c]) ==> c in saved)
  }

  lemma LogFollowsSave(s: State, l: Label, asked: map<nat, Mutation>, saved: seq<nat>)
    requires LogFollows(s, asked, saved) && Enabled(s, l) && ReachesStorage(l)
    ensures LogFollows(Next(s, l), asked, saved + [l.c])
  {
    var t, c := Next(s, l), l.c;
    assert c !in saved && t.log == s.log + [asked[c]];
    assert forall d :: d in t.calls && d != c ==> d in s.calls && t.calls[d] == s.calls[d];
  }

  lemma LogFollowsBegin(s: State, l: Label, asked: map<nat, Mutation>, saved: seq<nat>)
    requires LogFollows(s, asked, saved) && Enabled(s, l) && l.BeginUpdate?
    ensures LogFollows(Next(s, l), asked[l.c := l.f], saved)
  {
    assert l.c !in asked;
  }

  lemma LogFollowsOther(s: State, l: Label, asked: map<nat, Mutation>, saved: seq<nat>)
    requires LogFollows(s, asked, saved) && Enabled(s, l) && !ReachesStorage(l) && !l.BeginUpdate?
    ensures LogFollows(Next(s, l), asked, saved)
  {
    var t, c := Next(s, l), l.c;
    assert t.log == s.log && t.calls == s.calls[c := t.calls[c]];
    CallGoesOn(s, t, c, asked, saved);
  }

  /** Only call `c` has moved, and it wants and has done no more than before. */
  lemma CallGoesOn(s: State, t: State, c: nat, asked: map<nat, Mutation>, saved: seq<nat>)
    requires LogFollows(s, asked, saved) && t.log == s.log
    requires c in t.calls && t.calls == s.calls[c := t.calls[c]]
    requires Wants(t.calls[c]) ==> c in s.calls && Wants(s.calls[c]) && t.calls[c].f == s.calls[c].f
    requires Succeeded(t.calls[c]) ==> c in s.calls && Succeeded(s.calls[c])
    ensures LogFollows(t, asked, saved)
  {
  }

  lemma LogFollowsStep(s: State, l: Label, asked: map<nat, Mutation>, saved: seq<nat>)
    requires LogFollows(s, asked, saved) && Enabled(s, l)
    ensures LogFollows(Next(s, l), Asking(asked, l), saved + SavedBy(l))
  {
    if ReachesStorage(l) {
      LogFollowsSave(s, l, asked, saved);
    } else if l.BeginUpdate? {
      LogFollowsBegin(s, l, asked, saved);
      assert saved + [] == saved;
    } else {
      LogFollowsOther(s, l, asked, saved);
      assert saved + [] == saved;
    }
  }

  /** The holder of the lock saves, or gives up, or only goes on. */
  lemma SaveFollows(s: State, c: nat, taken: seq<nat>, saved: seq<nat>)
    requires s.writer == Some(c) && Holds(s, c) && SavesFollow(s, taken, saved) && c !in saved
    ensures InOrder(saved, taken) && InOrder(saved + [c], taken)
  {
    var before := taken[..|taken| - 1];
    assert taken == before + [c];
    InOrderMore(saved, before, c);
    InOrderBoth(saved, before, c);
  }

  /** A step of some other call leaves the holder and what it does alone. */
  lemma HolderStays(s: State, l: Label, taken: seq<nat>, saved: seq<nat>)
    requires LockOk(s) && SavesFollow(s, taken, saved) && Enabled(s, l)
    requires !l.TakeLock? && !l.ReadForUpdate? && !l.Save? && !l.RefreshCache?
    ensures SavesFollow(Next(s, l), taken, saved)
  {
    var t := Next(s, l);
    assert t.writer == s.writer;
    if s.writer.Some? {
      assert Holds(t, s.writer.value) <==> Holds(s, s.writer.value);
    }
  }

  lemma LockTaken(s: State, l: Label, taken: seq<nat>, saved: seq<nat>)
    requires SavesFollow(s, taken, saved) && Enabled(s, l) && l.TakeLock?
    ensures SavesFollow(Next(s, l), taken + [l.c], saved)
  {
    assert (taken + [l.c])[..|taken|] == taken;
  }

  lemma HolderGoesOn(s: State, l: Label, taken: seq<nat>, saved: seq<nat>)
    requires LockOk(s) && SavesFollow(s, taken, saved) && Enabled(s, l)
    requires l.ReadForUpdate? || l.Save?
    requires l.c !in saved
    ensures SavesFollow(Next(s, l), taken, saved + SavedBy(l))
  {
    assert Locking(s.calls[l.c]) && s.writer == Some(l.c);
    SaveFollows(s, l.c, taken, saved);
    assert saved + [] == saved;
  }

  lemma LockGivenBack(s: State, l: Label, taken: seq<nat>, saved: seq<nat>)
    requires LockOk(s) && SavesFollow(s, taken, saved) && Enabled(s, l) && l.RefreshCache?
    ensures SavesFollow(Next(s, l), taken, saved)
  {
    assert Locking(s.calls[l.c]) && s.writer == Some(l.c) && !Holds(s, l.c);
  }

  lemma SavesFollowStep(s: State, l: Label, taken: seq<nat>, saved: seq<nat>)
    requires LockOk(s) && SavesFollow(s, taken, saved) && Enabled(s, l)
    requires l.c in s.calls && Wants(s.calls[l.c]) ==> l.c !in saved
    ensures SavesFollow(Next(s, l), taken + TakenBy(l), saved + SavedBy(l))
  {
    if l.ReadForUpdate? || l.Save? {
      NothingMore(taken);
      HolderGoesOn(s, l, taken, saved);
    } else {
      NothingMore(saved);
      if l.TakeLock? {
        LockTaken(s, l, taken, saved);
      } else {
        NothingMore(taken);
        LockUntouched(s, l, taken, saved);
      }
    }
  }

  lemma NothingMore(s: seq<nat>)
    ensures s + [] == s
  {
  }

  lemma LockUntouched(s: State, l: Label, taken: seq<nat>, saved: seq<nat>)
    requires LockOk(s) && SavesFollow(s, taken, saved) && Enabled(s, l)
    requires !l.TakeLock? && !l.ReadForUpdate? && !l.Save?
    ensures SavesFollow(Next(s, l), taken, saved)
  {
    if l.RefreshCache? {
      LockGivenBack(s, l, taken, saved);
    } else {
      HolderStays(s, l, taken, saved);
    }
  }

  lemma {:induction false} LogRun(s: State, ls: seq<Label>, asked: map<nat, Mutation>, saved: seq<nat>)
    requires LogFollows(s, asked, saved) && Run(s, ls)
    ensures LogFollows(After(s, ls), Asked(asked, ls), saved + Savers(ls))
    decreases |ls|
  {
    if ls == [] {
      assert saved + [] == saved;
    } else {
      var l, rest := ls[0], ls[1..];
      LogFollowsStep(s, l, asked, saved);
      LogRun(Next(s, l), rest, Asking(asked, l), saved + SavedBy(l));
      Regroup(saved, SavedBy(l), Savers(rest));
    }
  }

  lemma Regroup(a: seq<nat>, b: seq<nat>, c: seq<nat>)
    ensures a + b + c == a + (b + c)
  {
  }

  lemma WantsNotSaved(s: State, asked: map<nat, Mutation>, saved: seq<nat>, c: nat)
    requires LogFollows(s, asked, saved)
    ensures c in s.calls && Wants(s.calls[c]) ==> c !in saved
  {
  }

  lemma {:induction false} OrderRun(s: State, ls: seq<Label>, start: AccessControl,
                                    asked: map<nat, Mutation>, taken: seq<nat>, saved: seq<nat>)
    requires Inv(s, start) && LogFollows(s, asked, saved) && SavesFollow(s, taken, saved) && Run(s, ls)
    ensures SavesFollow(After(s, ls), taken + Takers(ls), saved + Savers(ls))
    decreases |ls|
  {
    if ls == [] {
      assert saved + [] == saved && taken + [] == taken;
    } else {
      var l, rest := ls[0], ls[1..];
      InvStep(s, l, start);
      LogFollowsStep(s, l, asked, saved);
      WantsNotSaved(s, asked, saved, l.c);
      SavesFollowStep(s, l, taken, saved);
      OrderRun(Next(s, l), rest, start, Asking(asked, l), taken + TakenBy(l), saved + SavedBy(l));
      Regroup(saved, SavedBy(l), Savers(rest));
      Regroup(taken, TakenBy(l), Takers(rest));
    }
  }

  lemma InOrderDrop(part: seq<nat>, whole: seq<nat>)
    requires whole != [] && InOrder(part, whole[..|whole| - 1]) && whole[|whole| - 1] !in part
    ensures InOrder(part, whole)
  {
  }

  /** What reached storage did so in the order of the lock: the log holds, once each, the
      mutations of calls that took the lock in that order, and every call that reported
      success is among them. */
  lemma SavesInLockOrder(storage: Stored, ls: seq<Label>)
    requires Run(Init(storage), ls)
    ensures var s, saved := After(Init(storage), ls), Savers(ls);
            && InOrder(saved, Takers(ls)) && LogFollows(s, Asked(map[], ls), saved)
            && forall c :: c in s.calls && s.calls[c] == Updated(true) ==> c in saved
  {
    var s, saved, taken := After(Init(storage), ls), Savers(ls), Takers(ls);
    LogRun(Init(storage), ls, map[], []);
    OrderRun(Init(storage), ls, Decode(storage), map[], [], []);
    assert [] + saved == saved && [] + taken == taken;
    SavesInOrder(s, Asked(map[], ls), taken, saved);
  }

  lemma SavesInOrder(s: State, asked: map<nat, Mutation>, taken: seq<nat>, saved: seq<nat>)
    requires SavesFollow(s, taken, saved) && LogFollows(s, asked, saved)
    ensures InOrder(saved, taken)
  {
    if s.writer.Some? && Holds(s, s.writer.value) {
      assert Wants(s.calls[s.writer.value]);
      InOrderDrop(saved, taken);
    }
  }

  // ---------------------------------------------------------------- how current the cache is

  /** The cache agrees with storage, or a save that will make it agree is under way. */
  ghost predicate Current(s: State) {
    (s.cache.Some? ==> s.cache.value.access == Decode(s.storage)) || RefreshPending(s)
  }

  ghost predicate RefreshPending(s: State) { exists c :: c in s.calls && s.calls[c].Saved? }

  predicate ReachesStorage(l: Label) { l.Save? && l.reached }

  /** In the schedule `ls` load `c` fetches as step `i`, a save reaches storage after that
      as step `j`, and storage is no longer what it was at the fetch. */
  ghost predicate Overtaken(start: State, ls: seq<Label>, c: nat, i: nat, j: nat)
    requires Run(start, ls)
  {
    && i < j < |ls| && ls[i] == Fetch(c, true) && ReachesStorage(ls[j])
    && Run(start, ls[..i]) && Decode(After(start, ls[..i]).storage) != Decode(After(start, ls).storage)
  }

  lemma PendingKept(s: State, l: Label)
    requires Enabled(s, l) && !l.RefreshCache? && RefreshPending(s)
    ensures RefreshPending(Next(s, l))
  {
    var c :| c in s.calls && s.calls[c].Saved?;
    assert c in Next(s, l).calls && Next(s, l).calls[c].Saved?;
  }

  /** A refill puts into the cache what was fetched. */
  lemma RefillStep(s: State, c: nat, at: int)
    requires Enabled(s, Refill(c, at))
    ensures Current(Next(s, Refill(c, at))) <==> s.calls[c].access == Decode(s.storage) || RefreshPending(s)
  {
    var t := Next(s, Refill(c, at));
    if RefreshPending(s) {
      PendingKept(s, Refill(c, at));
    }
    if d :| d in t.calls && t.calls[d].Saved? {
      assert d in s.calls && s.calls[d].Saved?;
    }
  }

  /** A call keeps what it fetched until it refills, and that only once. */
  lemma {:induction false} FetchedStays(s: State, ls: seq<Label>, c: nat)
    requires Run(s, ls) && c in s.calls && (s.calls[c].Fetched? || s.calls[c].Loaded?)
    requires c in After(s, ls).calls && After(s, ls).calls[c].Fetched?
    ensures s.calls[c] == After(s, ls).calls[c]
    decreases |ls|
  {
    if ls != [] {
      FetchedStays(Next(s, ls[0]), ls[1..], c);
    }
  }

  lemma RunFirst(s: State, ls: seq<Label>, i: nat)
    requires Run(s, ls) && 0 < i <= |ls| && Run(Next(s, ls[0]), ls[1..][..i - 1])
    ensures Run(s, ls[..i]) && After(s, ls[..i]) == After(Next(s, ls[0]), ls[1..][..i - 1])
  {
    assert ls[..i][0] == ls[0] && ls[..i][1..] == ls[1..][..i - 1];
  }

  /** What a load holds is what storage held at its fetch. */
  lemma {:induction false} FetchedThen(s: State, ls: seq<Label>, c: nat, i: nat)
    requires Run(s, ls) && i < |ls| && ls[i] == Fetch(c, true)
    requires c in After(s, ls).calls && After(s, ls).calls[c].Fetched?
    ensures Run(s, ls[..i]) && After(s, ls).calls[c].access == Decode(After(s, ls[..i]).storage)
    decreases |ls|
  {
    if i == 0 {
      FetchedStays(Next(s, ls[0]), ls[1..], c);
      assert ls[..0] == [];
    } else {
      FetchedThen(Next(s, ls[0]), ls[1..], c, i - 1);
      RunFirst(s, ls, i);
    }
  }

  lemma {:induction false} SomeFetch(s: State, ls: seq<Label>, c: nat) returns (i: nat)
    requires Run(s, ls) && !(c in s.calls && s.calls[c].Fetched?)
    requires c in After(s, ls).calls && After(s, ls).calls[c].Fetched?
    ensures i < |ls| && ls[i] == Fetch(c, true)
    decreases |ls|
  {
    if ls[0] == Fetch(c, true) {
      i := 0;
    } else {
      i := SomeFetch(Next(s, ls[0]), ls[1..], c);
      i := i + 1;
    }
  }

  /** Storage changes only by saves that reach it. */
  lemma {:induction false} SomeSave(s: State, ls: seq<Label>, i: nat) returns (j: nat)
    requires Run(s, ls) && i <= |ls| && Run(s, ls[..i])
    requires Decode(After(s, ls[..i]).storage) != Decode(After(s, ls).storage)
    ensures i <= j < |ls| && ReachesStorage(ls[j])
    decreases |ls|
  {
    if i == 0 && ReachesStorage(ls[0]) {
      j := 0;
    } else {
      var rest := if i == 0 then 0 else i - 1;
      assert i > 0 ==> ls[..i][1..] == ls[1..][..rest] && ls[..i][0] == ls[0];
      assert i == 0 ==> ls[..i] == [] && ls[1..][..rest] == [];
      j := SomeSave(Next(s, ls[0]), ls[1..], rest);
      j := j + 1;
    }
  }

  /** The refill of a load leaves the cache behind exactly when a save reached storage
      between that load's own fetch and the refill, storage now differs from what was
      fetched, and no refresh is pending. */
  lemma OvertakenRefill(storage: Stored, ls: seq<Label>, c: nat, at: int)
    requires Run(Init(storage), ls) && Enabled(After(Init(storage), ls), Refill(c, at))
    ensures !Current(Next(After(Init(storage), ls), Refill(c, at))) <==>
            && (exists i, j :: Overtaken(Init(storage), ls, c, i, j))
            && !RefreshPending(After(Init(storage), ls))
  {
    var start := Init(storage);
    var s := After(start, ls);
    RefillStep(s, c, at);
    var i := SomeFetch(start, ls, c);
    FetchedThen(start, ls, c, i);
    if s.calls[c].access != Decode(s.storage) {
      var j := SomeSave(start, ls, i);
      assert Overtaken(start, ls, c, i, j);
    }
    if i', j' :| Overtaken(start, ls, c, i', j') {
      FetchedThen(start, ls, c, i');
    }
  }

  /** A save that reports failure although it reached storage, with something else in the cache. */
  ghost predicate FailsAfterWriting(s: State, l: Label)
    requires Enabled(s, l)
  {
    l.Save? && !l.ok && l.reached && s.cache.Some?
    && (var f := s.calls[l.c].f; s.cache.value.access != f(Decode(s.storage)))
  }

  lemma OtherStep(s: State, l: Label, start: AccessControl)
    requires Inv(s, start) && Current(s) && Enabled(s, l) && !l.Refill?
    ensures Current(Next(s, l)) <==> !FailsAfterWriting(s, l)
  {
    var t := Next(s, l);
    if l.Save? {
      SaveStep(s, l, start);
    } else if RefreshPending(s) && !l.RefreshCache? {
      PendingKept(s, l);
    } else if l.RefreshCache? {
      assert t.cache.value.access == Decode(t.storage);
    }
  }

  lemma SaveStep(s: State, l: Label, start: AccessControl)
    requires Inv(s, start) && Current(s) && Enabled(s, l) && l.Save?
    ensures Current(Next(s, l)) <==> !FailsAfterWriting(s, l)
  {
    var t := Next(s, l);
    assert Locking(s.calls[l.c]);
    assert !RefreshPending(s);
    if l.ok {
      assert t.calls[l.c].Saved?;
    }
  }

  /** When the cache falls behind, in any run: only as an overtaken refill, or as a save
      that wrote and still failed. */
  lemma CacheStaysCurrent(storage: Stored, ls: seq<Label>, l: Label)
    requires Run(Init(storage), ls) && Enabled(After(Init(storage), ls), l) && Current(After(Init(storage), ls))
    ensures var s := After(Init(storage), ls);
            !Current(Next(s, l)) <==>
            || FailsAfterWriting(s, l)
            || (l.Refill? && (exists i, j :: Overtaken(Init(storage), ls, l.c, i, j)) && !RefreshPending(s))
  {
    if l.Refill? {
      OvertakenRefill(storage, ls, l.c, l.at);
    } else {
      InvRun(Init(storage), ls, Decode(storage));
      OtherStep(After(Init(storage), ls), l, Decode(storage));
    }
  }

  /** It does happen: a load fetches, an update completes, and the load's refill brings
      the older snapshot back, although a completed save is meant to be seen at once. */
  lemma StaleRefill(f: Mutation) returns (ls: seq<Label>)
    requires f(DEFAULT) != DEFAULT
    ensures Run(Init(Absent), ls) && After(Init(Absent), ls).calls == map[0 := Loaded(DEFAULT), 1 := Updated(true)]
    ensures !Current(After(Init(Absent), ls))
  {
    ls := LoadThenUpdate(f);
    var s := After(Init(Absent), ls);
    RunSnoc(Init(Absent), ls, Refill(0, 0));
    ls := ls + [Refill(0, 0)];
  }

  lemma LoadFetches() returns (ls: seq<Label>)
    ensures Run(Init(Absent), ls)
    ensures After(Init(Absent), ls) == Init(Absent).(calls := map[0 := Fetched(DEFAULT)])
  {
    var s := Init(Absent);
    ls := [];
    ls := Extend(s, ls, BeginLoad(0));
    ls := Extend(s, ls, LookInCache(0, 0));
    ls := Extend(s, ls, Fetch(0, true));
  }

  lemma LoadThenRead(f: Mutation) returns (ls: seq<Label>)
    ensures Run(Init(Absent), ls)
    ensures After(Init(Absent), ls) ==
            Init(Absent).(writer := Some(1), calls := map[0 := Fetched(DEFAULT), 1 := Mutating(f, DEFAULT)])
  {
    var s := Init(Absent);
    ls := LoadFetches();
    ls := Extend(s, ls, BeginUpdate(1, f));
    ls := Extend(s, ls, TakeLock(1));
    ls := Extend(s, ls, ReadForUpdate(1, true));
  }

  lemma LoadThenUpdate(f: Mutation) returns (ls: seq<Label>)
    ensures Run(Init(Absent), ls)
    ensures After(Init(Absent), ls) ==
            State(Value(f(DEFAULT)), Some(Snapshot(f(DEFAULT), 0)), None,
                  map[0 := Fetched(DEFAULT), 1 := Updated(true)], [f], {DEFAULT, f(DEFAULT)})
  {
    var s := Init(Absent);
    ls := LoadThenRead(f);
    ls := Extend(s, ls, Save(1, true, true));
    ls := Extend(s, ls, RefreshCache(1, 0));
  }

  lemma Extend(s: State, ls: seq<Label>, l: Label) returns (ls': seq<Label>)
    requires Run(s, ls) && Enabled(After(s, ls), l)
    ensures Run(s, ls') && After(s, ls') == Next(After(s, ls), l)
  {
    ls' := ls + [l];
    RunSnoc(s, ls, l);
  }
}

/** What loads answer, told by the labels of the run. */
module AccessAnswers {
  import opened Text
  import opened AccessProtocol

  lemma {:induction false} RunPrefix(s: State, ls: seq<Label>, n: nat)
    requires Run(s, ls) && n < |ls|
    ensures Run(s, ls[..n]) && Run(s, ls[..n + 1]) && Enabled(After(s, ls[..n]), ls[n])
    ensures After(s, ls[..n + 1]) == Next(After(s, ls[..n]), ls[n])
    decreases n
  {
    if n == 0 {
      var none: seq<Label> := [];
      assert ls[..0] == none && ls[..1][1..] == none && Run(Next(s, ls[0]), none);
    } else {
      RunPrefix(Next(s, ls[0]), ls[1..], n - 1);
      assert ls[..n][1..] == ls[1..][..n - 1] && ls[..n + 1][1..] == ls[1..][..n];
    }
  }

  /** The state after the first `n` steps. */
  ghost function StateAt(s: State, ls: seq<Label>, n: nat): State
    requires Run(s, ls) && n <= |ls|
  {
    if n < |ls| then RunPrefix(s, ls, n); After(s, ls[..n]) else After(s, ls)
  }

  lemma StateNext(s: State, ls: seq<Label>, n: nat)
    requires Run(s, ls) && n < |ls|
    ensures Enabled(StateAt(s, ls, n), ls[n]) && StateAt(s, ls, n + 1) == Next(StateAt(s, ls, n), ls[n])
  {
    RunPrefix(s, ls, n);
    assert n + 1 == |ls| ==> ls[..n + 1] == ls;
  }

  predicate FillsCache(l: Label) { l.Refill? || l.RefreshCache? }

  /** What a load fetched, or an update wrote, that step `l` puts into the cache. */
  function FilledWith(s: State, l: Label): AccessControl
    requires Enabled(s, l) && FillsCache(l)
  {
    if l.Refill? then s.calls[l.c].access else s.calls[l.c].written
  }

  /** Step `i` is the last of the first `n` to fill the cache. */
  ghost predicate LastFill(ls: seq<Label>, n: nat, i: nat)
    requires n <= |ls|
  {
    i < n && FillsCache(ls[i]) && forall j :: i < j < n ==> !FillsCache(ls[j])
  }

  ghost predicate NeverFilled(ls: seq<Label>, n: nat)
    requires n <= |ls|
  {
    forall j :: 0 <= j < n ==> !FillsCache(ls[j])
  }

  lemma FillOrNone(ls: seq<Label>, n: nat)
    requires n <= |ls|
    ensures NeverFilled(ls, n) || exists i: nat :: LastFill(ls, n, i)
  {
    if n > 0 {
      FillOrNone(ls, n - 1);
      if FillsCache(ls[n - 1]) {
        assert LastFill(ls, n, n - 1);
      } else if !NeverFilled(ls, n - 1) {
        var i: nat :| LastFill(ls, n - 1, i);
        assert LastFill(ls, n, i);
      }
    }
  }

  lemma CacheStep(s: State, l: Label)
    requires Enabled(s, l)
    ensures Next(s, l).cache == if FillsCache(l) then Some(Snapshot(FilledWith(s, l), l.at)) else s.cache
    ensures l.Refill? ==> Next(s, l).calls[l.c] == Loaded(FilledWith(s, l))
  {
  }

  /** What step `i` put into the cache. */
  ghost function Filled(storage: Stored, ls: seq<Label>, i: nat): Snapshot
    requires Run(Init(storage), ls) && i < |ls| && FillsCache(ls[i])
  {
    StateNext(Init(storage), ls, i);
    Snapshot(FilledWith(StateAt(Init(storage), ls, i), ls[i]), ls[i].at)
  }

  lemma FillNext(ls: seq<Label>, n: nat, i: nat)
    requires n < |ls|
    ensures LastFill(ls, n + 1, i) <==> if FillsCache(ls[n]) then i == n else LastFill(ls, n, i)
  {
  }

  /** The cache holds what the last of the steps that fill it put there. */
  lemma {:induction false} CacheIsLastFill(storage: Stored, ls: seq<Label>, n: nat)
    requires Run(Init(storage), ls) && n <= |ls|
    ensures NeverFilled(ls, n) ==> StateAt(Init(storage), ls, n).cache == None
    ensures forall i: nat :: LastFill(ls, n, i) ==>
              StateAt(Init(storage), ls, n).cache == Some(Filled(storage, ls, i))
    decreases n
  {
    if n == 0 {
      assert ls[..0] == [];
    } else {
      CacheIsLastFill(storage, ls, n - 1);
      StateNext(Init(storage), ls, n - 1);
      CacheStep(StateAt(Init(storage), ls, n - 1), ls[n - 1]);
      forall i: nat | LastFill(ls, n, i)
        ensures StateAt(Init(storage), ls, n).cache == Some(Filled(storage, ls, i)) {
        FillNext(ls, n - 1, i);
      }
    }
  }

  /** A load whose read failed answers what was last put into the cache, and the default
      only if nothing ever was, or if that is the default. */
  lemma FallsBackToLastFill(storage: Stored, ls: seq<Label>, c: nat)
    requires Run(Init(storage), ls) && Enabled(After(Init(storage), ls), FallBack(c))
    ensures var phase := Next(After(Init(storage), ls), FallBack(c)).calls[c];
            && (NeverFilled(ls, |ls|) ==> phase == Loaded(DEFAULT))
            && forall i: nat :: LastFill(ls, |ls|, i) ==> phase == Loaded(Filled(storage, ls, i).access)
    ensures NeverFilled(ls, |ls|) || exists i: nat :: LastFill(ls, |ls|, i)
  {
    CacheIsLastFill(storage, ls, |ls|);
    FillOrNone(ls, |ls|);
  }

  /** A load that looks at least thirty seconds after the cache was last filled, or before
      it ever was, goes to storage; any other answers what was put there. */
  lemma OldCacheIsPassedOver(storage: Stored, ls: seq<Label>, c: nat, at: int)
    requires Run(Init(storage), ls) && Enabled(After(Init(storage), ls), LookInCache(c, at))
    ensures var phase := Next(After(Init(storage), ls), LookInCache(c, at)).calls[c];
            && (NeverFilled(ls, |ls|) ==> phase == Fetching)
            && forall i: nat :: LastFill(ls, |ls|, i) ==>
                 phase == if at - ls[i].at >= 30_000_000_000 then Fetching
                          else Loaded(Filled(storage, ls, i).access)
  {
    CacheIsLastFill(storage, ls, |ls|);
  }

  /** Storage held `access` after some of the first `n` steps. */
  ghost predicate OnceStored(storage: Stored, ls: seq<Label>, n: nat, access: AccessControl)
    requires Run(Init(storage), ls) && n <= |ls|
  {
    exists k :: 0 <= k <= n && Decode(StateAt(Init(storage), ls, k).storage) == access
  }

  lemma {:induction false} HeldWasStored(storage: Stored, ls: seq<Label>, n: nat, access: AccessControl)
    requires Run(Init(storage), ls) && n <= |ls| && access in StateAt(Init(storage), ls, n).held
    ensures OnceStored(storage, ls, n, access)
    decreases n
  {
    if n == 0 {
      assert ls[..0] == [];
      assert Decode(StateAt(Init(storage), ls, 0).storage) == access;
    } else {
      StateNext(Init(storage), ls, n - 1);
      if access in StateAt(Init(storage), ls, n - 1).held {
        HeldWasStored(storage, ls, n - 1, access);
      } else {
        assert Decode(StateAt(Init(storage), ls, n).storage) == access;
      }
    }
  }

  /** From the first load or update that succeeds, whatever a load answers was once in
      storage: the default is made up no more. */
  lemma AnswersWereStored(storage: Stored, ls: seq<Label>, l: Label, i: nat)
    requires Run(Init(storage), ls) && i < |ls| && FillsCache(ls[i])
    requires Enabled(After(Init(storage), ls), l) && (l.FallBack? || l.LookInCache? || l.Refill?)
    ensures var phase := Next(After(Init(storage), ls), l).calls[l.c];
            if l.LookInCache? && phase.Fetching? then true
            else phase.Loaded? && OnceStored(storage, ls, |ls|, phase.access)
  {
    var s := After(Init(storage), ls);
    InvRun(Init(storage), ls, Decode(storage));
    CacheIsLastFill(storage, ls, |ls|);
    FillOrNone(ls, |ls|);
    var phase := Next(s, l).calls[l.c];
    if phase.Loaded? {
      assert phase.access in s.held;
      HeldWasStored(storage, ls, |ls|, phase.access);
    }
  }
}

/** The store object; between any two of its steps other calls may run. */
module AccessStore {
  import opened Text
  import opened AccessProtocol

  class AccessControlStore {
    var storage: Stored
    var cache: Option<Snapshot>
    var writer: Option<nat>
    /** The other side of the bargain: every call in progress, and the history. */
    var calls: map<nat, Phase>
    var log: seq<Mutation>
    var held: set<AccessControl>

    function View(): State
      reads this
    {
      State(storage, cache, writer, calls, log, held)
    }

    ghost predicate Took(before: State, ls: seq<Label>)
      reads this
    {
      Run(before, ls) && After(before, ls) == View()
    }

    constructor (stored: Stored)
      ensures View() == Init(stored)
    {
      storage, cache, writer, calls, log, held := stored, None, None, map[], [], {Decode(stored)};
    }

    method Become(s: State)
      modifies this
      ensures View() == s
    {
      storage, cache, writer, calls, log, held := s.storage, s.cache, s.writer, s.calls, s.log, s.held;
    }

    /** Any steps of any calls other than `me`. */
    method Interfere(me: nat, ghost before: State, ghost ls: seq<Label>) returns (ghost ls': seq<Label>)
      requires Took(before, ls)
      modifies this
      ensures Took(before, ls') && ls <= ls'
      ensures (me in old(calls) <==> me in calls) && (me in calls ==> calls[me] == old(calls)[me])
    {
      ls' := ls;
      var events: nat := *;
      while events > 0
        invariant Took(before, ls') && ls <= ls'
        invariant (me in old(calls) <==> me in calls) && (me in calls ==> calls[me] == old(calls)[me])
      {
        events := events - 1;
        var l: Label := *;
        if l.c != me && Enabled(View(), l) {
          RunSnoc(before, ls', l);
          ls' := ls' + [l];
          Become(Next(View(), l));
        }
      }
    }

    /** An update, which looks `patience` times whether the write lock is free, with any
        number of steps of other calls before each look.  It ends unless some call has
        the lock at the last of them.  `readOk`, `saveOk` and `reached` say how storage
        behaves. */
    method Update(c: nat, f: Mutation, readOk: bool, saveOk: bool, reached: bool, now: int, patience: nat)
      returns (outcome: Option<bool>, ghost ls: seq<Label>)
      requires c !in calls
      modifies this
      ensures Took(old(View()), ls) && c in calls
      ensures calls[c] == if outcome.None? then Queued(f) else Updated(outcome.value)
      ensures outcome.None? && patience > 0 ==> writer.Some?
      ensures outcome.Some? ==> outcome.value == (readOk && saveOk)
      ensures outcome == Some(true) ==> Save(c, true, true) in ls
    {
      ghost var before := View();
      ls := Step(before, [], BeginUpdate(c, f));
      calls := calls[c := Queued(f)];
      outcome := None;
      var tries := 0;
      while outcome.None? && tries < patience
        invariant Took(before, ls) && c in calls
        invariant calls[c] == if outcome.None? then Queued(f) else Updated(outcome.value)
        invariant outcome.None? && tries > 0 ==> writer.Some?
        invariant outcome.Some? ==> outcome.value == (readOk && saveOk)
        invariant outcome == Some(true) ==> Save(c, true, true) in ls
        decreases patience - tries
      {
        outcome, ls := WaitAndUpdate(c, f, readOk, saveOk, reached, now, before, ls);
        tries := tries + 1;
      }
    }

    /** After any steps of others, take the lock if it is free, and carry the update out. */
    method WaitAndUpdate(c: nat, f: Mutation, readOk: bool, saveOk: bool, reached: bool, now: int,
                         ghost before: State, ghost ls: seq<Label>)
      returns (outcome: Option<bool>, ghost ls': seq<Label>)
      requires Took(before, ls) && c in calls && calls[c] == Queued(f)
      modifies this
      ensures Took(before, ls') && c in calls
      ensures calls[c] == if outcome.None? then Queued(f) else Updated(outcome.value)
      ensures outcome.None? ==> writer.Some?
      ensures outcome.Some? ==> outcome.value == (readOk && saveOk)
      ensures outcome == Some(true) ==> Save(c, true, true) in ls'
    {
      ls' := Interfere(c, before, ls);
      if writer.Some? {
        return None, ls';
      }
      ls' := Step(before, ls', TakeLock(c));
      writer, calls := Some(c), calls[c := Locked(f)];
      var ok;
      ok, ls' := UpdateLocked(c, f, readOk, saveOk, reached, now, before, ls');
      outcome := Some(ok);
    }

    method UpdateLocked(c: nat, f: Mutation, readOk: bool, saveOk: bool, reached: bool, now: int,
                        ghost before: State, ghost ls: seq<Label>)
      returns (ok: bool, ghost ls': seq<Label>)
      requires Took(before, ls) && c in calls && calls[c] == Locked(f)
      modifies this
      ensures Took(before, ls') && ok == (readOk && saveOk) && c in calls && calls[c] == Updated(ok)
      ensures ok ==> Save(c, true, true) in ls'
    {
      ls' := Interfere(c, before, ls);
      ls' := Step(before, ls', ReadForUpdate(c, readOk));
      if !readOk {
        writer, calls := None, calls[c := Updated(false)];
        return false, ls';
      }
      var access := Decode(storage);
      calls := calls[c := Mutating(f, access)];
      ls' := Interfere(c, before, ls');
      ok, ls' := SaveAndRefresh(c, f, access, saveOk, reached, now, before, ls');
    }

    method SaveAndRefresh(c: nat, f: Mutation, read: AccessControl, saveOk: bool, reached: bool, now: int,
        ghost before: State, ghost ls: seq<Label>)
      returns (ok: bool, ghost ls': seq<Label>)
      requires Took(before, ls) && c in calls && calls[c] == Mutating(f, read)
      modifies this
      ensures Took(before, ls') && ok == saveOk && c in calls && calls[c] == Updated(ok)
      ensures ok ==> Save(c, true, true) in ls'
    {
      var access := f(read);
      ls' := Step(before, ls, Save(c, saveOk, saveOk || reached));
      if saveOk || reached {
        storage, log, held := Value(access), log + [f], held + {access};
      }
      if !saveOk {
        writer, calls := None, calls[c := Updated(false)];
        return false, ls';
      }
      calls := calls[c := Saved(access)];
      assert ls'[|ls|] == Save(c, true, true);
      ls' := Refresh(c, access, now, before, ls');
      assert ls'[|ls|] == Save(c, true, true);
      ok := true;
    }

    method Refresh(c: nat, access: AccessControl, now: int, ghost before: State, ghost ls: seq<Label>)
      returns (ghost ls': seq<Label>)
      requires Took(before, ls) && c in calls && calls[c] == Saved(access)
      modifies this
      ensures Took(before, ls') && ls <= ls' && c in calls && calls[c] == Updated(true)
    {
      ls' := Interfere(c, before, ls);
      ls' := Step(before, ls', RefreshCache(c, now));
      cache, writer, calls := Some(Snapshot(access, now)), None, calls[c := Updated(true)];
    }

    /** A load: the cache while it is fresh, else storage, else the last known snapshot. */
    method Load(c: nat, lookedAt: int, readOk: bool, now: int) returns (access: AccessControl, ghost ls: seq<Label>)
      requires c !in calls
      modifies this
      ensures Took(old(View()), ls) && c in calls && calls[c] == Loaded(access)
      ensures readOk ==> cache.Some?
      ensures access == if cache.Some? then cache.value.access else DEFAULT
    {
      ghost var before := View();
      ls := [];
      ls := Step(before, ls, BeginLoad(c));
      calls := calls[c := Checking];
      ls := Interfere(c, before, ls);
      ls := Step(before, ls, LookInCache(c, lookedAt));
      if cache.Some? && lookedAt - cache.value.fetchedAt < ACCESS_CACHE_TTL {
        access := cache.value.access;
        calls := calls[c := Loaded(access)];
        return;
      }
      calls := calls[c := Fetching];
      ls := Interfere(c, before, ls);
      access, ls := FetchFresh(c, readOk, now, before, ls);
    }

    method FetchFresh(c: nat, readOk: bool, now: int, ghost before: State, ghost ls: seq<Label>)
      returns (access: AccessControl, ghost ls': seq<Label>)
      requires Took(before, ls) && c in calls && calls[c] == Fetching
      modifies this
      ensures Took(before, ls') && c in calls && calls[c] == Loaded(access)
      ensures readOk ==> access == Decode(old(storage)) && cache == Some(Snapshot(access, now))
      ensures !readOk ==> access == if cache.Some? then cache.value.access else DEFAULT
    {
      ls' := Step(before, ls, Fetch(c, readOk));
      if readOk {
        access := Decode(storage);
        calls := calls[c := Fetched(access)];
        ls' := Interfere(c, before, ls');
        ls' := Step(before, ls', Refill(c, now));
        cache, calls := Some(Snapshot(access, now)), calls[c := Loaded(access)];
      } else {
        calls := calls[c := FallingBack];
        ls' := Interfere(c, before, ls');
        ls' := Step(before, ls', FallBack(c));
        access := if cache.Some? then cache.value.access else DEFAULT;
        calls := calls[c := Loaded(access)];
      }
    }

    /** Record the step `l`, which the code that follows carries out. */
    ghost method Step(before: State, ls: seq<Label>, l: Label) returns (ls': seq<Label>)
      requires Took(before, ls) && Enabled(View(), l)
      ensures ls' == ls + [l] && Run(before, ls') && After(before, ls') == Next(View(), l)
    {
      ls' := ls + [l];
      RunSnoc(before, ls, l);
    }
  }
}
