/** What the scheduler promises, over every interleaving of its threads. */
module LlmSchedulerTheorems {
  import opened Counting
  import opened LlmSchedulerProtocol

  ghost predicate Reachable(s: State) {
    exists max, ls :: max > 0 && Run(Init(max), ls) && After(Init(max), ls) == s
  }

  lemma ReachableInv(s: State)
    requires Reachable(s)
    ensures Inv(s)
  {
    var max, ls :| max > 0 && Run(Init(max), ls) && After(Init(max), ls) == s;
    InvInit(max);
    InvRun(Init(max), ls);
  }

  // ---------------------------------------------------------------- slots

  lemma {:induction false} SomeCounted<T>(s: seq<T>, f: T -> bool) returns (i: nat)
    requires CountIf(s, f) > 0
    ensures i < |s| && f(s[i])
    decreases |s|
  {
    i := |s| - 1;
    if !f(s[i]) {
      i := SomeCounted(s[..|s| - 1], f);
    }
  }

  lemma {:induction false} CountedIsPositive<T>(s: seq<T>, i: nat, f: T -> bool)
    requires i < |s| && f(s[i])
    ensures CountIf(s, f) > 0
    decreases |s|
  {
    if i < |s| - 1 {
      CountedIsPositive(s[..|s| - 1], i, f);
    }
  }

  /** `inflight` counts the live permits, so no release underflows it; a free slot
      seen under the lock means nobody is queued; and no live waiter loses its sender. */
  lemma SlotsAreConserved(s: State)
    requires Reachable(s)
    ensures s.inflight == LivePermits(s) >= 0
    ensures forall w :: Enabled(s, Release(w)) ==> Next(s, Release(w)).inflight >= 0
    ensures s.pc == Unlocked && s.CanAdmit() ==> s.chat == [] && s.background == []
    ensures NoneStranded(s)
  {
    ReachableInv(s);
    forall w | Enabled(s, Release(w)) ensures s.inflight > 0 {
      CountedIsPositive(s.tickets, w, HoldsSlot);
    }
  }

  /** While anyone waits, somebody holds a permit whose release will serve the queue. */
  lemma WaitersWaitOnAPermit(s: State, w: nat) returns (holder: nat)
    requires Reachable(s) && s.pc == Unlocked && s.In(w, Waiting)
    ensures holder < |s.tickets| && HoldsSlot(s.tickets[holder])
  {
    ReachableInv(s);
    assert w in s.Queue(s.tickets[w].priority);
    holder := SomeCounted(s.tickets, HoldsSlot);
  }

  /** Only a grant raises `inflight`, and only from below the ceiling: a surplus left
      by a lowered ceiling drains and never grows. */
  lemma OnlyBelowCeiling(s: State, l: Label)
    requires Reachable(s) && Enabled(s, l)
    ensures Next(s, l).inflight > s.inflight ==>
              s.inflight < s.maxInflight == Next(s, l).maxInflight && Next(s, l).inflight == s.inflight + 1
  {
    ReachableInv(s);
  }

  /** The largest ceiling in force at some point of a run. */
  ghost function HighestCeiling(s: State, ls: seq<Label>): int
    requires Run(s, ls)
    decreases |ls|
  {
    if ls == [] then s.maxInflight
    else var rest := HighestCeiling(Next(s, ls[0]), ls[1..]);
         if rest > s.maxInflight then rest else s.maxInflight
  }

  lemma {:induction false} NeverAboveTheCeiling(s: State, ls: seq<Label>)
    requires Inv(s) && Run(s, ls)
    ensures After(s, ls).inflight <= s.inflight || After(s, ls).inflight <= HighestCeiling(s, ls)
    decreases |ls|
  {
    if ls != [] {
      InvStep(s, ls[0]);
      NeverAboveTheCeiling(Next(s, ls[0]), ls[1..]);
    }
  }

  /** From a fresh scheduler, live permits never outnumber the highest ceiling so far. */
  lemma PermitsBounded(max: int, ls: seq<Label>)
    requires max > 0 && Run(Init(max), ls)
    ensures LivePermits(After(Init(max), ls)) <= HighestCeiling(Init(max), ls)
  {
    InvInit(max);
    InvRun(Init(max), ls);
    NeverAboveTheCeiling(Init(max), ls);
    CeilingAtLeastFirst(Init(max), ls);
  }

  lemma CeilingAtLeastFirst(s: State, ls: seq<Label>)
    requires Run(s, ls)
    ensures HighestCeiling(s, ls) >= s.maxInflight
  {
  }

  // ---------------------------------------------------------------- order

  /** `l` gives a slot to `w`: at once on arrival, or through its channel. */
  predicate Grants(s: State, l: Label, w: nat) {
    (l.AcquireFast? && w == |s.tickets|) || (l.Send? && s.pc == Sending(w) && s.In(w, Waiting))
  }

  /** A grant goes to the oldest live waiter of the highest class that has one, and a
      request that need not queue overtakes nobody. */
  lemma GrantsInOrder(s: State, l: Label, w: nat, v: nat)
    requires Reachable(s) && Enabled(s, l) && Grants(s, l, w)
    requires v != w && s.In(v, Waiting)
    ensures l.Send?
    ensures s.tickets[w].priority == s.tickets[v].priority ==> w < v
    ensures s.tickets[w].priority == Background ==> s.tickets[v].priority == Background
  {
    ReachableInv(s);
    assert v in s.Queue(s.tickets[v].priority);
  }

  // ---------------------------------------------------------------- pump terminates

  /** Steps enough for `n` queued senders, each looked at once for every one ahead of it. */
  function Budget(n: nat): nat { if n == 0 then 0 else Budget(n - 1) + 2 * n + 4 }

  function Measure(s: State): nat {
    var n := |s.chat| + |s.background|;
    match s.pc
    case Unlocked => 0
    case Checking => Budget(n) + n + 4
    case Sending(_) => Budget(n) + n + 5
    case Scanning(p, at) =>
      var left := |s.Queue(p)| - at + if p == UserChat then |s.background| + 1 else 0;
      Budget(n) + 1 + if left < 0 then 0 else left
  }

  lemma ScanRemovesDecreases(s: State, p: Priority, at: nat)
    requires s.pc == Scanning(p, at) && at < |s.Queue(p)| && s.Closed(s.Queue(p)[at])
    ensures Measure(Next(s, Scan)) < Measure(s)
  {
    var q, n := s.Queue(p), |s.chat| + |s.background|;
    var q' := q[..at] + q[at + 1..];
    assert Next(s, Scan) == s.WithQueue(p, q') && |q'| == |q| - 1;
    assert Budget(n) == Budget(n - 1) + 2 * n + 4;
  }

  lemma ScanPopsDecreases(s: State, p: Priority, at: nat)
    requires s.pc == Scanning(p, at) && at == |s.Queue(p)| > 0
    ensures Measure(Next(s, Scan)) < Measure(s)
  {
    var q, n := s.Queue(p), |s.chat| + |s.background|;
    assert Next(s, Scan) == s.WithQueue(p, q[1..]).(inflight := s.inflight + 1, pc := Sending(q[0]));
    assert Budget(n) == Budget(n - 1) + 2 * n + 4;
  }

  lemma ScanStepDecreases(s: State)
    requires Inv(s) && s.pc.Scanning?
    ensures Measure(Next(s, Scan)) < Measure(s)
  {
    var p, at := s.pc.priority, s.pc.at;
    var q := s.Queue(p);
    if at < |q| && s.Closed(q[at]) {
      ScanRemovesDecreases(s, p, at);
    } else if at == |q| && q != [] {
      ScanPopsDecreases(s, p, at);
    }
  }

  lemma PumpStepDecreases(s: State, l: Label)
    requires Inv(s) && Enabled(s, l) && PumpStep(l)
    ensures Measure(Next(s, l)) < Measure(s)
  {
    if l == Scan {
      ScanStepDecreases(s);
    }
  }

  lemma InterferenceKeepsMeasure(s: State, l: Label)
    requires Enabled(s, l) && Interference(l)
    ensures Measure(Next(s, l)) == Measure(s)
  {
  }

  /** However waiters are cancelled or served meanwhile, a pump takes at most
      `Measure` steps; and until it unlocks it always has a next one. */
  lemma {:induction false} PumpTerminates(s: State, ls: seq<Label>)
    requires Inv(s) && Run(s, ls)
    requires forall l :: l in ls ==> PumpStep(l) || Interference(l)
    ensures CountIf(ls, PumpStep) <= Measure(s)
    ensures After(s, ls).pc != Unlocked ==> exists l :: PumpStep(l) && Enabled(After(s, ls), l)
    decreases |ls|
  {
    if ls == [] {
      match s.pc
      case Unlocked =>
      case Checking => assert Enabled(s, Check);
      case Scanning(_, _) => assert Enabled(s, Scan);
      case Sending(_) => assert Enabled(s, Send);
    } else {
      InvStep(s, ls[0]);
      PumpTerminates(Next(s, ls[0]), ls[1..]);
      CountFirst(ls, PumpStep);
      if PumpStep(ls[0]) {
        PumpStepDecreases(s, ls[0]);
      } else {
        InterferenceKeepsMeasure(s, ls[0]);
      }
    }
  }

  // ---------------------------------------------------------------- bounded waiting

  predicate Live(t: Ticket) { t.phase == Waiting }

  /** Live waiters with a claim before ticket `w`: those of its class that arrived earlier,
      and for a background request every user-chat waiter as well. */
  function Before(ts: seq<Ticket>, w: nat): nat
    requires w < |ts|
  {
    if ts[w].priority == UserChat then CountIf(ts[..w], LiveChat)
    else CountIf(ts[..w], Live) + CountIf(ts[w + 1..], LiveChat)
  }

  function Ahead(s: State, w: nat): nat
    requires w < |s.tickets|
  {
    Before(s.tickets, w)
  }

  /** Ticket `v` is to be served before ticket `w`. */
  predicate Precedes(ts: seq<Ticket>, v: nat, w: nat)
    requires v < |ts| && w < |ts|
  {
    if ts[v].priority == ts[w].priority then v < w else ts[v].priority == UserChat
  }

  predicate QueuesChat(l: Label) { l == AcquireQueue(UserChat) }

  /** How many requests a run queues before ticket `w` although they come later. */
  function Overtaken(s: State, ls: seq<Label>, w: nat): nat
    requires w < |s.tickets|
  {
    if s.tickets[w].priority == Background then CountIf(ls, QueuesChat) else 0
  }

  /** Slots below the ceiling, counting one the pump has reserved; negative while there is a surplus. */
  function FreeSlots(s: State): int {
    s.maxInflight - s.inflight + if s.pc.Sending? then 1 else 0
  }

  predicate IsRelease(l: Label) { l.Release? }

  function LoweredBy(s: State, l: Label): nat {
    if l.SetCeiling? && l.max < s.maxInflight then s.maxInflight - l.max else 0
  }

  /** By how much a run lowers the ceiling, all told. */
  ghost function Lowered(s: State, ls: seq<Label>): nat
    requires Run(s, ls)
    decreases |ls|
  {
    if ls == [] then 0 else LoweredBy(s, ls[0]) + Lowered(Next(s, ls[0]), ls[1..])
  }

  lemma BeforeArrival(ts: seq<Ticket>, t: Ticket, w: nat)
    requires w < |ts|
    ensures Before(ts + [t], w) == Before(ts, w) + if ts[w].priority == Background && LiveChat(t) then 1 else 0
  {
    assert (ts + [t])[..w] == ts[..w];
    assert (ts + [t])[w + 1..] == ts[w + 1..] + [t];
    CountAppend(ts[w + 1..], t, LiveChat);
  }

  /** The end of one wait among the first `w` tickets, or behind ticket `w`. */
  lemma EndAmong(ts: seq<Ticket>, v: nat, t: Ticket, w: nat, f: Ticket -> bool)
    requires v < |ts| && w < |ts| && v != w && !f(t)
    ensures CountIf(ts[v := t][..w], f) == CountIf(ts[..w], f) - if v < w && f(ts[v]) then 1 else 0
    ensures CountIf(ts[v := t][w + 1..], f) == CountIf(ts[w + 1..], f) - if v > w && f(ts[v]) then 1 else 0
  {
    if v < w {
      CountUpdate(ts[..w], v, t, f);
      assert ts[v := t][..w] == ts[..w][v := t] && ts[v := t][w + 1..] == ts[w + 1..];
    } else {
      CountUpdate(ts[w + 1..], v - w - 1, t, f);
      assert ts[v := t][w + 1..] == ts[w + 1..][v - w - 1 := t] && ts[v := t][..w] == ts[..w];
    }
  }

  lemma BeforeEnd(ts: seq<Ticket>, v: nat, t: Ticket, w: nat)
    requires v < |ts| && w < |ts| && v != w && !Live(t)
    ensures Before(ts[v := t], w) == Before(ts, w) - if Live(ts[v]) && Precedes(ts, v, w) then 1 else 0
  {
    EndAmong(ts, v, t, w, LiveChat);
    EndAmong(ts, v, t, w, Live);
  }

  /** A step adds a ticket, or ends the wait of one, or changes none. */
  datatype Change = Arrival(t: Ticket) | End(v: nat, t: Ticket) | Same

  function ChangeBy(s: State, l: Label): Change
    requires Enabled(s, l)
  {
    match l
    case AcquireFast(p) => Arrival(Ticket(p, Held))
    case AcquireQueue(p) => Arrival(Ticket(p, Waiting))
    case Cancel(w) => End(w, Next(s, l).tickets[w])
    case Receive(w) => End(w, Next(s, l).tickets[w])
    case Drop(w) => End(w, Next(s, l).tickets[w])
    case Release(w) => End(w, Next(s, l).tickets[w])
    case Send => if s.Closed(s.pc.to) then Same else End(s.pc.to, Next(s, l).tickets[s.pc.to])
    case _ => Same
  }

  lemma ChangeIs(s: State, l: Label)
    requires Enabled(s, l)
    ensures match ChangeBy(s, l)
            case Arrival(t) => Next(s, l).tickets == s.tickets + [t] && (LiveChat(t) <==> QueuesChat(l))
            case End(v, t) => v < |s.tickets| && !Live(t) && Next(s, l).tickets == s.tickets[v := t] && !QueuesChat(l)
            case Same => Next(s, l).tickets == s.tickets && !QueuesChat(l)
  {
  }

  /** Nobody but user-chat requests gets in before a waiter, and whoever is granted goes. */
  lemma AheadStep(s: State, l: Label, w: nat)
    requires Enabled(s, l) && w < |s.tickets|
    requires ChangeBy(s, l).End? ==> ChangeBy(s, l).v != w
    ensures w < |Next(s, l).tickets|
    ensures Ahead(Next(s, l), w) == Ahead(s, w) + Overtaken(s, [l], w) -
              match ChangeBy(s, l)
              case End(v, _) => if Live(s.tickets[v]) && Precedes(s.tickets, v, w) then 1 else 0
              case _ => 0
  {
    ChangeIs(s, l);
    OneLabel(l);
    match ChangeBy(s, l)
    case Arrival(t) => BeforeArrival(s.tickets, t, w);
    case End(v, t) => BeforeEnd(s.tickets, v, t, w);
    case Same =>
  }

  lemma OneLabel(l: Label)
    ensures CountIf([l], QueuesChat) == if QueuesChat(l) then 1 else 0
  {
    assert [l][..0] == [];
  }

  lemma WaiterUntouched(s: State, l: Label, w: nat)
    requires Enabled(s, l) && w < |s.tickets| && Next(s, l).In(w, Waiting)
    ensures ChangeBy(s, l).End? ==> ChangeBy(s, l).v != w
  {
  }

  /** A waiter granted before `w` precedes it. */
  lemma SentPrecedes(s: State, w: nat)
    requires Inv(s) && s.pc.Sending? && s.In(w, Waiting) && s.pc.to != w
    ensures Precedes(s.tickets, s.pc.to, w)
  {
    assert w in s.Queue(s.tickets[w].priority);
  }

  /** Every release moves a waiting request one place nearer its slot. */
  lemma PotentialStep(s: State, l: Label, w: nat)
    requires Inv(s) && Enabled(s, l) && s.In(w, Waiting) && Next(s, l).In(w, Waiting)
    ensures Ahead(Next(s, l), w) - FreeSlots(Next(s, l)) + (if l.Release? then 1 else 0)
         <= Ahead(s, w) - FreeSlots(s) + LoweredBy(s, l) + Overtaken(s, [l], w)
  {
    WaiterUntouched(s, l, w);
    AheadStep(s, l, w);
    if l.Send? && s.pc.to != w {
      SentPrecedes(s, w);
    }
    assert w in s.Queue(s.tickets[w].priority) || s.pc == Sending(w);
  }

  lemma StillWaiting(s: State, l: Label, w: nat)
    requires Enabled(s, l) && w < |s.tickets| && Next(s, l).In(w, Waiting)
    ensures s.In(w, Waiting) && Next(s, l).tickets[w].priority == s.tickets[w].priority
  {
  }

  lemma TicketsNeverShrink(s: State, l: Label, w: nat)
    requires Enabled(s, l) && w < |s.tickets|
    ensures w < |Next(s, l).tickets| && Next(s, l).tickets[w].priority == s.tickets[w].priority
    ensures l != Cancel(w) && s.tickets[w].phase != Abandoned ==> Next(s, l).tickets[w].phase != Abandoned
  {
  }

  lemma {:induction false} WaitingSince(s: State, ls: seq<Label>, w: nat)
    requires Run(s, ls) && w < |s.tickets| && After(s, ls).In(w, Waiting)
    ensures s.In(w, Waiting) && w < |After(s, ls).tickets|
    decreases |ls|
  {
    if ls != [] {
      TicketsNeverShrink(s, ls[0], w);
      WaitingSince(Next(s, ls[0]), ls[1..], w);
      StillWaiting(s, ls[0], w);
    }
  }

  lemma {:induction false} PotentialRun(s: State, ls: seq<Label>, w: nat)
    requires Inv(s) && Run(s, ls) && w < |s.tickets| && After(s, ls).In(w, Waiting)
    ensures Ahead(After(s, ls), w) - FreeSlots(After(s, ls)) + CountIf(ls, IsRelease)
         <= Ahead(s, w) - FreeSlots(s) + Lowered(s, ls) + Overtaken(s, ls, w)
    decreases |ls|
  {
    if ls != [] {
      InvStep(s, ls[0]);
      TicketsNeverShrink(s, ls[0], w);
      WaitingSince(Next(s, ls[0]), ls[1..], w);
      StillWaiting(s, ls[0], w);
      PotentialStep(s, ls[0], w);
      PotentialRun(Next(s, ls[0]), ls[1..], w);
      CountFirst(ls, IsRelease);
      CountFirst(ls, QueuesChat);
      OneLabel(ls[0]);
    }
  }

  lemma {:induction false} NeverAbandoned(s: State, ls: seq<Label>, w: nat)
    requires Run(s, ls) && w < |s.tickets| && s.tickets[w].phase != Abandoned && Cancel(w) !in ls
    ensures w < |After(s, ls).tickets| && After(s, ls).tickets[w].phase != Abandoned
    decreases |ls|
  {
    if ls != [] {
      TicketsNeverShrink(s, ls[0], w);
      NeverAbandoned(Next(s, ls[0]), ls[1..], w);
    }
  }

  lemma WaitingMeansFull(s: State, w: nat)
    requires Inv(s) && s.pc == Unlocked && s.In(w, Waiting)
    ensures s.inflight >= s.maxInflight
  {
    assert w in s.Queue(s.tickets[w].priority);
  }

  /** A queued request that nobody cancels is granted by the time the permits released
      outnumber the waiters with a claim before it, the surplus over the ceiling at the
      start, what the ceiling was lowered by since, and, if it is a background request, the
      user-chat requests queued since. */
  lemma BoundedWaiting(s: State, ls: seq<Label>, w: nat)
    requires Reachable(s) && s.pc == Unlocked && s.In(w, Waiting)
    requires Run(s, ls) && After(s, ls).pc == Unlocked && Cancel(w) !in ls
    requires CountIf(ls, IsRelease)
           > Ahead(s, w) + Overtaken(s, ls, w) + (s.inflight - s.maxInflight) + Lowered(s, ls)
    ensures w < |After(s, ls).tickets| && After(s, ls).tickets[w].phase in {Sent, Held, Dropping, Released}
  {
    ReachableInv(s);
    InvRun(s, ls);
    NeverAbandoned(s, ls, w);
    if After(s, ls).tickets[w].phase == Waiting {
      WaitingMeansFull(After(s, ls), w);
      PotentialRun(s, ls, w);
    }
  }
}
