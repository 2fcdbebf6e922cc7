/** The permit protocol of the LLM scheduler, as steps of the threads that share it.

    The scheduler's fields change only under its lock, but the one-shot channels
    that connect it to its waiters do not: a waiter may be cancelled, or receive
    its permit, between any two instructions of `pump`.  `pump` is therefore cut
    into the micro-steps `Check`, `Scan` and `Send`, and every other step may
    fall between them unless it needs the lock. */
module LlmSchedulerProtocol {
  import opened Counting

  datatype Priority = UserChat | Background

  /** What has become of one call of `acquire`. */
  datatype Phase =
    | Waiting    // its sender is queued and its receiver is alive
    | Abandoned  // cancelled before any permit was sent
    | Sent       // a permit lies in its channel
    | Held       // its owner has the permit
    | Dropping   // the permit is being dropped and wants the lock
    | Released   // the permit has given its slot back

  /** Tickets are numbered in order of arrival. */
  datatype Ticket = Ticket(priority: Priority, phase: Phase)

  /** Where the holder of the lock stands inside `pump`. */
  datatype Pc =
    | Unlocked
    | Checking                             // about to test `can_admit`
    | Scanning(priority: Priority, at: nat) // inside `retain`, about to look at entry `at`
    | Sending(to: nat)                     // popped `to`, slot reserved, about to send

  datatype State = State(
    maxInflight: int, inflight: int, chat: seq<nat>, background: seq<nat>,
    tickets: seq<Ticket>, pc: Pc)
  {
    predicate CanAdmit() { inflight < maxInflight }

    function Queue(p: Priority): seq<nat> {
      match p case UserChat => chat case Background => background
    }

    function WithQueue(p: Priority, q: seq<nat>): State {
      match p case UserChat => this.(chat := q) case Background => this.(background := q)
    }

    predicate In(w: nat, phase: Phase) { w < |tickets| && tickets[w].phase == phase }

    /** A closed sender: its receiver is gone. */
    predicate Closed(w: nat) { w < |tickets| && tickets[w].phase != Waiting }

    function WithPhase(w: nat, phase: Phase): State
      requires w < |tickets|
    {
      this.(tickets := tickets[w := tickets[w].(phase := phase)])
    }
  }

  predicate HoldsSlot(t: Ticket) { t.phase in {Sent, Held, Dropping} }

  predicate LiveChat(t: Ticket) { t == Ticket(UserChat, Waiting) }

  datatype Label =
    | AcquireFast(p: Priority)
    | AcquireQueue(p: Priority)
    | Cancel(w: nat)
    | Receive(w: nat)
    | Drop(w: nat)
    | Release(w: nat)
    | SetCeiling(max: int)
    | Check
    | Scan
    | Send

  /** Steps that need neither the lock nor the scheduler's fields. */
  predicate Interference(l: Label) { l.Cancel? || l.Receive? || l.Drop? }

  predicate PumpStep(l: Label) { l.Check? || l.Scan? || l.Send? }

  predicate Enabled(s: State, l: Label) {
    match l
    case AcquireFast(_) => s.pc == Unlocked && s.CanAdmit()
    case AcquireQueue(_) => s.pc == Unlocked && !s.CanAdmit()
    case Cancel(w) => s.In(w, Waiting) || s.In(w, Sent)
    case Receive(w) => s.In(w, Sent)
    case Drop(w) => s.In(w, Held)
    case Release(w) => s.pc == Unlocked && s.In(w, Dropping)
    case SetCeiling(max) => s.pc == Unlocked && max > 0
    case Check => s.pc == Checking
    case Scan => s.pc.Scanning?
    case Send => s.pc.Sending? && s.pc.to < |s.tickets|
  }

  function Next(s: State, l: Label): State
    requires Enabled(s, l)
  {
    match l
    case AcquireFast(p) =>
      s.(inflight := s.inflight + 1, tickets := s.tickets + [Ticket(p, Held)])
    case AcquireQueue(p) =>
      s.WithQueue(p, s.Queue(p) + [|s.tickets|]).(tickets := s.tickets + [Ticket(p, Waiting)])
    case Cancel(w) =>
      // Dropping a receiver closes the channel, and drops the permit inside it.
      s.WithPhase(w, if s.In(w, Waiting) then Abandoned else Dropping)
    case Receive(w) => s.WithPhase(w, Held)
    case Drop(w) => s.WithPhase(w, Dropping)
    case Release(w) => s.WithPhase(w, Released).(inflight := s.inflight - 1, pc := Checking)
    case SetCeiling(max) => s.(maxInflight := max, pc := Checking)
    case Check => s.(pc := if s.CanAdmit() then Scanning(UserChat, 0) else Unlocked)
    case Scan => ScanNext(s, s.pc.priority, s.pc.at)
    case Send => SendNext(s, s.pc.to)
  }

  /** One entry of `retain`, or what follows it once the queue is scanned. */
  function ScanNext(s: State, p: Priority, at: nat): State {
    var q := s.Queue(p);
    if at < |q| then
      if s.Closed(q[at]) then s.WithQueue(p, q[..at] + q[at + 1..])
      else s.(pc := Scanning(p, at + 1))
    else if q != [] then
      s.WithQueue(p, q[1..]).(inflight := s.inflight + 1, pc := Sending(q[0]))
    else if p == UserChat then s.(pc := Scanning(Background, 0))
    else s.(pc := Unlocked)
  }

  /** `tx.send(permit)`: a closed channel hands the permit back and the slot is reclaimed. */
  function SendNext(s: State, w: nat): State
    requires w < |s.tickets|
  {
    if s.Closed(w) then s.(inflight := s.inflight - 1, pc := Checking)
    else s.WithPhase(w, Sent).(pc := Checking)
  }

  function Init(max: int): State { State(max, 0, [], [], [], Unlocked) }

  // ---------------------------------------------------------------- runs

  ghost predicate Run(s: State, ls: seq<Label>)
    decreases |ls|
  {
    ls == [] || (Enabled(s, ls[0]) && Run(Next(s, ls[0]), ls[1..]))
  }

  ghost function After(s: State, ls: seq<Label>): State
    requires Run(s, ls)
    decreases |ls|
  {
    if ls == [] then s else After(Next(s, ls[0]), ls[1..])
  }

  lemma {:induction false} RunConcat(s: State, a: seq<Label>, b: seq<Label>)
    requires Run(s, a) && Run(After(s, a), b)
    ensures Run(s, a + b) && After(s, a + b) == After(After(s, a), b)
    decreases |a|
  {
    if a == [] {
      assert a + b == b;
    } else {
      RunConcat(Next(s, a[0]), a[1..], b);
      assert (a + b)[1..] == a[1..] + b;
    }
  }

  // ---------------------------------------------------------------- invariant

  ghost predicate Ascending(q: seq<nat>) {
    forall i, j :: 0 <= i < j < |q| ==> q[i] < q[j]
  }

  ghost predicate QueueOk(s: State, p: Priority) {
    var q := s.Queue(p);
    && Ascending(q)
    && forall w :: w in q ==>
         w < |s.tickets| && s.tickets[w].priority == p && s.tickets[w].phase in {Waiting, Abandoned}
  }

  /** No live waiter's sender is ever dropped unsent. */
  ghost predicate NoneStranded(s: State) {
    forall w :: 0 <= w < |s.tickets| && s.tickets[w].phase == Waiting ==>
      w in s.Queue(s.tickets[w].priority) || s.pc == Sending(w)
  }

  ghost predicate PcOk(s: State) {
    match s.pc
    case Unlocked => s.CanAdmit() ==> s.chat == [] && s.background == []
    case Checking => true
    case Scanning(p, at) => s.CanAdmit() && at <= |s.Queue(p)| && (p == Background ==> s.chat == [])
    case Sending(w) =>
      && s.inflight <= s.maxInflight
      && w < |s.tickets| && s.tickets[w].phase in {Waiting, Abandoned}
      && (forall v :: v in s.Queue(s.tickets[w].priority) ==> w < v)
      && (s.tickets[w].priority == Background ==> s.chat == [])
  }

  /** Permits that exist: held, in a channel, being dropped, or in the pump's hand. */
  function LivePermits(s: State): int {
    CountIf(s.tickets, HoldsSlot) + if s.pc.Sending? then 1 else 0
  }

  ghost predicate Inv(s: State) {
    && s.maxInflight > 0
    && s.inflight == LivePermits(s)
    && QueueOk(s, UserChat) && QueueOk(s, Background)
    && NoneStranded(s)
    && PcOk(s)
  }

  lemma InvInit(max: int)
    requires max > 0
    ensures Inv(Init(max))
  {
  }

  lemma InvAcquireFast(s: State, p: Priority)
    requires Inv(s) && Enabled(s, AcquireFast(p))
    ensures Inv(Next(s, AcquireFast(p)))
  {
    CountAppend(s.tickets, Ticket(p, Held), HoldsSlot);
  }

  lemma QueueGrows(s: State, p: Priority, q: seq<nat>)
    requires QueueOk(s, p) && q == s.Queue(p)
    ensures Ascending(q + [|s.tickets|])
    ensures forall w :: w in q + [|s.tickets|] <==> w in q || w == |s.tickets|
  {
    forall i, j | 0 <= i < j < |q + [|s.tickets|]| ensures (q + [|s.tickets|])[i] < (q + [|s.tickets|])[j] {
      assert q[i] in q;
    }
  }

  lemma InvAcquireQueue(s: State, p: Priority)
    requires Inv(s) && Enabled(s, AcquireQueue(p))
    ensures Inv(Next(s, AcquireQueue(p)))
  {
    var t := Ticket(p, Waiting);
    var s' := Next(s, AcquireQueue(p));
    CountAppend(s.tickets, t, HoldsSlot);
    QueueGrows(s, p, s.Queue(p));
    assert s'.Queue(p) == s.Queue(p) + [|s.tickets|];
    assert s'.tickets == s.tickets + [t];
    AddWaiter(s, p, s'.Queue(p), s');
  }

  lemma AddWaiter(s: State, p: Priority, q: seq<nat>, s': State)
    requires QueueOk(s, UserChat) && QueueOk(s, Background) && NoneStranded(s)
    requires s' == s.WithQueue(p, q).(tickets := s.tickets + [Ticket(p, Waiting)])
    requires Ascending(q) && forall w :: w in q <==> w in s.Queue(p) || w == |s.tickets|
    ensures QueueOk(s', UserChat) && QueueOk(s', Background) && NoneStranded(s')
  {
  }

  /** A ticket moves on: if it was queued, only to being abandoned. */
  lemma PhaseChange(s: State, w: nat, phase: Phase)
    requires QueueOk(s, UserChat) && QueueOk(s, Background) && NoneStranded(s)
    requires w < |s.tickets| && phase != Waiting
    requires s.tickets[w].phase in {Waiting, Abandoned} ==> phase == Abandoned
    ensures var s' := s.WithPhase(w, phase); QueueOk(s', UserChat) && QueueOk(s', Background) && NoneStranded(s')
    ensures LivePermits(s.WithPhase(w, phase)) == LivePermits(s)
              - (if HoldsSlot(s.tickets[w]) then 1 else 0) + (if phase in {Sent, Held, Dropping} then 1 else 0)
  {
    CountUpdate(s.tickets, w, s.tickets[w].(phase := phase), HoldsSlot);
  }

  lemma InvInterference(s: State, l: Label)
    requires Inv(s) && Enabled(s, l) && Interference(l)
    ensures Inv(Next(s, l))
  {
    PhaseChange(s, l.w, Next(s, l).tickets[l.w].phase);
  }

  lemma InvRelease(s: State, w: nat)
    requires Inv(s) && Enabled(s, Release(w))
    ensures Inv(Next(s, Release(w)))
  {
    PhaseChange(s, w, Released);
    var s' := s.WithPhase(w, Released);
    assert Next(s, Release(w)) == s'.(inflight := s.inflight - 1, pc := Checking);
    assert s'.Queue(UserChat) == s.chat && s'.Queue(Background) == s.background;
  }

  lemma InvSetCeiling(s: State, max: int)
    requires Inv(s) && Enabled(s, SetCeiling(max))
    ensures Inv(Next(s, SetCeiling(max)))
  {
  }

  lemma InvSend(s: State)
    requires Inv(s) && Enabled(s, Send)
    ensures Inv(Next(s, Send))
  {
    var w := s.pc.to;
    CountUpdate(s.tickets, w, s.tickets[w].(phase := Sent), HoldsSlot);
    assert w !in s.chat && w !in s.background;
  }

  /** Removing entry `at` keeps an ascending queue and loses no other entry. */
  lemma RemoveAt(q: seq<nat>, at: nat)
    requires at < |q| && Ascending(q)
    ensures Ascending(q[..at] + q[at + 1..])
    ensures forall w :: w in q[..at] + q[at + 1..] ==> w in q
    ensures forall w :: w in q && w != q[at] ==> w in q[..at] + q[at + 1..]
  {
    var q' := q[..at] + q[at + 1..];
    forall w | w in q && w != q[at] ensures w in q' {
      var k :| 0 <= k < |q| && q[k] == w;
      if k < at { assert q'[k] == w; } else { assert q'[k - 1] == w; }
    }
  }

  /** Taking `gone` out of one queue strands nobody else. */
  lemma ShrinkQueue(s: State, p: Priority, q': seq<nat>, gone: nat)
    requires QueueOk(s, UserChat) && QueueOk(s, Background) && NoneStranded(s) && s.pc.Scanning?
    requires Ascending(q')
    requires forall w :: w in q' ==> w in s.Queue(p)
    requires forall w :: w in s.Queue(p) && w != gone ==> w in q'
    ensures QueueOk(s.WithQueue(p, q'), UserChat) && QueueOk(s.WithQueue(p, q'), Background)
    ensures forall w :: 0 <= w < |s.tickets| && s.tickets[w].phase == Waiting && w != gone ==>
              w in s.WithQueue(p, q').Queue(s.tickets[w].priority)
  {
  }

  lemma InvScanRemove(s: State)
    requires Inv(s) && s.pc.Scanning?
    requires s.pc.at < |s.Queue(s.pc.priority)| && s.Closed(s.Queue(s.pc.priority)[s.pc.at])
    ensures Inv(Next(s, Scan))
  {
    var p, at := s.pc.priority, s.pc.at;
    var q := s.Queue(p);
    var q' := q[..at] + q[at + 1..];
    RemoveAt(q, at);
    ShrinkQueue(s, p, q', q[at]);
    var s' := s.WithQueue(p, q');
    assert Next(s, Scan) == s';
    assert |q'| == |q| - 1;
    assert NoneStranded(s');
  }

  lemma InvPopped(s: State, w: nat, q': seq<nat>)
    requires Inv(s) && s.pc.Scanning?
    requires w in s.Queue(s.pc.priority) && Ascending(q')
    requires forall v :: v in q' ==> v in s.Queue(s.pc.priority) && w < v
    requires forall v :: v in s.Queue(s.pc.priority) && v != w ==> v in q'
    ensures Inv(s.WithQueue(s.pc.priority, q').(inflight := s.inflight + 1, pc := Sending(w)))
  {
    ShrinkQueue(s, s.pc.priority, q', w);
  }

  lemma TailOf(q: seq<nat>)
    requires q != [] && Ascending(q)
    ensures Ascending(q[1..]) && q[0] in q
    ensures forall v :: v in q[1..] ==> v in q && q[0] < v
    ensures forall v :: v in q && v != q[0] ==> v in q[1..]
  {
    assert q == [q[0]] + q[1..];
  }

  lemma InvScanPop(s: State)
    requires Inv(s) && s.pc.Scanning?
    requires s.pc.at >= |s.Queue(s.pc.priority)| && s.Queue(s.pc.priority) != []
    ensures Inv(Next(s, Scan))
  {
    var q := s.Queue(s.pc.priority);
    TailOf(q);
    InvPopped(s, q[0], q[1..]);
  }

  lemma InvScan(s: State)
    requires Inv(s) && Enabled(s, Scan)
    ensures Inv(Next(s, Scan))
  {
    var p, at := s.pc.priority, s.pc.at;
    var q := s.Queue(p);
    if at < |q| && s.Closed(q[at]) {
      InvScanRemove(s);
    } else if at >= |q| && q != [] {
      InvScanPop(s);
    }
  }

  lemma InvStep(s: State, l: Label)
    requires Inv(s) && Enabled(s, l)
    ensures Inv(Next(s, l))
  {
    match l
    case AcquireFast(p) => InvAcquireFast(s, p);
    case AcquireQueue(p) => InvAcquireQueue(s, p);
    case Release(w) => InvRelease(s, w);
    case SetCeiling(max) => InvSetCeiling(s, max);
    case Check =>
    case Scan => InvScan(s);
    case Send => InvSend(s);
    case _ => InvInterference(s, l);
  }

  lemma {:induction false} InvRun(s: State, ls: seq<Label>)
    requires Inv(s) && Run(s, ls)
    ensures Inv(After(s, ls))
    decreases |ls|
  {
    if ls != [] {
      InvStep(s, ls[0]);
      InvRun(Next(s, ls[0]), ls[1..]);
    }
  }
}
