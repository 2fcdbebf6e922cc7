/** The scheduler object.  Every method runs under its lock and is proved to be a run
    of the protocol, whatever the waiters do to their channels meanwhile. */
module LlmSchedulerObject {
  import opened LlmSchedulerProtocol
  import opened LlmSchedulerTheorems

  lemma RunSnoc(s: State, ls: seq<Label>, l: Label)
    requires Run(s, ls) && Enabled(After(s, ls), l)
    ensures Run(s, ls + [l]) && After(s, ls + [l]) == Next(After(s, ls), l)
  {
    var t := After(s, ls);
    assert Run(Next(t, l), [l][1..]);
    RunConcat(s, ls, [l]);
  }

  lemma ReachableAfter(s: State, ls: seq<Label>)
    requires Reachable(s) && Run(s, ls)
    ensures Reachable(After(s, ls))
  {
    var max, ks :| max > 0 && Run(Init(max), ks) && After(Init(max), ks) == s;
    RunConcat(Init(max), ks, ls);
  }

  lemma EntryInRange(before: State, ls: seq<Label>, s: State, p: Priority, i: nat)
    requires Reachable(before) && Run(before, ls) && After(before, ls) == s && i < |s.Queue(p)|
    ensures s.Queue(p)[i] < |s.tickets|
  {
    ReachableAfter(before, ls);
    ReachableInv(s);
    assert s.Queue(p)[i] in s.Queue(p);
  }

  class LlmScheduler {
    var maxInflight: int
    var inflight: int
    var chat: seq<nat>
    var background: seq<nat>
    /** The one-shot channels of all requests so far; waiters use them without the lock. */
    var channels: seq<Ticket>

    ghost function At(pc: Pc): State
      reads this
    {
      State(maxInflight, inflight, chat, background, channels, pc)
    }

    ghost predicate Valid()
      reads this
    {
      Reachable(At(Unlocked))
    }

    /** The object went from `before` to program point `pc` by the steps `ls`. */
    ghost predicate Took(before: State, ls: seq<Label>, pc: Pc)
      reads this
    {
      Run(before, ls) && After(before, ls) == At(pc)
    }

    static ghost predicate LockHeld(ls: seq<Label>) {
      forall l :: l in ls ==> PumpStep(l) || Interference(l)
    }

    constructor (max: int)
      requires max > 0
      ensures At(Unlocked) == Init(max) && Valid()
    {
      maxInflight, inflight, chat, background, channels := max, 0, [], [], [];
      new;
      assert Run(Init(max), []) && After(Init(max), []) == At(Unlocked);
    }

    method Acquire(p: Priority) returns (w: nat)
      requires Valid()
      modifies this
      ensures Valid() && w == old(|channels|)
      ensures At(Unlocked) == Next(old(At(Unlocked)),
                                   if old(inflight < maxInflight) then AcquireFast(p) else AcquireQueue(p))
      ensures old(inflight) < maxInflight ==>
                && channels == old(channels) + [Ticket(p, Held)] && inflight == old(inflight) + 1
                && chat == old(chat) && background == old(background)
      ensures old(inflight) >= maxInflight ==>
                && channels == old(channels) + [Ticket(p, Waiting)] && inflight == old(inflight)
                && chat == (if p == UserChat then old(chat) + [w] else old(chat))
                && background == (if p == Background then old(background) + [w] else old(background))
    {
      ghost var ls := [if inflight < maxInflight then AcquireFast(p) else AcquireQueue(p)];
      RunSnoc(At(Unlocked), [], ls[0]);
      assert [] + ls == ls;
      ReachableAfter(At(Unlocked), ls);
      w := |channels|;
      if inflight < maxInflight {
        inflight := inflight + 1;
        channels := channels + [Ticket(p, Held)];
        return;
      }
      if p == UserChat { chat := chat + [w]; } else { background := background + [w]; }
      channels := channels + [Ticket(p, Waiting)];
    }

    /** The drop of ticket `w`'s permit, once it has the lock. */
    method Release(w: nat) returns (ghost ls: seq<Label>)
      requires Valid() && At(Unlocked).In(w, Dropping)
      modifies this
      ensures Valid() && Took(old(At(Unlocked)), [Label.Release(w)] + ls, Unlocked) && LockHeld(ls)
    {
      ghost var before := At(Unlocked);
      channels := channels[w := channels[w].(phase := Released)];
      inflight := inflight - 1;
      RunSnoc(before, [], Label.Release(w));
      assert [] + [Label.Release(w)] == [Label.Release(w)];
      ls := Pump(before, [Label.Release(w)]);
    }

    method SetMaxInflight(max: int) returns (ghost ls: seq<Label>)
      requires Valid() && max > 0
      modifies this
      ensures Valid() && Took(old(At(Unlocked)), [SetCeiling(max)] + ls, Unlocked) && LockHeld(ls)
      ensures maxInflight == max
    {
      ghost var before := At(Unlocked);
      maxInflight := max;
      RunSnoc(before, [], SetCeiling(max));
      assert [] + [SetCeiling(max)] == [SetCeiling(max)];
      ls := Pump(before, [SetCeiling(max)]);
    }

    /** Hand free slots to queued waiters, highest priority first. */
    method Pump(ghost before: State, ghost first: seq<Label>) returns (ghost ls: seq<Label>)
      requires Reachable(before) && Took(before, first, Checking)
      modifies `inflight, `chat, `background, `channels
      ensures Valid() && Took(before, first + ls, Unlocked) && LockHeld(ls)
    {
      ls := [];
      assert first + [] == first;
      while inflight < maxInflight
        invariant Took(before, first + ls, Checking) && LockHeld(ls)
        decreases |chat| + |background|
      {
        ls := Step(before, first, ls, Check, Checking);
        ls := Retain(before, first, ls, UserChat);
        if chat == [] {
          ls := Step(before, first, ls, Scan, Scanning(UserChat, 0));
          ls := Retain(before, first, ls, Background);
          if background == [] {
            ls := Step(before, first, ls, Scan, Scanning(Background, 0));
            ReachableAfter(before, first + ls);
            return;
          }
          ls := Grant(before, first, ls, Background);
        } else {
          ls := Grant(before, first, ls, UserChat);
        }
      }
      ls := Step(before, first, ls, Check, Checking);
      ReachableAfter(before, first + ls);
    }

    /** Record the micro-step `l`, which the code that follows carries out. */
    ghost method Step(before: State, first: seq<Label>, ls: seq<Label>, l: Label, pc: Pc) returns (ls': seq<Label>)
      requires Took(before, first + ls, pc) && Enabled(At(pc), l) && LockHeld(ls) && (PumpStep(l) || Interference(l))
      ensures ls' == ls + [l] && LockHeld(ls')
      ensures Run(before, first + ls') && After(before, first + ls') == Next(At(pc), l)
    {
      ls' := ls + [l];
      RunSnoc(before, first + ls, l);
      assert first + ls' == first + ls + [l];
    }

    /** Pop the front of a queue, reserve a slot, and send the permit. */
    method Grant(ghost before: State, ghost first: seq<Label>, ghost ls: seq<Label>, p: Priority)
      returns (ghost ls': seq<Label>)
      requires Reachable(before) && LockHeld(ls) && At(Unlocked).Queue(p) != []
      requires Took(before, first + ls, Scanning(p, |At(Unlocked).Queue(p)|))
      modifies `inflight, `chat, `background, `channels
      ensures Took(before, first + ls', Checking) && LockHeld(ls')
      ensures |chat| + |background| < old(|chat| + |background|)
    {
      ghost var pc := Scanning(p, |At(Unlocked).Queue(p)|);
      EntryInRange(before, first + ls, At(pc), p, 0);
      ls' := Step(before, first, ls, Scan, pc);
      var w: nat;
      if p == UserChat {
        w, chat := chat[0], chat[1..];
      } else {
        w, background := background[0], background[1..];
      }
      inflight := inflight + 1;
      ls' := Interfere(before, first, ls', Sending(w));
      ls' := Step(before, first, ls', Send, Sending(w));
      if channels[w].phase != Waiting {
        // Cancelled between the liveness check and the send: reclaim the slot.
        inflight := inflight - 1;
      } else {
        channels := channels[w := channels[w].(phase := Sent)];
      }
    }

    /** Drop the closed senders of one queue, looking at each in turn. */
    method Retain(ghost before: State, ghost first: seq<Label>, ghost ls: seq<Label>, p: Priority)
      returns (ghost ls': seq<Label>)
      requires Reachable(before) && LockHeld(ls) && Took(before, first + ls, Scanning(p, 0))
      modifies `chat, `background, `channels
      ensures Took(before, first + ls', Scanning(p, |At(Unlocked).Queue(p)|)) && LockHeld(ls')
      ensures if p == UserChat then background == old(background) && |chat| <= old(|chat|)
              else chat == old(chat) && |background| <= old(|background|)
    {
      ls' := ls;
      var i := 0;
      var q := if p == UserChat then chat else background;
      while i < |q|
        invariant i <= |q| && q == At(Unlocked).Queue(p)
        invariant Took(before, first + ls', Scanning(p, i)) && LockHeld(ls')
        invariant if p == UserChat then background == old(background) && |chat| <= old(|chat|)
                  else chat == old(chat) && |background| <= old(|background|)
        decreases |q| - i
      {
        ls' := Interfere(before, first, ls', Scanning(p, i));
        EntryInRange(before, first + ls', At(Scanning(p, i)), p, i);
        ls' := Step(before, first, ls', Scan, Scanning(p, i));
        if channels[q[i]].phase != Waiting {
          q := q[..i] + q[i + 1..];
          if p == UserChat { chat := q; } else { background := q; }
        } else {
          i := i + 1;
        }
      }
    }

    /** Whatever the other threads do to the channels while this one holds the lock. */
    method Interfere(ghost before: State, ghost first: seq<Label>, ghost ls: seq<Label>, ghost pc: Pc)
      returns (ghost ls': seq<Label>)
      requires Took(before, first + ls, pc) && LockHeld(ls)
      modifies `channels
      ensures Took(before, first + ls', pc) && |channels| == old(|channels|) && LockHeld(ls')
    {
      ls' := ls;
      var events: nat := *;
      while events > 0
        invariant Took(before, first + ls', pc) && |channels| == old(|channels|) && LockHeld(ls')
      {
        events := events - 1;
        var w: int := *;
        var abort: bool := *;
        if 0 <= w < |channels| {
          var phase := channels[w].phase;
          if phase == Waiting {
            ls' := Step(before, first, ls', Cancel(w), pc);
            channels := channels[w := channels[w].(phase := Abandoned)];
          } else if phase == Sent && !abort {
            ls' := Step(before, first, ls', Receive(w), pc);
            channels := channels[w := channels[w].(phase := Held)];
          } else if phase == Sent || phase == Held {
            ls' := Step(before, first, ls', if phase == Sent then Cancel(w) else Drop(w), pc);
            channels := channels[w := channels[w].(phase := Dropping)];
          }
        }
      }
    }
  }
}
