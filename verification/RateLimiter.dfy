/** Counting events in a sliding window of time. */
module SlidingWindow {
  ghost predicate Sorted(ts: seq<int>) {
    forall i, j :: 0 <= i < j < |ts| ==> ts[i] <= ts[j]
  }

  /** Less than `window` old, where an age is never negative. */
  predicate Fresh(t: int, now: int, window: nat) { (if now > t then now - t else 0) < window }

  /** The events less than `window` old. */
  function Live(ts: seq<int>, now: int, window: nat): (r: seq<int>)
    ensures forall t :: t in r <==> t in ts && Fresh(t, now, window)
  {
    if ts == [] then []
    else if Fresh(ts[0], now, window) then [ts[0]] + Live(ts[1..], now, window)
    else Live(ts[1..], now, window)
  }

  /** In order of time, expiry takes a prefix. */
  lemma {:induction false} LiveIsSuffix(ts: seq<int>, now: int, window: nat) returns (k: nat)
    requires Sorted(ts)
    ensures k <= |ts| && Live(ts, now, window) == ts[k..]
    ensures forall i :: 0 <= i < |ts| ==> (Fresh(ts[i], now, window) <==> k <= i)
  {
    if ts == [] {
      k := 0;
    } else {
      var k' := LiveIsSuffix(ts[1..], now, window);
      assert forall i :: 0 < i < |ts| ==> ts[i] == ts[1..][i - 1];
      if Fresh(ts[0], now, window) {
        k := 0;
        assert ts[1..] != [] ==> Fresh(ts[1..][0], now, window);
        assert [ts[0]] + ts[1..] == ts;
      } else {
        k := k' + 1;
      }
    }
  }

  /** What has expired stays expired: pruning early changes nothing later. */
  lemma {:induction false} LiveTwice(ts: seq<int>, before: int, now: int, window: nat)
    requires before <= now
    ensures Live(Live(ts, before, window), now, window) == Live(ts, now, window)
  {
    if ts != [] {
      LiveTwice(ts[1..], before, now, window);
      if Fresh(ts[0], before, window) {
        assert ([ts[0]] + Live(ts[1..], before, window))[1..] == Live(ts[1..], before, window);
      }
    }
  }

  lemma {:induction false} LiveAppend(ts: seq<int>, t: int, now: int, window: nat)
    ensures Live(ts + [t], now, window) == Live(ts, now, window) + if Fresh(t, now, window) then [t] else []
  {
    if ts == [] {
      assert ts + [t] == [t];
    } else {
      LiveAppend(ts[1..], t, now, window);
      assert (ts + [t])[1..] == ts[1..] + [t];
    }
  }

  lemma FewerLater(ts: seq<int>, before: int, now: int, window: nat)
    requires Sorted(ts) && before <= now
    ensures |Live(ts, now, window)| <= |Live(ts, before, window)|
  {
    var k := LiveIsSuffix(ts, before, window);
    var k' := LiveIsSuffix(ts, now, window);
    assert k' < |ts| ==> Fresh(ts[k'], before, window);
  }

  /** The limiter that forgets nothing: admit while fewer than `max` events are live. */
  function Admit(ts: seq<int>, now: int, max: nat, window: nat): seq<int> {
    if |Live(ts, now, window)| < max then ts + [now] else ts
  }

  /** Any `max + 1` admitted events, in order, span at least the window. */
  ghost predicate Spaced(ts: seq<int>, max: nat, window: nat) {
    forall i, j :: 0 <= i && j == i + max < |ts| ==> ts[j] - ts[i] >= window
  }

  lemma SortedAppend(ts: seq<int>, now: int)
    requires Sorted(ts) && forall t :: t in ts ==> t <= now
    ensures Sorted(ts + [now]) && forall t :: t in ts + [now] ==> t <= now
  {
    forall i, j | 0 <= i < j < |ts + [now]| ensures (ts + [now])[i] <= (ts + [now])[j] {
      assert ts[i] in ts;
    }
  }

  lemma AdmitKeepsSpaced(ts: seq<int>, now: int, max: nat, window: nat)
    requires Sorted(ts) && Spaced(ts, max, window) && forall t :: t in ts ==> t <= now
    ensures Sorted(Admit(ts, now, max, window)) && Spaced(Admit(ts, now, max, window), max, window)
    ensures forall t :: t in Admit(ts, now, max, window) ==> t <= now
  {
    var k := LiveIsSuffix(ts, now, window);
    var ts' := Admit(ts, now, max, window);
    if ts' != ts {
      SortedAppend(ts, now);
      forall i, j | 0 <= i && j == i + max < |ts'| ensures ts'[j] - ts'[i] >= window {
        if j == |ts| {
          assert i < k;
        } else {
          assert ts[j] - ts[i] >= window;
        }
      }
    }
  }
}

/** Per-user rate limiting that forgets users with nothing live. */
module RateLimiting {
  import opened Counting
  import opened SlidingWindow

  datatype Hit = Hit(user: string, at: int)

  datatype Attempt = Attempt(hit: Hit, accepted: bool)

  /** When `user` was let through, according to a log. */
  function TimesOf(log: seq<Hit>, user: string): seq<int> {
    if log == [] then []
    else
      var earlier := TimesOf(log[..|log| - 1], user);
      if log[|log| - 1].user == user then earlier + [log[|log| - 1].at] else earlier
  }

  /** Whether an attempt is over the limit, judged by the complete log. */
  predicate OverLimit(log: seq<Hit>, user: string, now: int, max: nat, window: nat) {
    |Live(TimesOf(log, user), now, window)| >= max
  }

  function Record(log: seq<Hit>, attempt: Hit, max: nat, window: nat): seq<Hit> {
    if OverLimit(log, attempt.user, attempt.at, max, window) then log else log + [attempt]
  }

  lemma TimesAppend(log: seq<Hit>, h: Hit, user: string)
    ensures TimesOf(log + [h], user) == if h.user == user then TimesOf(log, user) + [h.at] else TimesOf(log, user)
  {
    assert (log + [h])[..|log|] == log;
  }

  function Kept(hits: map<string, seq<int>>, user: string): seq<int> {
    if user in hits then hits[user] else []
  }

  /** Keep the users whose newest hit is still live. */
  function Evict(hits: map<string, seq<int>>, now: int, window: nat): map<string, seq<int>> {
    map u | u in hits && hits[u] != [] && Fresh(hits[u][|hits[u]| - 1], now, window) :: hits[u]
  }

  /** What an attempt finds of its user, once everything expired is dropped. */
  function Entry(hits: map<string, seq<int>>, a: Hit, window: nat): seq<int> {
    Live(Kept(Evict(hits, a.at, window), a.user), a.at, window)
  }

  /** An attempt: drop what has expired, and add the hit if it is accepted. */
  function Checked(hits: map<string, seq<int>>, a: Hit, accepted: bool, window: nat): map<string, seq<int>> {
    var entry := Entry(hits, a, window);
    Evict(hits, a.at, window)[a.user := if accepted then entry + [a.at] else entry]
  }

  // ---------------------------------------------------------------- attempts in any order of time

  /** The map after some attempts. */
  function HitsOf(attempts: seq<Attempt>, window: nat): map<string, seq<int>> {
    if attempts == [] then map[]
    else
      var last := attempts[|attempts| - 1];
      Checked(HitsOf(attempts[..|attempts| - 1], window), last.hit, last.accepted, window)
  }

  /** Attempts in the order of the lock, whatever the order of their times. */
  datatype Run = Run(attempts: seq<Attempt>, max: nat, window: nat)
  {
    predicate Accepted(n: nat) { n < |attempts| && attempts[n].accepted }

    function UserAt(n: nat): string
      requires n < |attempts|
    {
      attempts[n].hit.user
    }

    function TimeAt(n: nat): int
      requires n < |attempts|
    {
      attempts[n].hit.at
    }

    /** The map after `n` attempts. */
    function HitsAfter(n: nat): map<string, seq<int>>
      requires n <= |attempts|
    {
      HitsOf(attempts[..n], window)
    }

    /** Attempt `n` was decided by what was remembered of its user. */
    predicate Decided(n: nat)
      requires n < |attempts|
    {
      Accepted(n) <==> |Entry(HitsAfter(n), attempts[n].hit, window)| < max
    }

    ghost predicate Genuine() { forall n :: 0 <= n < |attempts| ==> Decided(n) }

    /** No attempt among the first `n` has a time before that of an earlier one. */
    ghost predicate InOrder(n: nat)
      requires n <= |attempts|
    {
      forall i, j :: 0 <= i < j < n ==> TimeAt(i) <= TimeAt(j)
    }

    function With(a: Attempt): Run { this.(attempts := attempts + [a]) }

    /** Every hit accepted among the first `n` attempts. */
    function Log(n: nat): seq<Hit>
      requires n <= |attempts|
    {
      if n == 0 then [] else if Accepted(n - 1) then Log(n - 1) + [attempts[n - 1].hit] else Log(n - 1)
    }

    /** Attempt `i` is an accepted hit of `user`. */
    predicate HitOf(i: nat, user: string) { i < |attempts| && UserAt(i) == user && Accepted(i) }

    /** The newest accepted hit of `user` among the first `n` attempts, or -1. */
    function Newest(user: string, n: nat): (j: int)
      requires n <= |attempts|
      ensures -1 <= j < n && (j >= 0 ==> HitOf(j, user))
      ensures forall i: nat :: j < i < n ==> !HitOf(i, user)
    {
      if n == 0 then -1 else if HitOf(n - 1, user) then n - 1 else Newest(user, n - 1)
    }

    predicate FreshAt(i: nat, m: nat)
      requires i < |attempts| && m < |attempts|
    {
      Fresh(TimeAt(i), TimeAt(m), window)
    }

    /** Attempt `m` costs hit `i` its place: by eviction, when the newest hit of its user has
        expired, or by pruning, when the attempt is the user's own and the hit has expired. */
    predicate Outlives(m: nat, i: nat)
      requires i < m < |attempts|
    {
      var newest := Newest(UserAt(i), m);
      || (newest >= 0 && !FreshAt(newest, m))
      || (UserAt(m) == UserAt(i) && !FreshAt(i, m))
    }

    /** The hits that none of the attempts before the `n`-th outlives. */
    ghost function Lasting(n: nat): nat -> bool {
      (i: nat) => forall m :: i < m < n && m < |attempts| ==> !Outlives(m, i)
    }

    ghost function All(): nat -> bool { (i: nat) => true }

    /** The hits that are live at attempt `m`. */
    ghost function FreshFor(m: nat): nat -> bool {
      (i: nat) => i < |attempts| && m < |attempts| && FreshAt(i, m)
    }

    /** The times of those accepted hits of `user` among the first `n` attempts that pass `keep`. */
    ghost function Select(user: string, n: nat, keep: nat -> bool): seq<int>
      requires n <= |attempts|
    {
      if n == 0 then []
      else if HitOf(n - 1, user) && keep(n - 1) then Select(user, n - 1, keep) + [TimeAt(n - 1)]
      else Select(user, n - 1, keep)
    }

    /** Too few of the user's hits have lasted until attempt `n`, and enough are live. */
    ghost predicate Forgetful(n: nat)
      requires n < |attempts|
    {
      var user := UserAt(n);
      |Select(user, n, Lasting(n + 1))| < max <= |Select(user, n, FreshFor(n))|
    }

    /** What the complete log says of attempt `n`. */
    predicate OverLog(n: nat)
      requires n < |attempts|
    {
      OverLimit(Log(n), UserAt(n), TimeAt(n), max, window)
    }
  }

  lemma SelectStep(r: Run, user: string, n: nat, f: nat -> bool)
    requires 0 < n <= |r.attempts|
    ensures if r.HitOf(n - 1, user) && f(n - 1)
            then r.Select(user, n, f) == r.Select(user, n - 1, f) + [r.TimeAt(n - 1)]
            else r.Select(user, n, f) == r.Select(user, n - 1, f)
  {
  }

  lemma EvictKept(hits: map<string, seq<int>>, user: string, now: int, window: nat)
    ensures var kept := Kept(hits, user);
            Kept(Evict(hits, now, window), user) ==
            if kept != [] && Fresh(kept[|kept| - 1], now, window) then kept else []
  {
  }

  lemma CheckedKept(hits: map<string, seq<int>>, a: Hit, accepted: bool, window: nat, user: string)
    ensures Kept(Checked(hits, a, accepted, window), user) ==
            if user != a.user then Kept(Evict(hits, a.at, window), user)
            else if accepted then Entry(hits, a, window) + [a.at] else Entry(hits, a, window)
  {
  }

  /** Keeping fewer, in number. */
  lemma {:induction false} SelectFewer(r: Run, user: string, n: nat, f: nat -> bool, g: nat -> bool)
    requires n <= |r.attempts| && forall i :: 0 <= i < n && r.HitOf(i, user) && f(i) ==> g(i)
    ensures |r.Select(user, n, f)| <= |r.Select(user, n, g)|
  {
    if n > 0 {
      SelectFewer(r, user, n - 1, f, g);
    }
  }

  lemma {:induction false} SelectSame(r: Run, user: string, n: nat, f: nat -> bool, g: nat -> bool)
    requires n <= |r.attempts| && forall i :: 0 <= i < n && r.HitOf(i, user) ==> f(i) == g(i)
    ensures r.Select(user, n, f) == r.Select(user, n, g)
  {
    if n > 0 {
      SelectSame(r, user, n - 1, f, g);
    }
  }

  lemma {:induction false} SelectNone(r: Run, user: string, n: nat, f: nat -> bool)
    requires n <= |r.attempts| && forall i :: 0 <= i < n && r.HitOf(i, user) ==> !f(i)
    ensures r.Select(user, n, f) == []
  {
    if n > 0 {
      SelectNone(r, user, n - 1, f);
    }
  }

  lemma SelectLiveNext(r: Run, user: string, n: nat, m: nat, f: nat -> bool, g: nat -> bool)
    requires n < |r.attempts| && m < |r.attempts|
    requires r.HitOf(n, user) ==> (g(n) <==> f(n) && r.FreshAt(n, m))
    requires Live(r.Select(user, n, f), r.TimeAt(m), r.window) == r.Select(user, n, g)
    ensures Live(r.Select(user, n + 1, f), r.TimeAt(m), r.window) == r.Select(user, n + 1, g)
  {
    SelectStep(r, user, n + 1, f);
    SelectStep(r, user, n + 1, g);
    LiveAppend(r.Select(user, n, f), r.TimeAt(n), r.TimeAt(m), r.window);
  }

  lemma {:induction false} SelectLive(r: Run, user: string, n: nat, m: nat, f: nat -> bool, g: nat -> bool)
    requires n <= |r.attempts| && m < |r.attempts|
    requires forall i :: 0 <= i < n && r.HitOf(i, user) ==> (g(i) <==> f(i) && r.FreshAt(i, m))
    ensures Live(r.Select(user, n, f), r.TimeAt(m), r.window) == r.Select(user, n, g)
  {
    if n > 0 {
      SelectLive(r, user, n - 1, m, f, g);
      SelectLiveNext(r, user, n - 1, m, f, g);
    }
  }

  lemma {:induction false} SelectLast(r: Run, user: string, n: nat, f: nat -> bool)
    requires n <= |r.attempts| && r.Newest(user, n) >= 0 && f(r.Newest(user, n))
    ensures var kept := r.Select(user, n, f);
            kept != [] && kept[|kept| - 1] == r.TimeAt(r.Newest(user, n))
  {
    if !r.HitOf(n - 1, user) {
      SelectLast(r, user, n - 1, f);
    }
  }

  /** The last hit kept of a user is the last one accepted. */
  lemma KeptLast(r: Run, user: string, n: nat)
    requires n <= |r.attempts|
    ensures var kept, newest := r.Select(user, n, r.Lasting(n)), r.Newest(user, n);
            kept != [] ==> newest >= 0 && kept[|kept| - 1] == r.TimeAt(newest)
  {
    var newest := r.Newest(user, n);
    if newest >= 0 && r.Lasting(n)(newest) {
      SelectLast(r, user, n, r.Lasting(n));
    } else {
      forall i | 0 <= i < n && r.HitOf(i, user) ensures !r.Lasting(n)(i) {
        var m :| newest < m < n && m < |r.attempts| && r.Outlives(m, newest);
        assert r.Newest(user, m) == newest;
        assert r.Outlives(m, i);
      }
      SelectNone(r, user, n, r.Lasting(n));
    }
  }

  lemma LastingOne(r: Run, n: nat, i: nat)
    requires i < n < |r.attempts|
    ensures r.Lasting(n + 1)(i) <==> r.Lasting(n)(i) && !r.Outlives(n, i)
  {
  }

  lemma AllEvicted(r: Run, user: string, n: nat)
    requires n < |r.attempts| && r.Newest(user, n) >= 0 && !r.FreshAt(r.Newest(user, n), n)
    ensures r.Select(user, n, r.Lasting(n + 1)) == []
  {
    forall i | 0 <= i < n && r.HitOf(i, user) ensures !r.Lasting(n + 1)(i) {
      assert r.Outlives(n, i);
    }
    SelectNone(r, user, n, r.Lasting(n + 1));
  }

  lemma NoneEvicted(r: Run, user: string, n: nat)
    requires n < |r.attempts| && (r.Newest(user, n) >= 0 ==> r.FreshAt(r.Newest(user, n), n))
    ensures r.Select(user, n, r.Lasting(n + 1)) ==
            if user == r.UserAt(n) then Live(r.Select(user, n, r.Lasting(n)), r.TimeAt(n), r.window)
            else r.Select(user, n, r.Lasting(n))
  {
    forall i | 0 <= i < n && r.HitOf(i, user)
      ensures r.Lasting(n + 1)(i) <==> r.Lasting(n)(i) && (user == r.UserAt(n) ==> r.FreshAt(i, n)) {
      LastingOne(r, n, i);
      assert r.Outlives(n, i) <==> user == r.UserAt(n) && !r.FreshAt(i, n);
    }
    if user == r.UserAt(n) {
      SelectLive(r, user, n, n, r.Lasting(n), r.Lasting(n + 1));
    } else {
      SelectSame(r, user, n, r.Lasting(n), r.Lasting(n + 1));
    }
  }

  /** Eviction by attempt `n`, and pruning of its own user, drop what attempt `n` outlives. */
  lemma DroppedByAttempt(r: Run, user: string, n: nat)
    requires n < |r.attempts| && Kept(r.HitsAfter(n), user) == r.Select(user, n, r.Lasting(n))
    ensures var a := r.attempts[n].hit;
            var left := Kept(Evict(r.HitsAfter(n), a.at, r.window), user);
            (if user == a.user then Live(left, a.at, r.window) else left) == r.Select(user, n, r.Lasting(n + 1))
  {
    KeptLast(r, user, n);
    EvictKept(r.HitsAfter(n), user, r.TimeAt(n), r.window);
    if r.Newest(user, n) >= 0 && !r.FreshAt(r.Newest(user, n), n) {
      AllEvicted(r, user, n);
    } else {
      NoneEvicted(r, user, n);
    }
  }

  /** What is kept of a user after one more attempt. */
  lemma KeptNext(r: Run, user: string, n: nat)
    requires n < |r.attempts|
    ensures Kept(r.HitsAfter(n + 1), user) ==
            if user != r.UserAt(n) then Kept(Evict(r.HitsAfter(n), r.TimeAt(n), r.window), user)
            else if r.Accepted(n) then Entry(r.HitsAfter(n), r.attempts[n].hit, r.window) + [r.TimeAt(n)]
            else Entry(r.HitsAfter(n), r.attempts[n].hit, r.window)
  {
    assert r.attempts[..n + 1][..n] == r.attempts[..n];
    CheckedKept(r.HitsAfter(n), r.attempts[n].hit, r.Accepted(n), r.window, user);
  }

  lemma LastingNext(r: Run, user: string, n: nat)
    requires n < |r.attempts|
    ensures r.Select(user, n + 1, r.Lasting(n + 1)) ==
            if user == r.UserAt(n) && r.Accepted(n) then r.Select(user, n, r.Lasting(n + 1)) + [r.TimeAt(n)]
            else r.Select(user, n, r.Lasting(n + 1))
  {
    assert r.Lasting(n + 1)(n);
    SelectStep(r, user, n + 1, r.Lasting(n + 1));
  }

  lemma RememberedNext(r: Run, user: string, n: nat)
    requires n < |r.attempts| && Kept(r.HitsAfter(n), user) == r.Select(user, n, r.Lasting(n))
    ensures Kept(r.HitsAfter(n + 1), user) == r.Select(user, n + 1, r.Lasting(n + 1))
  {
    KeptNext(r, user, n);
    LastingNext(r, user, n);
    DroppedByAttempt(r, user, n);
  }

  /** In any order of times, an accepted hit is remembered exactly until an attempt outlives it. */
  lemma {:induction false} RememberedUntilOutlived(r: Run, n: nat)
    requires n <= |r.attempts|
    ensures forall user :: Kept(r.HitsAfter(n), user) == r.Select(user, n, r.Lasting(n))
  {
    if n > 0 {
      RememberedUntilOutlived(r, n - 1);
      forall user ensures Kept(r.HitsAfter(n), user) == r.Select(user, n, r.Lasting(n)) {
        RememberedNext(r, user, n - 1);
      }
    }
  }

  lemma {:induction false} LogTimes(r: Run, user: string, n: nat)
    requires n <= |r.attempts|
    ensures TimesOf(r.Log(n), user) == r.Select(user, n, r.All())
  {
    if n > 0 {
      LogTimes(r, user, n - 1);
      SelectStep(r, user, n, r.All());
      TimesAppend(r.Log(n - 1), r.attempts[n - 1].hit, user);
    }
  }

  /** What the complete log holds of a user that is live at attempt `m`. */
  lemma LogLive(r: Run, user: string, n: nat, m: nat)
    requires n <= |r.attempts| && m < |r.attempts|
    ensures Live(TimesOf(r.Log(n), user), r.TimeAt(m), r.window) == r.Select(user, n, r.FreshFor(m))
  {
    LogTimes(r, user, n);
    SelectLive(r, user, n, m, r.All(), r.FreshFor(m));
  }

  lemma LastingCounts(r: Run, n: nat)
    requires r.Genuine() && n < |r.attempts|
    ensures r.Accepted(n) <==> |r.Select(r.UserAt(n), n, r.Lasting(n + 1))| < r.max
  {
    RememberedUntilOutlived(r, n);
    DroppedByAttempt(r, r.UserAt(n), n);
    assert r.Decided(n);
  }

  lemma LogCounts(r: Run, n: nat)
    requires n < |r.attempts|
    ensures r.OverLog(n) <==> |r.Select(r.UserAt(n), n, r.FreshFor(n))| >= r.max
  {
    LogLive(r, r.UserAt(n), n, n);
  }

  /** What has lasted is live. */
  lemma LastingFresh(r: Run, n: nat)
    requires n < |r.attempts|
    ensures var user := r.UserAt(n);
            |r.Select(user, n, r.Lasting(n + 1))| <= |r.Select(user, n, r.FreshFor(n))|
  {
    var user := r.UserAt(n);
    forall i | 0 <= i < n && r.HitOf(i, user) && r.Lasting(n + 1)(i) ensures r.FreshFor(n)(i) {
      assert !r.Outlives(n, i);
    }
    SelectFewer(r, user, n, r.Lasting(n + 1), r.FreshFor(n));
  }

  /** The decision counts the hits that have lasted.  It is never stricter than the complete
      log's, and differs from it exactly when too few have lasted although enough are live. */
  lemma DecisionDiffers(r: Run, n: nat)
    requires r.Genuine() && n < |r.attempts|
    ensures r.Accepted(n) <==> |r.Select(r.UserAt(n), n, r.Lasting(n + 1))| < r.max
    ensures !r.Accepted(n) ==> r.OverLog(n)
    ensures r.Accepted(n) == r.OverLog(n) <==> r.Forgetful(n)
  {
    LastingCounts(r, n);
    LogCounts(r, n);
    LastingFresh(r, n);
  }

  /** As long as times come in order, dropping the users whose newest hit has expired drops
      nothing live. */
  lemma EvictionIsSafe(r: Run, user: string, n: nat)
    requires n < |r.attempts| && r.InOrder(n + 1)
    ensures Live(Kept(Evict(r.HitsAfter(n), r.TimeAt(n), r.window), user), r.TimeAt(n), r.window) ==
            Live(TimesOf(r.Log(n), user), r.TimeAt(n), r.window)
  {
    var now := r.TimeAt(n);
    var left := Kept(Evict(r.HitsAfter(n), now, r.window), user);
    RememberedUntilOutlived(r, n);
    DroppedByAttempt(r, user, n);
    LogLive(r, user, n, n);
    LiveTwice(left, now, now, r.window);
    forall i | 0 <= i < n && r.HitOf(i, user) && r.FreshFor(n)(i) ensures r.Lasting(n + 1)(i) {
      forall m | i < m < n + 1 ensures !r.Outlives(m, i) {
        FreshUntil(r, user, n, i, m);
      }
    }
    SelectLive(r, user, n, n, r.Lasting(n + 1), r.FreshFor(n));
  }

  /** A hit that is live was so all along, and so was the newest one. */
  lemma FreshUntil(r: Run, user: string, n: nat, i: nat, m: nat)
    requires i < m <= n < |r.attempts| && r.InOrder(n + 1)
    requires r.HitOf(i, user) && r.FreshAt(i, n)
    ensures !r.Outlives(m, i)
  {
    var newest := r.Newest(user, m);
    assert newest >= i;
    assert r.TimeAt(i) <= r.TimeAt(newest) <= r.TimeAt(m) <= r.TimeAt(n);
  }

  /** So the decision is then the one the complete log would give. */
  lemma InOrderDecision(r: Run, n: nat)
    requires r.Genuine() && n < |r.attempts| && r.InOrder(n + 1)
    ensures r.Accepted(n) <==> !r.OverLog(n)
  {
    var user, now := r.UserAt(n), r.TimeAt(n);
    EvictionIsSafe(r, user, n);
    assert r.Decided(n);
  }

  ghost function Selected(r: Run, user: string, n: nat, keep: nat -> bool): set<nat> {
    Below(n, (i: nat) => r.HitOf(i, user) && keep(i))
  }

  /** Select keeps one time for each hit that passes. */
  lemma {:induction false} SelectedCount(r: Run, user: string, n: nat, keep: nat -> bool)
    requires n <= |r.attempts|
    ensures |r.Select(user, n, keep)| == |Selected(r, user, n, keep)|
  {
    if n > 0 {
      SelectedCount(r, user, n - 1, keep);
      SelectStep(r, user, n, keep);
    }
    BelowNext(n, (i: nat) => r.HitOf(i, user) && keep(i));
  }

  /** The user's accepted attempts before attempt `n` that are less than `window` old. */
  ghost function Recent(r: Run, n: nat): set<nat>
    requires n < |r.attempts|
  {
    set i: nat | i < n && r.Accepted(i) && r.UserAt(i) == r.UserAt(n)
                 && r.TimeAt(n) < r.TimeAt(i) + r.window && 0 < r.window
  }

  /** Nobody is turned away for less than `max` accepted attempts within the window; and as
      long as times come in order, nobody is let through after more. */
  lemma CountsRecent(r: Run, n: nat)
    requires r.Genuine() && n < |r.attempts|
    ensures !r.Accepted(n) ==> |Recent(r, n)| >= r.max
    ensures r.InOrder(n + 1) ==> (r.Accepted(n) <==> |Recent(r, n)| < r.max)
  {
    var user := r.UserAt(n);
    DecisionDiffers(r, n);
    LogCounts(r, n);
    SelectedCount(r, user, n, r.FreshFor(n));
    assert Selected(r, user, n, r.FreshFor(n)) == Recent(r, n);
    if r.InOrder(n + 1) {
      InOrderDecision(r, n);
    }
  }

  /** What a run logs depends only on what came before. */
  lemma {:induction false} LogGoesOn(r: Run, a: Attempt, n: nat)
    requires n <= |r.attempts|
    ensures r.With(a).Log(n) == r.Log(n) && r.With(a).HitsAfter(n) == r.HitsAfter(n)
  {
    assert (r.attempts + [a])[..n] == r.attempts[..n];
    if n > 0 {
      LogGoesOn(r, a, n - 1);
    }
  }

  /** One more attempt, decided by what is remembered of its user. */
  lemma AttemptAdded(r: Run, a: Attempt)
    requires r.Genuine()
    requires a.accepted <==> |Entry(r.HitsAfter(|r.attempts|), a.hit, r.window)| < r.max
    ensures r.With(a).Genuine()
    ensures r.With(a).HitsAfter(|r.attempts| + 1)
         == Checked(r.HitsAfter(|r.attempts|), a.hit, a.accepted, r.window)
  {
    var all := r.attempts + [a];
    assert all[..|r.attempts| + 1] == all && all[..|r.attempts|] == r.attempts == r.attempts[..|r.attempts|];
    forall n | 0 <= n < |r.attempts| + 1 ensures r.With(a).Decided(n) {
      LogGoesOn(r, a, n);
      assert n < |r.attempts| ==> r.Decided(n);
    }
  }

  /** What the decision on one more attempt means. */
  ghost predicate Means(r: Run, a: Attempt) {
    var n := |r.attempts|;
    var over := OverLimit(r.Log(n), a.hit.user, a.hit.at, r.max, r.window);
    && (a.accepted <==> !over || r.With(a).Forgetful(n))
    && (r.With(a).InOrder(n + 1) ==> (a.accepted <==> !over))
    && r.With(a).Log(n + 1) == if a.accepted then r.Log(n) + [a.hit] else r.Log(n)
  }

  lemma AttemptDecided(r: Run, a: Attempt)
    requires r.With(a).Genuine()
    ensures Means(r, a)
  {
    var n := |r.attempts|;
    LogGoesOn(r, a, n);
    DecisionDiffers(r.With(a), n);
    if r.With(a).InOrder(n + 1) {
      InOrderDecision(r.With(a), n);
    }
  }

  /** The map is the one these attempts, decided as they were, leave. */
  ghost predicate Follows(hits: map<string, seq<int>>, r: Run) {
    r.Genuine() && hits == r.HitsAfter(|r.attempts|)
  }

  lemma FollowsOn(hits: map<string, seq<int>>, r: Run, a: Attempt)
    requires Follows(hits, r) && (a.accepted <==> |Entry(hits, a.hit, r.window)| < r.max)
    ensures Follows(Checked(hits, a.hit, a.accepted, r.window), r.With(a)) && Means(r, a)
  {
    AttemptAdded(r, a);
    AttemptDecided(r, a);
  }

  /** Two attempts of a user with one of somebody else between them, all of them accepted. */
  function Between(user: string, other: string, at: int, late: int, early: int, window: nat): Run {
    Run([Attempt(Hit(user, at), true), Attempt(Hit(other, late), true), Attempt(Hit(user, early), true)], 1, window)
  }

  /** With times out of order a live hit can be forgotten: another user's attempt, a window
      later, evicts it, and an attempt with an earlier time is let through although the
      complete log has it over the limit.  So two hits of one user are accepted within a
      window that allows one. */
  lemma OutOfOrderForgets(user: string, other: string, at: int, late: int, early: int, window: nat)
    requires user != other && at <= early < at + window <= late
    ensures var r := Between(user, other, at, late, early, window);
            r.Genuine() && r.Accepted(0) && r.Accepted(2) && r.OverLog(2) && r.Forgetful(2)
  {
    BetweenGenuine(user, other, at, late, early, window);
    BetweenLog(user, other, at, late, early, window);
    DecisionDiffers(Between(user, other, at, late, early, window), 2);
  }

  lemma BetweenGenuine(user: string, other: string, at: int, late: int, early: int, window: nat)
    requires user != other && at + window <= late
    ensures Between(user, other, at, late, early, window).Genuine()
  {
    var r := Between(user, other, at, late, early, window);
    assert r.attempts[..0] == [] && r.attempts[..1] == [r.attempts[0]];
    assert r.attempts[..2] == [r.attempts[0], r.attempts[1]];
    TwoAttempts(Hit(user, at), Hit(other, late), window);
    NobodyKept(map[other := [late]], Hit(user, early), window);
    assert r.Decided(0) && r.Decided(1) && r.Decided(2);
  }

  lemma BetweenLog(user: string, other: string, at: int, late: int, early: int, window: nat)
    requires user != other && at <= early < at + window
    ensures Between(user, other, at, late, early, window).OverLog(2)
  {
    var r := Between(user, other, at, late, early, window);
    assert r.Log(1) == [Hit(user, at)] && r.Log(2) == [Hit(user, at), Hit(other, late)];
    TwoHits(Hit(user, at), Hit(other, late));
    OneLive(at, early, window);
  }

  /** An attempt that finds nothing kept. */
  lemma LoneAttempt(hits: map<string, seq<int>>, a: Hit, window: nat)
    requires Evict(hits, a.at, window) == map[]
    ensures Entry(hits, a, window) == [] && Checked(hits, a, true, window) == map[a.user := [a.at]]
  {
    assert Kept(map[], a.user) == [];
    assert [] + [a.at] == [a.at];
  }

  lemma NobodyKept(hits: map<string, seq<int>>, a: Hit, window: nat)
    requires a.user !in hits
    ensures Entry(hits, a, window) == []
  {
  }

  lemma TwoAttempts(a: Hit, b: Hit, window: nat)
    requires !Fresh(a.at, b.at, window)
    ensures HitsOf([Attempt(a, true)], window) == map[a.user := [a.at]]
    ensures HitsOf([Attempt(a, true), Attempt(b, true)], window) == map[b.user := [b.at]]
    ensures Entry(map[], a, window) == [] && Entry(map[a.user := [a.at]], b, window) == []
  {
    var first, second := [Attempt(a, true)], [Attempt(a, true), Attempt(b, true)];
    assert first[..0] == [] && second[..1] == first;
    assert Evict(map[], a.at, window) == map[];
    LoneAttempt(map[], a, window);
    assert Evict(map[a.user := [a.at]], b.at, window) == map[];
    LoneAttempt(map[a.user := [a.at]], b, window);
  }

  lemma TwoHits(a: Hit, b: Hit)
    requires a.user != b.user
    ensures TimesOf([a, b], a.user) == [a.at]
  {
    assert [a, b][..1] == [a] && [a][..0] == [];
    assert TimesOf([a], a.user) == [] + [a.at];
  }

  lemma OneLive(at: int, now: int, window: nat)
    requires Fresh(at, now, window)
    ensures Live([at], now, window) == [at]
  {
    assert [at][1..] == [];
  }

  ghost predicate OthersLive(hits: map<string, seq<int>>, user: string, now: int, window: nat) {
    forall u :: u in hits && u != user ==> hits[u] != [] && Fresh(hits[u][|hits[u]| - 1], now, window)
  }

  lemma EvictedOthers(hits: map<string, seq<int>>, user: string, entry: seq<int>, now: int, window: nat)
    ensures OthersLive(Evict(hits, now, window)[user := entry], user, now, window)
  {
  }

  class RateLimiter {
    const max: nat
    const window: nat
    var hits: map<string, seq<int>>
    /** Every attempt so far, in the order of the lock. */
    ghost var attempts: seq<Attempt>

    ghost function History(): Run
      reads this
    {
      Run(attempts, max, window)
    }

    /** Every hit ever let through. */
    ghost function Log(): seq<Hit>
      reads this
    {
      History().Log(|attempts|)
    }

    ghost predicate Valid()
      reads this
    {
      Follows(hits, History())
    }

    constructor (max: nat, window: nat)
      ensures Valid() && attempts == [] && this.max == max && this.window == window
    {
      this.max, this.window := max, window;
      hits, attempts := map[], [];
    }

    /** The attempt is turned away when the complete log has it over the limit and enough of
        what is live has lasted; as long as times come in order, that is always so. */
    method CheckAt(user: string, now: int) returns (limited: bool)
      requires Valid()
      modifies this
      ensures Valid() && attempts == old(attempts) + [Attempt(Hit(user, now), !limited)]
      ensures limited <==> OverLimit(old(Log()), user, now, max, window) && !History().Forgetful(|old(attempts)|)
      ensures History().InOrder(|attempts|) ==> (limited <==> OverLimit(old(Log()), user, now, max, window))
      ensures Log() == if limited then old(Log()) else old(Log()) + [Hit(user, now)]
      ensures OthersLive(hits, user, now, window)
    {
      var evicted := Evict(hits, now, window);
      var entry := Live(Kept(evicted, user), now, window);
      EvictedOthers(hits, user, entry, now, window);
      EvictedOthers(hits, user, entry + [now], now, window);
      limited := |entry| >= max;
      ghost var r, a := History(), Attempt(Hit(user, now), !limited);
      FollowsOn(hits, r, a);
      if limited {
        hits := evicted[user := entry];
      } else {
        hits := evicted[user := entry + [now]];
      }
      attempts := attempts + [a];
      assert History() == r.With(a);
    }
  }

  // ---------------------------------------------------------------- whole runs

  function LogOf(attempts: seq<Hit>, max: nat, window: nat): seq<Hit> {
    if attempts == [] then []
    else Record(LogOf(attempts[..|attempts| - 1], max, window), attempts[|attempts| - 1], max, window)
  }

  ghost predicate Chronological(attempts: seq<Hit>) {
    forall i, j :: 0 <= i < j < |attempts| ==> attempts[i].at <= attempts[j].at
  }

  /** What was asked, whatever the answers. */
  function Asked(attempts: seq<Attempt>): seq<Hit> {
    if attempts == [] then [] else Asked(attempts[..|attempts| - 1]) + [attempts[|attempts| - 1].hit]
  }

  lemma {:induction false} AskedAt(attempts: seq<Attempt>)
    ensures |Asked(attempts)| == |attempts|
    ensures forall i :: 0 <= i < |attempts| ==> Asked(attempts)[i] == attempts[i].hit
    decreases |attempts|
  {
    if attempts != [] {
      AskedAt(attempts[..|attempts| - 1]);
    }
  }

  lemma AskedNext(attempts: seq<Attempt>, n: nat)
    requires n < |attempts|
    ensures Asked(attempts[..n + 1]) == Asked(attempts[..n]) + [attempts[n].hit]
  {
    assert attempts[..n + 1][..n] == attempts[..n];
  }

  /** While times come in order, the limiter's own log is the one these runs are about. */
  lemma {:induction false} InOrderLog(r: Run, n: nat)
    requires r.Genuine() && n <= |r.attempts| && r.InOrder(n)
    ensures r.Log(n) == LogOf(Asked(r.attempts[..n]), r.max, r.window)
  {
    if n > 0 {
      InOrderLog(r, n - 1);
      InOrderDecision(r, n - 1);
      AskedNext(r.attempts, n - 1);
      LogAppend(Asked(r.attempts[..n - 1]), r.attempts[n - 1].hit, r.max, r.window);
    }
  }

  lemma LogAppend(attempts: seq<Hit>, h: Hit, max: nat, window: nat)
    ensures LogOf(attempts + [h], max, window) == Record(LogOf(attempts, max, window), h, max, window)
  {
    assert (attempts + [h])[..|attempts|] == attempts;
  }

  lemma RecordIsAdmit(log: seq<Hit>, h: Hit, user: string, max: nat, window: nat)
    ensures TimesOf(Record(log, h, max, window), user) ==
            if h.user == user then Admit(TimesOf(log, user), h.at, max, window) else TimesOf(log, user)
  {
    TimesAppend(log, h, user);
  }

  /** Any `max + 1` accepted hits of one user span at least the window. */
  lemma {:induction false} UserSpaced(attempts: seq<Hit>, user: string, max: nat, window: nat, now: int)
    requires Chronological(attempts) && forall a :: a in attempts ==> a.at <= now
    ensures Sorted(TimesOf(LogOf(attempts, max, window), user))
    ensures Spaced(TimesOf(LogOf(attempts, max, window), user), max, window)
    ensures forall t :: t in TimesOf(LogOf(attempts, max, window), user) ==> t <= now
    decreases |attempts|
  {
    if attempts != [] {
      var earlier, last := attempts[..|attempts| - 1], attempts[|attempts| - 1];
      UserSpaced(earlier, user, max, window, last.at);
      var log := LogOf(earlier, max, window);
      RecordIsAdmit(log, last, user, max, window);
      AdmitKeepsSpaced(TimesOf(log, user), last.at, max, window);
    }
  }

  /** So do those the limiter itself accepts, as long as times come in order. */
  lemma LimiterSpaced(r: Run, user: string)
    requires r.Genuine() && r.InOrder(|r.attempts|)
    ensures Spaced(TimesOf(r.Log(|r.attempts|), user), r.max, r.window)
  {
    var n := |r.attempts|;
    InOrderLog(r, n);
    assert r.attempts[..n] == r.attempts;
    AskedAt(r.attempts);
    forall i, j | 0 <= i < j < n ensures Asked(r.attempts)[i].at <= Asked(r.attempts)[j].at {
      assert r.TimeAt(i) <= r.TimeAt(j);
    }
    var now := if n == 0 then 0 else r.TimeAt(n - 1);
    UserSpaced(Asked(r.attempts), user, r.max, r.window, now);
  }

  function OnlyUser(attempts: seq<Hit>, user: string): seq<Hit> {
    if attempts == [] then []
    else
      var mine := OnlyUser(attempts[..|attempts| - 1], user);
      if attempts[|attempts| - 1].user == user then mine + [attempts[|attempts| - 1]] else mine
  }

  /** Other users' traffic never changes what happens to a user's attempts. */
  lemma {:induction false} UsersAreIndependent(attempts: seq<Hit>, user: string, max: nat, window: nat)
    ensures TimesOf(LogOf(attempts, max, window), user) == TimesOf(LogOf(OnlyUser(attempts, user), max, window), user)
    decreases |attempts|
  {
    if attempts != [] {
      var earlier, last := attempts[..|attempts| - 1], attempts[|attempts| - 1];
      UsersAreIndependent(earlier, user, max, window);
      RecordIsAdmit(LogOf(earlier, max, window), last, user, max, window);
      if last.user == user {
        LogAppend(OnlyUser(earlier, user), last, max, window);
        RecordIsAdmit(LogOf(OnlyUser(earlier, user), max, window), last, user, max, window);
      }
    }
  }

  /** So a decision about a user is the one made with nobody else around. */
  lemma DecisionsAreIndependent(attempts: seq<Hit>, user: string, now: int, max: nat, window: nat)
    ensures OverLimit(LogOf(attempts, max, window), user, now, max, window)
        <==> OverLimit(LogOf(OnlyUser(attempts, user), max, window), user, now, max, window)
  {
    UsersAreIndependent(attempts, user, max, window);
  }
}

/** Waiting for one of `limit` request slots per minute. */
module ToolSlots {
  import opened Counting
  import opened SlidingWindow

  const MINUTE := 60_000_000_000 // nanoseconds

  /** A slot, a time to sleep, or an index out of range. */
  datatype Attempt = Taken | Wait(time: int) | Crash

  /** A time to sleep after which a slot is free, unless others take it. */
  ghost predicate EndsWait(log: seq<int>, now: int, time: int, limit: nat) {
    0 < time <= MINUTE && |Live(log, now + time, MINUTE)| < limit
  }

  /** How many events are less than a minute old. */
  lemma {:induction false} LiveCount(ts: seq<int>, now: int)
    requires forall t :: t in ts ==> t <= now
    ensures |Live(ts, now, MINUTE)| == |Indices(ts, t => now - t < 60_000_000_000)|
  {
    if ts != [] {
      assert forall t :: t in ts[1..] ==> t in ts;
      LiveCount(ts[1..], now);
      FirstIndex(ts, t => now - t < 60_000_000_000);
      assert ts[0] in ts;
    }
  }

  /** A slot taken is recorded, and nothing else is; a wait lasts until some request is a minute old. */
  ghost predicate Tried(attempt: Attempt, before: seq<int>, after: seq<int>, now: int) {
    && after == (if attempt.Taken? then before + [now] else before)
    && (attempt.Wait? ==> exists t :: t in before && now + attempt.time == t + 60_000_000_000)
  }

  lemma LiveSorted(requests: seq<int>, now: int, limit: nat)
    requires Sorted(requests) && |requests| <= limit && forall t :: t in requests ==> t <= now
    ensures var live := Live(requests, now, MINUTE);
            Sorted(live) && |live| <= limit && forall t :: t in live ==> t <= now
  {
    var cut := LiveIsSuffix(requests, now, MINUTE);
  }

  /** When the oldest live request expires, one fewer is live. */
  lemma OldestLeaves(log: seq<int>, requests: seq<int>, now: int, limit: nat)
    requires requests == Live(log, now, MINUTE) && Sorted(requests) && |requests| == limit > 0
    requires forall t :: t in requests ==> t <= now
    ensures EndsWait(log, now, MINUTE - (now - requests[0]), limit)
  {
    var oldest := requests[0];
    assert oldest in requests && oldest in Live(log, now, MINUTE) && oldest <= now;
    LiveTwice(log, now, oldest + MINUTE, MINUTE);
    FirstExpires(requests);
  }

  lemma FirstExpires(requests: seq<int>)
    requires Sorted(requests) && requests != []
    ensures |Live(requests, requests[0] + MINUTE, MINUTE)| < |requests|
  {
    var k := LiveIsSuffix(requests, requests[0] + MINUTE, MINUTE);
    assert !Fresh(requests[0], requests[0] + MINUTE, MINUTE);
  }

  class Requests {
    var requests: seq<int>
    /** The latest time read under the lock, and every request ever recorded. */
    var clock: int
    ghost var log: seq<int>

    ghost predicate Valid(limit: nat)
      reads this
    {
      && Sorted(requests) && Sorted(log) && Spaced(log, limit, MINUTE)
      && (forall t :: t in requests || t in log ==> t <= clock)
      && |requests| <= limit
      && requests == Live(log, clock, MINUTE)
    }

    constructor (limit: nat, start: int)
      ensures Valid(limit) && log == [] && clock == start
    {
      requests, clock, log := [], start, [];
    }

    /** One pass under the lock: take a slot, or learn how long to sleep.  With no slots at
        all there is no oldest request to ask. */
    method TrySlot(now: int, limit: nat) returns (attempt: Attempt)
      requires Valid(limit) && clock <= now
      modifies this
      ensures Valid(limit) && clock == now
      ensures log == Admit(old(log), now, limit, MINUTE)
      ensures attempt.Crash? <==> limit == 0
      ensures attempt.Taken? <==> |Live(old(log), now, MINUTE)| < limit
      ensures attempt.Wait? ==> EndsWait(log, now, attempt.time, limit)
      ensures Tried(attempt, old(log), log, now)
    {
      LiveTwice(log, clock, now, MINUTE);
      AdmitKeepsSpaced(log, now, limit, MINUTE);
      LiveSorted(requests, now, limit);
      clock := now;
      requests := Live(requests, now, MINUTE);
      if |requests| < limit {
        SortedAppend(requests, now);
        LiveAppend(log, now, now, MINUTE);
        requests := requests + [now];
        log := log + [now];
        return Taken;
      }
      if requests == [] {
        return Crash;
      }
      OldestLeaves(log, requests, now, limit);
      assert requests[0] in requests && requests[0] in log;
      return Wait(MINUTE - (now - requests[0]));
    }

    /** Attempts of other callers, while this one sleeps. */
    method Others(limit: nat)
      requires Valid(limit)
      modifies this
      ensures Valid(limit) && old(clock) <= clock && old(log) <= log
    {
      var events: nat := *;
      while events > 0
        invariant Valid(limit) && old(clock) <= clock && old(log) <= log
      {
        events := events - 1;
        var now: int := *;
        if clock <= now {
          var attempt := TrySlot(now, limit);
        }
      }
    }

    /** Sleep, while others may take slots; if nobody did, one is free afterwards. */
    method Sleep(time: int, limit: nat, alone: bool, oversleep: nat) returns (now: int)
      requires Valid(limit) && EndsWait(log, clock, time, limit)
      modifies this
      ensures Valid(limit) && clock <= now && old(clock) + time <= now && old(log) <= log
      ensures |log| == |old(log)| ==> |Live(log, now, MINUTE)| < limit
      ensures alone ==> log == old(log) && now == old(clock) + time + oversleep
    {
      ghost var slept, due := log, clock + time;
      now := clock + time;
      if !alone {
        Others(limit);
      }
      if now < clock {
        now := clock;
      }
      now := now + oversleep;
      FewerLater(slept, due, now, MINUTE);
      assert |log| == |slept| ==> log == slept;
    }

    /** Sleep, and try again. */
    method SleepAndTry(time: int, limit: nat, alone: bool, oversleep: nat)
      returns (attempt: Attempt, now: int, ghost before: seq<int>)
      requires Valid(limit) && EndsWait(log, clock, time, limit)
      modifies this
      ensures Valid(limit) && clock == now >= old(clock) + time && old(log) <= before && !attempt.Crash?
      ensures Tried(attempt, before, log, now)
      ensures attempt.Wait? ==> |before| > |old(log)| && EndsWait(log, now, attempt.time, limit)
      ensures alone ==> attempt.Taken? && before == old(log) && now == old(clock) + time + oversleep
    {
      now := Sleep(time, limit, alone, oversleep);
      before := log;
      attempt := TrySlot(now, limit);
    }

    /** A caller that tries again after each sleep, at most `patience` times.  It is recorded
        once, when it takes a slot; it loses its turn only to another caller that takes one;
        and without others it sleeps at most once, for a minute and what `oversleep` adds. */
    method WaitForSlot(start: int, limit: nat, alone: bool, oversleep: nat, patience: nat)
      returns (attempt: Attempt, now: int, ghost before: seq<int>)
      requires Valid(limit) && clock <= start
      modifies this
      ensures Valid(limit) && start <= now && clock == now && old(log) <= before
      ensures attempt.Crash? <==> limit == 0
      ensures log == if attempt.Taken? then before + [now] else before
      ensures attempt.Wait? ==> |before| >= |old(log)| + patience
      ensures alone && limit > 0 && patience > 0 ==>
                && attempt.Taken? && before == old(log) && now <= start + MINUTE + oversleep
                && (now == start <==> |Live(old(log), start, MINUTE)| < limit)
    {
      now, before := start, log;
      attempt := TrySlot(now, limit);
      var tries := 0;
      while attempt.Wait? && tries < patience
        invariant Valid(limit) && start <= now && clock == now && tries <= patience && old(log) <= before
        invariant attempt.Crash? <==> limit == 0
        invariant log == if attempt.Taken? then before + [now] else before
        invariant attempt.Wait? ==> |before| >= |old(log)| + tries && EndsWait(log, now, attempt.time, limit)
        invariant tries == 0 ==> now == start && before == old(log)
        invariant tries == 0 && limit > 0 ==> (attempt.Taken? <==> |Live(old(log), start, MINUTE)| < limit)
        invariant tries > 0 ==> now > start && |Live(old(log), start, MINUTE)| >= limit
        invariant alone && tries > 0 ==> attempt.Taken? && before == old(log) && now <= start + MINUTE + oversleep
        decreases patience - tries
      {
        attempt, now, before := SleepAndTry(attempt.time, limit, alone, oversleep);
        tries := tries + 1;
      }
    }
  }
}
