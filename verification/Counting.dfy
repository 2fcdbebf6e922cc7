/** Counting the elements of a sequence that satisfy a predicate. */
module Counting {
  function CountIf<T>(s: seq<T>, f: T -> bool): nat {
    if s == [] then 0 else CountIf(s[..|s| - 1], f) + if f(s[|s| - 1]) then 1 else 0
  }

  lemma CountAppend<T>(s: seq<T>, x: T, f: T -> bool)
    ensures CountIf(s + [x], f) == CountIf(s, f) + if f(x) then 1 else 0
  {
    assert (s + [x])[..|s|] == s;
  }

  lemma {:induction false} CountUpdate<T>(s: seq<T>, i: nat, x: T, f: T -> bool)
    requires i < |s|
    ensures CountIf(s[i := x], f) == CountIf(s, f) - (if f(s[i]) then 1 else 0) + (if f(x) then 1 else 0)
    decreases |s|
  {
    var n := |s| - 1;
    if i == n {
      assert s[i := x][..n] == s[..n];
    } else {
      assert s[i := x][..n] == s[..n][i := x];
      CountUpdate(s[..n], i, x, f);
    }
  }

  /** Where the elements that satisfy a predicate stand. */
  ghost function Indices<T>(s: seq<T>, f: T -> bool): set<nat> {
    set k: nat | k < |s| && f(s[k])
  }

  lemma {:induction false} CountFirst<T>(s: seq<T>, f: T -> bool)
    requires s != []
    ensures CountIf(s, f) == CountIf(s[1..], f) + if f(s[0]) then 1 else 0
    decreases |s|
  {
    if |s| > 1 {
      CountFirst(s[..|s| - 1], f);
      assert s[..|s| - 1][1..] == s[1..][..|s| - 2];
    }
  }

  /** Counting is counting the places. */
  lemma {:induction false} CountIsIndices<T>(s: seq<T>, f: T -> bool)
    ensures CountIf(s, f) == |Indices(s, f)|
    decreases |s|
  {
    if s != [] {
      var n := |s| - 1;
      CountIsIndices(s[..n], f);
      if f(s[n]) {
        assert Indices(s, f) == Indices(s[..n], f) + {n};
      } else {
        assert Indices(s, f) == Indices(s[..n], f);
      }
    } else {
      assert Indices(s, f) == {};
    }
  }

  lemma FirstIndex<T>(s: seq<T>, f: T -> bool)
    requires s != []
    ensures |Indices(s, f)| == |Indices(s[1..], f)| + if f(s[0]) then 1 else 0
  {
    CountIsIndices(s, f);
    CountIsIndices(s[1..], f);
    CountFirst(s, f);
  }

  /** The numbers below `n` that satisfy a predicate. */
  ghost function Below(n: nat, p: nat -> bool): set<nat> {
    set i: nat | i < n && p(i)
  }

  lemma BelowNext(n: nat, p: nat -> bool)
    ensures |Below(n, p)| == if n == 0 then 0 else |Below(n - 1, p)| + if p(n - 1) then 1 else 0
  {
    if n == 0 {
      assert Below(n, p) == {};
    } else if p(n - 1) {
      assert Below(n, p) == Below(n - 1, p) + {n - 1};
    } else {
      assert Below(n, p) == Below(n - 1, p);
    }
  }
}
