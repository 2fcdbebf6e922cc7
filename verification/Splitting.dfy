/** A text cut at every copy of a separator, leftmost first, as `str::split` does it. */
module Splitting {
  import opened Text

  /** `gaps` are what lies between copies of `pat` when the copies are taken leftmost first. */
  ghost predicate Leftmost(gaps: seq<string>, pat: string) {
    && gaps != []
    && (forall i :: 0 <= i < |gaps| - 1 ==> GapOk(gaps[i], pat))
    && !Occurs(gaps[|gaps| - 1], pat)
  }

  function Gaps(s: string, pat: string): seq<string>
    requires pat != ""
    decreases |s|
  {
    match Find(s, pat)
    case None => [s]
    case Some(i) => [s[..i]] + Gaps(s[i + |pat|..], pat)
  }

  lemma JoinCons(head: string, pieces: seq<string>, sep: string)
    requires pieces != []
    ensures Join([head] + pieces, sep) == head + sep + Join(pieces, sep)
  {
    assert ([head] + pieces)[1..] == pieces;
  }

  lemma {:induction false} GapsJoin(s: string, pat: string, sub: string)
    requires pat != ""
    ensures Gaps(s, pat) != [] && |Gaps(s, pat)| == Count(s, pat) + 1
    ensures Join(Gaps(s, pat), sub) == Replace(s, pat, sub)
    ensures Join(Gaps(s, pat), pat) == s
    decreases |s|
  {
    var found := Find(s, pat);
    if found.Some? {
      var head, rest := s[..found.value], s[found.value + |pat|..];
      GapsJoin(rest, pat, sub);
      JoinCons(head, Gaps(rest, pat), sub);
      JoinCons(head, Gaps(rest, pat), pat);
      MatchSplits(s, pat, found.value);
    }
  }

  /** No match of `pat` starts inside the gap in front of it. */
  ghost predicate GapOk(gap: string, pat: string) {
    forall j :: 0 <= j < |gap| ==> !MatchAt(gap + pat, pat, j)
  }

  lemma FoundGapOk(s: string, pat: string, i: nat)
    requires Find(s, pat) == Some(i)
    ensures GapOk(s[..i], pat)
  {
    var head := s[..i + |pat|];
    assert s[..i] + pat == head;
    forall j | 0 <= j < i ensures !MatchAt(head, pat, j) {
      if MatchAt(head, pat, j) {
        MatchInPrefix(s, pat, i + |pat|, j);
      }
    }
  }

  lemma {:induction false} GapsLeftmost(s: string, pat: string)
    requires pat != ""
    ensures Leftmost(Gaps(s, pat), pat)
    decreases |s|
  {
    var found := Find(s, pat);
    if found.Some? {
      FoundGapOk(s, pat, found.value);
      var rest := Gaps(s[found.value + |pat|..], pat);
      GapsLeftmost(s[found.value + |pat|..], pat);
      var g := Gaps(s, pat);
      assert g == [s[..found.value]] + rest;
      forall k | 0 <= k < |g| - 1 ensures GapOk(g[k], pat) {
        if k > 0 { assert g[k] == rest[k - 1]; }
      }
    }
  }

  /** The leftmost match of a text that starts with a leftmost gap. */
  lemma FirstGap(gap: string, pat: string, rest: string)
    requires GapOk(gap, pat)
    ensures Find(gap + pat + rest, pat) == Some(|gap|)
  {
    var s := gap + pat + rest;
    MatchBetween(gap, pat, rest);
    assert s[..|gap| + |pat|] == gap + pat;
    forall j | 0 <= j < |gap| ensures !MatchAt(s, pat, j) {
      if MatchAt(s, pat, j) {
        ShortMatch(s, pat, |gap| + |pat|, j);
      }
    }
    FindIs(s, pat, |gap|);
  }

  lemma ShortMatch(s: string, p: string, n: nat, j: nat)
    requires MatchAt(s, p, j) && j + |p| <= n <= |s|
    ensures MatchAt(s[..n], p, j)
  {
    assert s[..n][j..j + |p|] == s[j..j + |p|];
  }

  /** There is only one leftmost decomposition of a text. */
  lemma {:induction false} LeftmostIsUnique(gaps: seq<string>, pat: string)
    requires pat != "" && Leftmost(gaps, pat)
    ensures Gaps(Join(gaps, pat), pat) == gaps
    decreases |gaps|
  {
    if |gaps| > 1 {
      var gap, rest := gaps[0], gaps[1..];
      forall k | 0 <= k < |rest| - 1 ensures GapOk(rest[k], pat) {
        assert rest[k] == gaps[k + 1];
      }
      LeftmostIsUnique(rest, pat);
      UniqueStep(gap, pat, Join(rest, pat));
      assert gaps == [gap] + rest;
    }
  }

  lemma UniqueStep(gap: string, pat: string, rest: string)
    requires pat != "" && GapOk(gap, pat)
    ensures Gaps(gap + pat + rest, pat) == [gap] + Gaps(rest, pat)
  {
    FirstGap(gap, pat, rest);
    var s := gap + pat + rest;
    assert s[..|gap|] == gap;
    assert s[|gap| + |pat|..] == rest;
  }
}
