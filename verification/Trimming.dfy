/** White space at the ends of a text, and what trimming takes off. */
module Trimming {
  import opened Text

  predicate AllWhite(s: string) { forall c :: c in s ==> IsWhitespace(c) }

  /** No white space at either end. */
  predicate Tight(s: string) { s != "" ==> !IsWhitespace(s[0]) && !IsWhitespace(s[|s| - 1]) }

  lemma {:induction false} TrimStartIs(a: string, m: string)
    requires AllWhite(a) && (m != "" ==> !IsWhitespace(m[0]))
    ensures TrimStart(a + m) == m
  {
    if a == "" {
      assert a + m == m;
    } else {
      assert a[0] in a && (a + m)[1..] == a[1..] + m;
      assert forall c :: c in a[1..] ==> c in a;
      TrimStartIs(a[1..], m);
    }
  }

  lemma {:induction false} TrimEndIs(m: string, b: string)
    requires AllWhite(b) && (m != "" ==> !IsWhitespace(m[|m| - 1]))
    ensures TrimEnd(m + b) == m
    decreases |b|
  {
    if b == "" {
      assert m + b == m;
    } else {
      assert b[|b| - 1] in b && (m + b)[..|m + b| - 1] == m + b[..|b| - 1];
      assert forall c :: c in b[..|b| - 1] ==> c in b;
      TrimEndIs(m, b[..|b| - 1]);
    }
  }

  lemma TrimIs(a: string, m: string, b: string)
    requires AllWhite(a) && AllWhite(b) && Tight(m)
    ensures Trim(a + m + b) == m
  {
    if m == "" {
      assert a + m + b == (a + b) + "";
      TrimStartIs(a + b, "");
      assert TrimEnd("") == "";
    } else {
      assert a + m + b == a + (m + b);
      TrimStartIs(a, m + b);
      TrimEndIs(m, b);
    }
  }

  lemma {:induction false} TrimStartParts(s: string) returns (a: string)
    ensures s == a + TrimStart(s) && AllWhite(a)
    ensures TrimStart(s) != "" ==> !IsWhitespace(TrimStart(s)[0])
  {
    a := "";
    if s != "" && IsWhitespace(s[0]) {
      var a' := TrimStartParts(s[1..]);
      a := [s[0]] + a';
      assert s == [s[0]] + s[1..];
    }
  }

  lemma {:induction false} TrimEndParts(s: string) returns (b: string)
    ensures s == TrimEnd(s) + b && AllWhite(b)
    ensures TrimEnd(s) != "" ==> !IsWhitespace(TrimEnd(s)[|TrimEnd(s)| - 1])
  {
    b := "";
    if s != "" && IsWhitespace(s[|s| - 1]) {
      var b' := TrimEndParts(s[..|s| - 1]);
      b := b' + [s[|s| - 1]];
      assert s == s[..|s| - 1] + [s[|s| - 1]];
    }
  }

  /** What trimming takes off. */
  lemma TrimParts(s: string) returns (a: string, b: string)
    ensures s == a + Trim(s) + b && AllWhite(a) && AllWhite(b) && Tight(Trim(s))
  {
    a := TrimStartParts(s);
    b := TrimEndParts(TrimStart(s));
    var t, m := TrimStart(s), Trim(s);
    assert s == a + t && t == m + b;
    if m != "" {
      assert t[0] == m[0];
    }
  }

  lemma TightTrims(s: string)
    requires Tight(s)
    ensures Trim(s) == s
  {
    TrimIs("", s, "");
    assert "" + s + "" == s;
  }
}
