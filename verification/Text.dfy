/** Leftmost, non-overlapping search and replacement, as `str::find`, `str::matches`
    and `str::replace` do it, with Rust's notions of byte length and white space. */
module Text {
  datatype Option<+T> = None | Some(value: T)

  predicate MatchAt(s: string, p: string, i: int) {
    0 <= i <= |s| - |p| && s[i..i + |p|] == p
  }

  ghost predicate Occurs(s: string, p: string) {
    exists i :: MatchAt(s, p, i)
  }

  /** The leftmost match of `p` in `s` at or after `from`. */
  function FindFrom(s: string, p: string, from: nat): (r: Option<nat>)
    requires from <= |s|
    ensures match r
            case Some(i) => from <= i && MatchAt(s, p, i) && (forall j :: from <= j < i ==> !MatchAt(s, p, j))
            case None => forall j :: from <= j ==> !MatchAt(s, p, j)
    decreases |s| - from
  {
    if MatchAt(s, p, from) then Some(from)
    else if from == |s| then None
    else FindFrom(s, p, from + 1)
  }

  function Find(s: string, p: string): (r: Option<nat>)
    ensures r.Some? <==> Occurs(s, p)
    ensures r.Some? ==> MatchAt(s, p, r.value) && forall j :: 0 <= j < r.value ==> !MatchAt(s, p, j)
  {
    FindFrom(s, p, 0)
  }

  /** `s.replace(pat, sub)`. */
  function Replace(s: string, pat: string, sub: string): string
    requires pat != ""
    decreases |s|
  {
    match Find(s, pat)
    case None => s
    case Some(i) => s[..i] + sub + Replace(s[i + |pat|..], pat, sub)
  }

  /** `s.matches(pat).count()`. */
  function Count(s: string, pat: string): nat
    requires pat != ""
    decreases |s|
  {
    match Find(s, pat)
    case None => 0
    case Some(i) => 1 + Count(s[i + |pat|..], pat)
  }

  /** `s.replacen(pat, sub, 1)`. */
  function ReplaceFirst(s: string, pat: string, sub: string): string {
    match Find(s, pat)
    case None => s
    case Some(i) => s[..i] + sub + s[i + |pat|..]
  }

  /** `pieces.join(sep)`. */
  function Join(pieces: seq<string>, sep: string): string {
    if pieces == [] then ""
    else if |pieces| == 1 then pieces[0]
    else pieces[0] + sep + Join(pieces[1..], sep)
  }

  lemma OccursInside(a: string, s: string, b: string, p: string)
    requires Occurs(s, p)
    ensures Occurs(a + s + b, p)
  {
    var i :| MatchAt(s, p, i);
    assert (a + s + b)[|a| + i..|a| + i + |p|] == s[i..i + |p|];
    assert MatchAt(a + s + b, p, |a| + i);
  }

  /** An occurrence that avoids the character `c` lies on one side of it. */
  lemma SplitsAtForeignChar(a: string, c: char, b: string, p: string)
    requires c !in p && Occurs(a + [c] + b, p)
    ensures Occurs(a, p) || Occurs(b, p)
  {
    var s := a + [c] + b;
    var i :| MatchAt(s, p, i);
    assert c == s[|a|];
    if i + |p| <= |a| {
      assert a[i..i + |p|] == s[i..i + |p|];
      assert MatchAt(a, p, i);
    } else {
      var j := i - |a| - 1;
      assert b[j..j + |p|] == s[i..i + |p|];
      assert MatchAt(b, p, j);
    }
  }

  lemma OccursChar(v: string, c: char)
    ensures Occurs(v, [c]) <==> c in v
  {
    if c in v {
      var i :| 0 <= i < |v| && v[i] == c;
      assert v[i..i + 1] == [c];
      assert MatchAt(v, [c], i);
    }
    if Occurs(v, [c]) {
      var i :| MatchAt(v, [c], i);
      assert v[i..i + 1][0] == c;
    }
  }

  /** What occurs nowhere in a text occurs in none of its parts. */
  lemma PartsAreClean(a: string, s: string, b: string, p: string)
    requires !Occurs(a + s + b, p)
    ensures !Occurs(s, p)
  {
    if Occurs(s, p) {
      OccursInside(a, s, b, p);
    }
  }

  lemma MatchInPrefix(s: string, p: string, i: nat, j: int)
    requires i <= |s| && MatchAt(s[..i], p, j)
    ensures MatchAt(s, p, j) && j + |p| <= i
  {
    assert s[j..j + |p|] == s[..i][j..j + |p|];
  }

  /** The text before the leftmost match holds no match. */
  lemma BeforeFirstMatch(s: string, p: string, i: nat)
    requires i <= |s| && p != "" && forall j :: 0 <= j < i ==> !MatchAt(s, p, j)
    ensures !Occurs(s[..i], p)
  {
    forall j ensures !MatchAt(s[..i], p, j) {
      if MatchAt(s[..i], p, j) {
        MatchInPrefix(s, p, i, j);
      }
    }
  }

  lemma FindIs(s: string, p: string, i: nat)
    requires MatchAt(s, p, i) && forall j :: 0 <= j < i ==> !MatchAt(s, p, j)
    ensures Find(s, p) == Some(i)
  {
  }

  lemma MatchSplits(s: string, p: string, i: nat)
    requires MatchAt(s, p, i)
    ensures s == s[..i] + p + s[i + |p|..]
  {
  }

  lemma MatchBetween(a: string, p: string, b: string)
    ensures MatchAt(a + p + b, p, |a|)
  {
    assert (a + p + b)[|a|..|a| + |p|] == p;
  }

  lemma ReplaceAbsent(s: string, pat: string, sub: string)
    requires pat != ""
    ensures !Occurs(s, pat) <==> Count(s, pat) == 0
    ensures !Occurs(s, pat) ==> Replace(s, pat, sub) == s
  {
  }

  /** The replacement occurs wherever anything was replaced. */
  lemma ReplacePresent(s: string, pat: string, sub: string)
    requires pat != "" && Occurs(s, pat)
    ensures Occurs(Replace(s, pat, sub), sub)
    ensures |pat| == |sub| && Replace(s, pat, sub) == s ==> pat == sub
  {
    var i := Find(s, pat).value;
    var rest := Replace(s[i + |pat|..], pat, sub);
    MatchBetween(s[..i], sub, rest);
    assert Replace(s, pat, sub) == s[..i] + sub + rest;
  }

  lemma OneMore(n: int, d: int)
    ensures (1 + n) * d == n * d + d
  {
  }

  lemma {:induction false} ReplaceLength(s: string, pat: string, sub: string)
    requires pat != ""
    ensures |Replace(s, pat, sub)| == |s| + Count(s, pat) * (|sub| - |pat|)
    decreases |s|
  {
    match Find(s, pat)
    case None =>
      ReplaceAbsent(s, pat, sub);
    case Some(i) =>
      var after := s[i + |pat|..];
      ReplaceLength(after, pat, sub);
      ReplaceFound(s, pat, sub, i, after, Replace(after, pat, sub));
      CountFound(s, pat, i, after);
      OneMore(Count(after, pat), |sub| - |pat|);
  }

  lemma MatchInTail(s: string, p: string, j: int)
    requires s != ""
    ensures MatchAt(s[1..], p, j) <==> j >= 0 && MatchAt(s, p, j + 1)
  {
    if 0 <= j <= |s| - 1 - |p| {
      assert s[1..][j..j + |p|] == s[j + 1..j + 1 + |p|];
    }
  }

  /** The leftmost match, seen from one character further on. */
  lemma {:induction false} FindInTail(s: string, p: string)
    requires s != "" && !MatchAt(s, p, 0)
    ensures Find(s, p) == match Find(s[1..], p) case None => None case Some(i) => Some(i + 1)
  {
    forall j ensures MatchAt(s[1..], p, j) <==> j >= 0 && MatchAt(s, p, j + 1) {
      MatchInTail(s, p, j);
    }
    match Find(s[1..], p)
    case None =>
      forall j ensures !MatchAt(s, p, j) {
        if j > 0 { MatchInTail(s, p, j - 1); }
      }
    case Some(i) =>
      forall j | 0 <= j < i + 1 ensures !MatchAt(s, p, j) {
        if j > 0 { MatchInTail(s, p, j - 1); }
      }
      FindIs(s, p, i + 1);
  }

  lemma {:induction false} ReplaceLater(s: string, p: string, sub: string)
    requires s != "" && p != "" && !MatchAt(s, p, 0)
    ensures Replace(s, p, sub) == [s[0]] + Replace(s[1..], p, sub)
  {
    FindInTail(s, p);
    match Find(s[1..], p)
    case None =>
      assert s == [s[0]] + s[1..];
    case Some(i) =>
      var after := s[i + 1 + |p|..];
      var rest := Replace(after, p, sub);
      OneFurther(s, i, sub, |p|, rest);
      ReplaceFound(s, p, sub, i + 1, after, rest);
      ReplaceFound(s[1..], p, sub, i, after, rest);
  }

  lemma {:induction false} ReplaceFound(s: string, p: string, sub: string, i: nat, after: string, rest: string)
    requires p != "" && Find(s, p) == Some(i) && s[i + |p|..] == after && Replace(after, p, sub) == rest
    ensures Replace(s, p, sub) == s[..i] + sub + rest
  {
  }

  lemma {:induction false} CountFound(s: string, p: string, i: nat, after: string)
    requires p != "" && Find(s, p) == Some(i) && s[i + |p|..] == after
    ensures Count(s, p) == 1 + Count(after, p)
  {
  }

  lemma OneFurther(s: string, i: nat, sub: string, n: nat, rest: string)
    requires i + 1 + n <= |s|
    ensures s[1..][i + n..] == s[i + 1 + n..]
    ensures s[..i + 1] + sub + rest == [s[0]] + (s[1..][..i] + sub + rest)
  {
    assert s[..i + 1] == [s[0]] + s[1..][..i];
  }

  /** Replacing a single character works character by character. */
  lemma {:induction false} ReplaceChar(s: string, c: char, sub: string)
    requires s != ""
    ensures Replace(s, [c], sub) == (if s[0] == c then sub else [s[0]]) + Replace(s[1..], [c], sub)
  {
    if s[0] == c {
      FindIs(s, [c], 0);
      assert s[..0] + sub == sub;
    } else {
      ReplaceLater(s, [c], sub);
    }
  }

  /** `char::len_utf8`. */
  function Utf8Width(c: char): nat {
    if c < '\U{80}' then 1 else if c < '\U{800}' then 2 else if c < '\U{10000}' then 3 else 4
  }

  /** `str::len`: the length of the text in UTF-8 bytes. */
  function ByteLen(s: string): nat {
    if s == "" then 0 else Utf8Width(s[0]) + ByteLen(s[1..])
  }

  lemma {:induction false} AsciiByteLen(s: string)
    requires forall c :: c in s ==> c < '\U{80}'
    ensures ByteLen(s) == |s|
  {
    if s != "" {
      assert s[0] in s && forall c :: c in s[1..] ==> c in s;
      AsciiByteLen(s[1..]);
    }
  }

  /** `char::is_whitespace`: the Unicode property White_Space. */
  predicate IsWhitespace(c: char) {
    || '\t' <= c <= '\r' || c == ' ' || c == '\U{85}' || c == '\U{A0}' || c == '\U{1680}'
    || '\U{2000}' <= c <= '\U{200A}' || c == '\U{2028}' || c == '\U{2029}' || c == '\U{202F}'
    || c == '\U{205F}' || c == '\U{3000}'
  }

  /** `str::trim_start`. */
  function TrimStart(s: string): string {
    if s != "" && IsWhitespace(s[0]) then TrimStart(s[1..]) else s
  }

  /** `str::trim_end`. */
  function TrimEnd(s: string): string {
    if s != "" && IsWhitespace(s[|s| - 1]) then TrimEnd(s[..|s| - 1]) else s
  }

  function Trim(s: string): string { TrimEnd(TrimStart(s)) }

  predicate StartsWith(s: string, p: string) { p <= s }

  predicate EndsWith(s: string, p: string) { |p| <= |s| && s[|s| - |p|..] == p }
}
