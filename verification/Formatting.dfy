/** Splitting long messages into chunks. */
module MessageSplitting {
  import opened Text

  /** A chunk that starts at `start` and must end early ends at the last newline of its
      window past its first character, or at the limit if there is none. */
  ghost predicate BestCut(text: string, start: nat, cut: nat, limit: nat)
    requires start + limit <= |text|
  {
    && start < cut <= start + limit
    && (cut < start + limit ==> text[cut] == '\n')
    && (cut == start + limit ==> forall k :: start < k < cut ==> text[k] != '\n')
    && (forall k :: cut < k < start + limit ==> text[k] != '\n')
  }

  /** One chunk of `text`: it lies at `start`, and what is dropped before `next` is the
      whole run of newlines behind it. */
  ghost predicate ChunkAt(text: string, limit: nat, start: nat, chunk: string, next: nat) {
    var cut := start + |chunk|;
    && 1 <= |chunk| <= limit && cut <= next <= |text| && chunk == text[start..cut]
    && (forall k :: cut <= k < next ==> text[k] == '\n')
    && (next < |text| ==> text[next] != '\n')
    && if |text| - start <= limit then cut == |text| else BestCut(text, start, cut, limit)
  }

  /** The chunks are all of the text, in order, but for the dropped newline runs. */
  ghost predicate Chunked(text: string, limit: nat, chunks: seq<string>, starts: seq<nat>) {
    && |starts| == |chunks| + 1 && starts[0] == 0 && starts[|chunks|] == |text|
    && forall i :: 0 <= i < |chunks| ==> ChunkAt(text, limit, starts[i], chunks[i], starts[i + 1])
  }

  /** `(start..end).rev().find(newline)`. */
  function LastNewline(text: string, start: nat, end: nat): (r: Option<nat>)
    requires start <= end <= |text|
    ensures r.Some? ==> start <= r.value < end && text[r.value] == '\n'
    ensures forall k :: start <= k < end && (r.Some? ==> k > r.value) ==> text[k] != '\n'
    decreases end
  {
    if start == end then None
    else if text[end - 1] == '\n' then Some(end - 1)
    else LastNewline(text, start, end - 1)
  }

  method SplitText(text: string, limit0: nat) returns (chunks: seq<string>, ghost starts: seq<nat>)
    ensures text == "" ==> chunks == [""]
    ensures text != "" ==> Chunked(text, if limit0 >= 1 then limit0 else 1, chunks, starts)
  {
    var limit := if limit0 >= 1 then limit0 else 1;
    if |text| <= limit {
      chunks, starts := [text], [0, |text|];
      return;
    }
    chunks, starts := [], [0];
    var start := 0;
    while start < |text|
      invariant start <= |text| && |starts| == |chunks| + 1 && starts[0] == 0 && starts[|chunks|] == start
      invariant forall i :: 0 <= i < |chunks| ==> ChunkAt(text, limit, starts[i], chunks[i], starts[i + 1])
      decreases |text| - start
    {
      if |text| - start <= limit {
        assert ChunkAt(text, limit, start, text[start..], |text|);
        chunks, starts := chunks + [text[start..]], starts + [|text|];
        break;
      }
      var end := start + limit;
      var newline := LastNewline(text, start, end);
      var split := if newline.Some? && newline.value > start then newline.value else end;
      assert BestCut(text, start, split, limit);
      var chunk := text[start..split];
      var next := split;
      while next < |text| && text[next] == '\n'
        invariant split <= next <= |text| && forall k :: split <= k < next ==> text[k] == '\n'
      {
        next := next + 1;
      }
      assert ChunkAt(text, limit, start, chunk, next);
      chunks, starts := chunks + [chunk], starts + [next];
      start := next;
    }
  }

  lemma CutIsUnique(text: string, limit: nat, start: nat, c: string, n: nat, c': string, n': nat)
    requires ChunkAt(text, limit, start, c, n) && ChunkAt(text, limit, start, c', n')
    ensures c == c' && n == n'
  {
  }

  /** A text can be chunked in one way only. */
  lemma {:induction false} ChunkingIsUnique(text: string, limit: nat, a: seq<string>, s: seq<nat>, b: seq<string>,
      t: seq<nat>, i: nat)
    requires Chunked(text, limit, a, s) && Chunked(text, limit, b, t)
    requires i <= |a| && i <= |b| && a[..i] == b[..i] && s[i] == t[i]
    ensures a == b
    decreases |a| - i
  {
    if i < |a| && i < |b| {
      CutIsUnique(text, limit, s[i], a[i], s[i + 1], b[i], t[i + 1]);
      assert a[..i + 1] == a[..i] + [a[i]] && b[..i + 1] == b[..i] + [b[i]];
      ChunkingIsUnique(text, limit, a, s, b, t, i + 1);
    } else if i < |a| {
      StartsGrow(text, limit, a, s, i);
    } else if i < |b| {
      StartsGrow(text, limit, b, t, i);
    }
  }

  lemma StartsGrow(text: string, limit: nat, a: seq<string>, s: seq<nat>, i: nat)
    requires Chunked(text, limit, a, s) && i < |a|
    ensures s[i] < |text|
  {
    assert ChunkAt(text, limit, s[i], a[i], s[i + 1]);
  }

  function WithoutNewlines(s: string): string {
    if s == "" then ""
    else WithoutNewlines(s[..|s| - 1]) + if s[|s| - 1] == '\n' then "" else [s[|s| - 1]]
  }

  function Joined(chunks: seq<string>): string {
    if chunks == [] then "" else Joined(chunks[..|chunks| - 1]) + chunks[|chunks| - 1]
  }

  lemma {:induction false} WithoutNewlinesConcat(a: string, b: string)
    ensures WithoutNewlines(a + b) == WithoutNewlines(a) + WithoutNewlines(b)
    decreases |b|
  {
    if b == "" {
      assert a + b == a;
    } else {
      WithoutNewlinesConcat(a, b[..|b| - 1]);
      assert (a + b)[..|a + b| - 1] == a + b[..|b| - 1];
    }
  }

  lemma {:induction false} OnlyNewlines(s: string)
    requires forall k :: 0 <= k < |s| ==> s[k] == '\n'
    ensures WithoutNewlines(s) == ""
    decreases |s|
  {
    if s != "" {
      OnlyNewlines(s[..|s| - 1]);
    }
  }

  lemma OneChunk(text: string, limit: nat, start: nat, chunk: string, next: nat)
    requires ChunkAt(text, limit, start, chunk, next)
    ensures WithoutNewlines(text[..next]) == WithoutNewlines(text[..start]) + WithoutNewlines(chunk)
  {
    var cut := start + |chunk|;
    assert text[..cut] == text[..start] + chunk;
    assert text[..next] == text[..cut] + text[cut..next];
    OnlyNewlines(text[cut..next]);
    WithoutNewlinesConcat(text[..cut], text[cut..next]);
    WithoutNewlinesConcat(text[..start], chunk);
  }

  /** So every other character of the text arrives, in order. */
  lemma {:induction false} NothingElseIsLost(text: string, limit: nat, chunks: seq<string>, starts: seq<nat>, n: nat)
    requires Chunked(text, limit, chunks, starts) && n <= |chunks|
    ensures starts[n] <= |text|
    ensures WithoutNewlines(Joined(chunks[..n])) == WithoutNewlines(text[..starts[n]])
    decreases n
  {
    if n > 0 {
      NothingElseIsLost(text, limit, chunks, starts, n - 1);
      assert ChunkAt(text, limit, starts[n - 1], chunks[n - 1], starts[n]);
      OneChunk(text, limit, starts[n - 1], chunks[n - 1], starts[n]);
      assert chunks[..n][..n - 1] == chunks[..n - 1];
      WithoutNewlinesConcat(Joined(chunks[..n - 1]), chunks[n - 1]);
    }
  }
}

/** A code fence that its content cannot close. */
module CodeFence {
  import opened Text

  function Ticks(n: nat): string { seq(n, _ => '`') }

  /** A run of `n` backticks ends at `end`. */
  predicate RunEndsAt(text: string, end: nat, n: nat) {
    n <= end <= |text| && forall k :: end - n <= k < end ==> text[k] == '`'
  }

  lemma RunOccurs(text: string, n: nat)
    ensures Occurs(text, Ticks(n)) <==> exists end: nat :: RunEndsAt(text, end, n)
  {
    if Occurs(text, Ticks(n)) {
      var i :| MatchAt(text, Ticks(n), i);
      assert forall k :: i <= k < i + n ==> text[k] == text[i..i + n][k - i];
      assert RunEndsAt(text, i + n, n);
    }
    if end: nat :| RunEndsAt(text, end, n) {
      assert text[end - n..end] == Ticks(n);
      assert MatchAt(text, Ticks(n), end - n);
    }
  }

  lemma LongestRun(text: string, end: nat, n: nat, run: nat)
    requires RunEndsAt(text, end, n) && run <= end && (run < end ==> text[end - run - 1] != '`')
    ensures n <= run
  {
  }

  /** The shortest run of at least three backticks that does not occur in `text`. */
  method FenceFor(text: string) returns (fence: string)
    ensures |fence| >= 3 && fence == Ticks(|fence|)
    ensures !Occurs(text, fence)
    ensures forall n :: 3 <= n < |fence| ==> Occurs(text, Ticks(n))
  {
    var longest, run := 0, 0;
    ghost var at := 0;
    for i := 0 to |text|
      invariant run <= longest && RunEndsAt(text, i, run) && (run < i ==> text[i - run - 1] != '`')
      invariant at <= i && RunEndsAt(text, at, longest)
      invariant forall end: nat, n: nat :: end <= i && RunEndsAt(text, end, n) ==> n <= longest
    {
      if text[i] == '`' {
        run := run + 1;
        if run > longest {
          longest, at := run, i + 1;
        }
      } else {
        run := 0;
      }
      forall end: nat, n: nat | end == i + 1 && RunEndsAt(text, end, n) ensures n <= run {
        LongestRun(text, end, n, run);
      }
    }
    fence := Ticks(if longest + 1 > 3 then longest + 1 else 3);
    RunOccurs(text, |fence|);
    forall n | 3 <= n < |fence| ensures Occurs(text, Ticks(n)) {
      assert RunEndsAt(text, at, n);
      RunOccurs(text, n);
    }
  }
}

/** Token counts shown to three significant figures, in exact arithmetic. */
module TokenCounts {
  function Pow10(n: nat): nat { if n == 0 then 1 else 10 * Pow10(n - 1) }

  lemma {:induction false} Pow10Positive(n: nat)
    ensures Pow10(n) >= 1
  {
    if n > 0 { Pow10Positive(n - 1); }
  }

  lemma {:induction false} Pow10Add(a: nat, b: nat)
    ensures Pow10(a + b) == Pow10(a) * Pow10(b)
    decreases b
  {
    if b > 0 {
      Pow10Add(a, b - 1);
    }
  }

  lemma {:induction false} Pow10Grows(a: nat, b: nat)
    requires a <= b
    ensures Pow10(a) <= Pow10(b)
    ensures a < b ==> 10 * Pow10(a) <= Pow10(b)
    decreases b
  {
    Pow10Positive(b);
    if a < b {
      Pow10Grows(a, b - 1);
    }
  }

  function Digits(n: nat): nat { if n < 10 then 1 else 1 + Digits(n / 10) }

  /** The leading digit of `n` stands for a multiple of `10^(Digits(n) - 1)`. */
  lemma {:induction false} DigitsBound(n: nat)
    requires n >= 1
    ensures Digits(n) >= 1 && Pow10(Digits(n) - 1) <= n < Pow10(Digits(n))
  {
    if n >= 10 {
      DigitsBound(n / 10);
    }
  }

  /** `n / d`, rounded to the nearest integer, halves up. */
  function RoundHalfUp(n: nat, d: nat): nat
    requires d > 0
  {
    (2 * n + d) / (2 * d)
  }

  lemma RoundBounds(n: nat, d: nat)
    requires d > 0
    ensures 2 * (RoundHalfUp(n, d) * d) <= 2 * n + d < 2 * (RoundHalfUp(n, d) * d) + 2 * d
  {
    var r := RoundHalfUp(n, d);
    assert r * (2 * d) == 2 * (r * d);
  }

  /** The unit of the third significant digit. */
  function Unit(count: nat): (u: nat)
    requires count >= 1000
    ensures u >= 1
  {
    Pow10Positive(if Digits(count) >= 3 then Digits(count) - 3 else 0);
    Pow10(if Digits(count) >= 3 then Digits(count) - 3 else 0)
  }

  /** `count` rounded to three significant figures. */
  function Round3(count: nat): nat
    requires count >= 1000
  {
    RoundHalfUp(count, Unit(count)) * Unit(count)
  }

  lemma Thousand10()
    ensures Pow10(0) == 1 && Pow10(1) == 10 && Pow10(2) == 100 && Pow10(3) == 1000
  {
  }

  lemma MulMono(x: nat, y: nat, d: nat)
    requires x <= y
    ensures x * d <= y * d
  {
  }

  lemma UnitBounds(count: nat)
    requires count >= 1000
    ensures Digits(count) >= 4 && Unit(count) == Pow10(Digits(count) - 3)
    ensures 100 * Unit(count) == Pow10(Digits(count) - 1) && 1000 * Unit(count) == Pow10(Digits(count))
    ensures 100 * Unit(count) <= count < 1000 * Unit(count)
  {
    var d := Digits(count);
    DigitsBound(count);
    Thousand10();
    if d < 4 {
      Pow10Grows(d, 3);
    }
    assert Pow10(d) == 10 * Pow10(d - 1) && Pow10(d - 1) == 10 * Pow10(d - 2) && Pow10(d - 2) == 10 * Pow10(d - 3);
  }

  lemma Between(r: nat, u: nat, lo: nat, hi: nat)
    requires u > 0 && lo * u < r * u + u && r * u < hi * u + u
    ensures lo <= r <= hi
  {
    if r < lo { MulMono(r + 1, lo, u); }
    if r > hi { MulMono(hi + 1, r, u); }
  }

  /** The rounded count is a multiple of the unit of its third digit, and the nearest one. */
  lemma Round3IsNearest(count: nat)
    requires count >= 1000
    ensures 100 <= RoundHalfUp(count, Unit(count)) <= 1000
    ensures 2 * (Round3(count) - count) <= Unit(count) && 2 * (count - Round3(count)) < Unit(count)
    ensures Pow10(Digits(count) - 1) <= Round3(count) <= Pow10(Digits(count))
  {
    UnitBounds(count);
    var unit := Unit(count);
    var r := RoundHalfUp(count, unit);
    RoundBounds(count, unit);
    Between(r, unit, 100, 1000);
    MulMono(100, r, unit);
    MulMono(r, 1000, unit);
  }

  lemma {:induction false} DigitsGrow(a: nat, b: nat)
    requires a <= b
    ensures Digits(a) <= Digits(b)
  {
    if a >= 10 {
      DigitsGrow(a / 10, b / 10);
    }
  }

  lemma RoundGrows(a: nat, b: nat, d: nat)
    requires d > 0 && a <= b
    ensures RoundHalfUp(a, d) <= RoundHalfUp(b, d)
  {
    RoundBounds(a, d);
    RoundBounds(b, d);
    var x, y := RoundHalfUp(a, d), RoundHalfUp(b, d);
    if x > y {
      MulMono(y + 1, x, d);
    }
  }

  /** A larger count never shows as a smaller one. */
  lemma Round3Grows(a: nat, b: nat)
    requires 1000 <= a <= b
    ensures Round3(a) <= Round3(b)
  {
    DigitsGrow(a, b);
    Round3IsNearest(a);
    Round3IsNearest(b);
    if Digits(a) == Digits(b) {
      RoundGrows(a, b, Unit(a));
      MulMono(RoundHalfUp(a, Unit(a)), RoundHalfUp(b, Unit(a)), Unit(a));
    } else {
      Pow10Grows(Digits(a), Digits(b) - 1);
    }
  }

  /** The number that is shown for a count. */
  function Displayed(count: nat): nat { if count < 1000 then count else Round3(count) }

  lemma DisplayedGrows(a: nat, b: nat)
    requires a <= b
    ensures Displayed(a) <= Displayed(b)
  {
    if a >= 1000 {
      Round3Grows(a, b);
    } else if b >= 1000 {
      Round3IsNearest(b);
      UnitBounds(b);
      Pow10Grows(3, Digits(b) - 1);
      Thousand10();
    }
  }

  // ---------------------------------------------------------------- display

  datatype Suffix = Thousand | Million | Billion

  /** A count as displayed: exact, or `units / 10^decimals` of a thousand, million or billion. */
  datatype Shown = Exact(count: nat) | Scaled(units: nat, decimals: nat, suffix: Suffix)

  function Scale(s: Suffix): nat {
    match s case Thousand => 1000 case Million => 1000000 case Billion => 1000000000
  }

  /** Three digits and a power of ten. */
  lemma ThreeDigits(count: nat) returns (u: nat, p: nat)
    requires count >= 1000
    ensures 100 <= u <= 999 && Round3(count) == u * Pow10(p)
  {
    UnitBounds(count);
    Round3IsNearest(count);
    u, p := RoundHalfUp(count, Unit(count)), Digits(count) - 3;
    if u == 1000 {
      u, p := 100, p + 1;
    }
  }

  lemma PowBounds(u: nat, p: nat)
    requires 100 <= u <= 999
    ensures Pow10(p + 2) <= u * Pow10(p) < Pow10(p + 3)
  {
    var x := Pow10(p);
    Pow10Positive(p);
    assert Pow10(p + 3) == 10 * Pow10(p + 2) && Pow10(p + 2) == 10 * Pow10(p + 1) && Pow10(p + 1) == 10 * x;
    MulMono(100, u, x);
    MulMono(u, 999, x);
  }

  /** The position of the first digit, from bounds on the number. */
  lemma FirstDigit(u: nat, p: nat, top: nat)
    requires 100 <= u <= 999 && Pow10(top) <= u * Pow10(p)
    ensures p + 2 >= top
    ensures u * Pow10(p) < Pow10(top + 1) ==> p + 2 == top
  {
    PowBounds(u, p);
    if p + 2 < top {
      Pow10Grows(p + 3, top);
    }
    if p + 2 > top {
      Pow10Grows(top + 1, p + 2);
    }
  }

  lemma Split10(u: nat, p: nat, d: nat, e: nat)
    requires p + d >= e
    ensures u * Pow10(p) * Pow10(d) == u * Pow10(p + d - e) * Pow10(e)
  {
    Pow10Add(p, d);
    Pow10Add(p + d - e, e);
    Regroup(u, Pow10(p), Pow10(d));
    Regroup(u, Pow10(p + d - e), Pow10(e));
  }

  lemma Regroup(a: nat, b: nat, c: nat)
    ensures a * b * c == a * (b * c)
  {
  }

  lemma RoundMultiple(n: nat, d: nat)
    requires d > 0
    ensures RoundHalfUp(n * d, d) == n
  {
    var r := RoundHalfUp(n * d, d);
    RoundBounds(n * d, d);
    Between(r, d, n, n);
  }

  /** How many decimals to show of `rounded / 10^e`, and that they show all of it: the
      digits displayed are three, unless a billion is not enough. */
  lemma ShownExactly(count: nat, e: nat, decimals: nat) returns (u: nat, extra: nat)
    requires count >= 1000 && Pow10(e) <= Round3(count)
    requires decimals == Decimals(Round3(count), Pow10(e))
    ensures 100 <= u <= 999 && Pow10(e) >= 1
    ensures RoundHalfUp(Round3(count) * Pow10(decimals), Pow10(e)) == u * Pow10(extra)
    ensures u * Pow10(extra) * Pow10(e) == Round3(count) * Pow10(decimals)
    ensures Round3(count) < 1000 * Pow10(e) ==> extra == 0
  {
    var p;
    u, p := ThreeDigits(count);
    Pow10Positive(e);
    assert Pow10(e + 3) == 10 * Pow10(e + 2) && Pow10(e + 2) == 10 * Pow10(e + 1) && Pow10(e + 1) == 10 * Pow10(e);
    FirstDigit(u, p, e + 2 - decimals);
    extra := p + decimals - e;
    Split10(u, p, decimals, e);
    RoundMultiple(u * Pow10(extra), Pow10(e));
  }

  /** How many decimals leave three significant figures. */
  function Decimals(rounded: nat, scale: nat): nat {
    if rounded < 10 * scale then 2 else if rounded < 100 * scale then 1 else 0
  }

  lemma UnitsShown(count: nat, e: nat, decimals: nat)
    requires count >= 1000 && Pow10(e) <= Round3(count) && decimals == Decimals(Round3(count), Pow10(e))
    ensures Pow10(e) >= 1
    ensures var units := RoundHalfUp(Round3(count) * Pow10(decimals), Pow10(e));
            && units >= 100 && units * Pow10(e) == Round3(count) * Pow10(decimals)
            && (Round3(count) < 1000 * Pow10(e) ==> units <= 999)
            && (units <= 999 || decimals == 0)
  {
    var u, extra := ShownExactly(count, e, decimals);
    UnitsInRange(Round3(count), Pow10(e), u, extra);
  }

  lemma UnitsInRange(rounded: nat, scale: nat, u: nat, extra: nat)
    requires 100 <= u <= 999 && (rounded < 1000 * scale ==> extra == 0)
    ensures u * Pow10(extra) >= 100
    ensures rounded < 1000 * scale ==> u * Pow10(extra) <= 999
    ensures u * Pow10(extra) <= 999 || Decimals(rounded, scale) == 0
  {
    Pow10Positive(extra);
    MulMono(1, Pow10(extra), u);
  }

  // ---------------------------------------------------------------- scaled values

  /** An exact quotient. */
  datatype Ratio = Ratio(num: nat, den: nat)
  {
    predicate Less(n: nat) { num < n * den }
    function Over(n: nat): Ratio { Ratio(num, den * n) }
  }

  /** `value.log10().floor()` for a value from a tenth on. */
  function Log10Floor(value: Ratio): int
    requires value.den > 0
  {
    if value.num < value.den then -1 else Digits(value.num / value.den) - 1
  }

  /** Ten to the power of three less the digits before the point, as a quotient. */
  function Scaling(value: Ratio): Ratio
    requires value.den > 0
  {
    var digits := Log10Floor(value) + 1;
    if digits <= 3 then Ratio(Pow10(3 - digits), 1) else Ratio(1, Pow10(digits - 3))
  }

  /** `(value * scale).round() / scale`. */
  function Rounded(value: Ratio): Ratio
    requires value.den > 0
  {
    var scale := Scaling(value);
    Pow10Positive(if Log10Floor(value) >= 3 then Log10Floor(value) - 2 else 0);
    NonZero(value.den, scale.den);
    Ratio(RoundHalfUp(value.num * scale.num, value.den * scale.den) * scale.den, scale.num)
  }

  lemma NonZero(a: nat, b: nat)
    requires a > 0 && b > 0
    ensures a * b > 0
  {
  }

  lemma QuotientDigits(n: nat, e: nat)
    requires Pow10(e) <= n
    ensures Pow10(e) > 0 && Digits(n / Pow10(e)) == Digits(n) - e
    decreases e
  {
    Pow10Positive(e);
    if e > 0 {
      Pow10Positive(e - 1);
      QuotientOfTen(n, Pow10(e - 1));
      QuotientDigits(n / 10, e - 1);
    }
  }

  lemma QuotientOfTen(n: nat, p: nat)
    requires p > 0 && 10 * p <= n
    ensures n / (10 * p) == n / 10 / p && p <= n / 10 && n >= 10
  {
    var q := n / 10 / p;
    var r := n / 10 - q * p;
    assert 0 <= r < p;
    assert n == 10 * (q * p) + (10 * r + n % 10);
    QuotientIs(n, 10 * p, q, 10 * r + n % 10);
  }

  lemma QuotientIs(n: nat, d: nat, q: nat, r: nat)
    requires d > 0 && r < d && n == q * d + r
    ensures n / d == q
  {
    var k := n / d;
    assert n == k * d + n % d;
    if k < q { MulMono(k + 1, q, d); }
    if k > q { MulMono(q + 1, k, d); }
  }

  lemma LogOfCount(count: nat, e: nat)
    requires count >= 1000 && Pow10(e) <= Round3(count)
    ensures Pow10(e) > 0 && Log10Floor(Ratio(count, Pow10(e))) == Digits(count) - 1 - e
  {
    Pow10Positive(e);
    DigitsBound(count);
    if count >= Pow10(e) {
      QuotientDigits(count, e);
    } else {
      Round3IsNearest(count);
      Pow10Squeeze(e, Digits(count), Round3(count), count);
    }
  }

  /** Rounding up past a power of ten stops there. */
  lemma Pow10Squeeze(e: nat, d: nat, rounded: nat, count: nat)
    requires Pow10(e) <= rounded <= Pow10(d) && count < Pow10(e) && d >= 1 && Pow10(d - 1) <= count
    ensures d == e
  {
    if d < e {
      Pow10Grows(d, e);
      Pow10Positive(d);
    }
    if e < d {
      Pow10Grows(e, d - 1);
    }
  }

  lemma RoundScaled(n: nat, d: nat, k: nat)
    requires d > 0 && k > 0
    ensures d * k > 0 && RoundHalfUp(n * k, d * k) == RoundHalfUp(n, d)
  {
    NonZero(d, k);
    RoundBounds(n, d);
    RoundBounds(n * k, d * k);
    var r, q := RoundHalfUp(n, d), RoundHalfUp(n * k, d * k);
    Regroup(q, d, k);
    BoundsCancel(n, d, k, q * d);
    RoundUnique(n, d, r, q);
  }

  lemma BoundsCancel(n: nat, d: nat, k: nat, m: nat)
    requires k > 0 && 2 * (m * k) <= 2 * (n * k) + d * k < 2 * (m * k) + 2 * (d * k)
    ensures 2 * m <= 2 * n + d < 2 * m + 2 * d
  {
    TwiceAndOnce(m, 0, k);
    TwiceAndOnce(n, d, k);
    TwiceAndOnce(m + d, 0, k);
    OneMoreTimes(m, d, k);
    Cancel(2 * m + 0, 2 * n + d, k);
    CancelLess(2 * n + d, 2 * (m + d) + 0, k);
  }

  lemma TwiceAndOnce(x: nat, y: nat, k: nat)
    ensures (2 * x + y) * k == 2 * (x * k) + y * k
  {
  }

  lemma OneMoreTimes(x: nat, y: nat, k: nat)
    ensures (x + y) * k == x * k + y * k
  {
  }

  lemma RoundUnique(n: nat, d: nat, r: nat, q: nat)
    requires d > 0 && 2 * (r * d) <= 2 * n + d < 2 * (r * d) + 2 * d
    requires 2 * (q * d) <= 2 * n + d < 2 * (q * d) + 2 * d
    ensures q == r
  {
    OneMoreTimes(q, 1, d);
    OneMoreTimes(r, 1, d);
    if q < r { MulMono(q + 1, r, d); }
    if r < q { MulMono(r + 1, q, d); }
  }

  lemma Cancel(x: nat, y: nat, k: nat)
    requires k > 0 && x * k <= y * k
    ensures x <= y
  {
    if x > y { MulMono(y + 1, x, k); }
  }

  lemma CancelLess(x: nat, y: nat, k: nat)
    requires k > 0 && x * k < y * k
    ensures x < y
  {
    if y <= x { MulMono(y, x, k); }
  }

  /** A value of few digits is scaled up before it is rounded. */
  lemma RoundedUp(count: nat, power: nat, unit: nat, up: nat, r: nat)
    requires unit > 0 && up > 0 && power == unit * up && r == RoundHalfUp(count, unit)
    ensures power > 0 && RoundHalfUp(count * up, power) * power == r * unit * up
  {
    RoundScaled(count, unit, up);
    Regroup(r, unit, up);
  }

  /** A value of many digits is scaled down. */
  lemma RoundedDown(count: nat, power: nat, unit: nat, down: nat, r: nat)
    requires unit > 0 && unit == power * down && r == RoundHalfUp(count, unit)
    ensures RoundHalfUp(count, power * down) * down * power == r * unit
  {
    Regroup(r, down, power);
    Commute(down, power);
  }

  /** Whatever the suffix, rounding gives the same three digits of the count. */
  lemma RoundedIs(count: nat, e: nat)
    requires count >= 1000 && Pow10(e) <= Round3(count)
    ensures Pow10(e) > 0
    ensures var r := Rounded(Ratio(count, Pow10(e))); r.den > 0 && r.num * Pow10(e) == Round3(count) * r.den
  {
    UnitBounds(count);
    LogOfCount(count, e);
    if Digits(count) - e <= 3 {
      RoundedIsUp(count, e, 3 - (Digits(count) - e));
    } else {
      RoundedIsDown(count, e, Digits(count) - e - 3);
    }
  }

  lemma ScaledUp(value: Ratio, m: nat)
    requires value.den > 0 && Log10Floor(value) == 2 - m
    ensures Rounded(value) == Ratio(RoundHalfUp(value.num * Pow10(m), value.den), Pow10(m))
  {
  }

  lemma RoundedIsUp(count: nat, e: nat, m: nat)
    requires count >= 1000 && Pow10(e) > 0 && Log10Floor(Ratio(count, Pow10(e))) == 2 - m
    requires Digits(count) >= 4 && Unit(count) == Pow10(Digits(count) - 3) && e == Digits(count) - 3 + m
    ensures var r := Rounded(Ratio(count, Pow10(e))); r.den > 0 && r.num * Pow10(e) == Round3(count) * r.den
  {
    var r := RoundHalfUp(count, Unit(count));
    Pow10Add(Digits(count) - 3, m);
    Pow10Positive(m);
    RoundedUp(count, Pow10(e), Unit(count), Pow10(m), r);
    ScaledUp(Ratio(count, Pow10(e)), m);
  }

  lemma RoundedIsDown(count: nat, e: nat, m: nat)
    requires count >= 1000 && m > 0 && Pow10(e) > 0 && Log10Floor(Ratio(count, Pow10(e))) == 2 + m
    requires Digits(count) - 3 == e + m && Unit(count) == Pow10(e + m)
    ensures var r := Rounded(Ratio(count, Pow10(e))); r.den > 0 && r.num * Pow10(e) == Round3(count) * r.den
  {
    var r := RoundHalfUp(count, Unit(count));
    Pow10Add(e, m);
    Pow10Positive(m);
    RoundedDown(count, Pow10(e), Unit(count), Pow10(m), r);
    assert Rounded(Ratio(count, Pow10(e))) == Ratio(RoundHalfUp(count, Pow10(e) * Pow10(m)) * Pow10(m), 1);
  }

  lemma Commute(a: nat, b: nat)
    ensures a * b == b * a
  {
  }

  /** Comparing the rounded value compares the rounded count. */
  lemma BelowPower(rounded: Ratio, whole: nat, power: nat, n: nat)
    requires rounded.den > 0 && power > 0 && rounded.num * power == whole * rounded.den
    ensures rounded.Less(n) <==> whole < n * power
  {
    Regroup(n, power, rounded.den);
    Regroup(n, rounded.den, power);
    Commute(power, rounded.den);
    if rounded.num < n * rounded.den {
      MulLess(rounded.num, n * rounded.den, power);
      CancelLess(whole, n * power, rounded.den);
    }
    if whole < n * power {
      MulLess(whole, n * power, rounded.den);
      CancelLess(rounded.num, n * rounded.den, power);
    }
  }

  lemma MulLess(x: nat, y: nat, k: nat)
    requires x < y && k > 0
    ensures x * k < y * k
  {
    MulMono(x + 1, y, k);
  }

  /** Printing the rounded value with enough decimals prints all of it. */
  lemma PrintedExactly(rounded: Ratio, whole: nat, power: nat, tens: nat, units: nat)
    requires rounded.den > 0 && power > 0 && rounded.num * power == whole * rounded.den
    requires units * power == whole * tens
    ensures RoundHalfUp(rounded.num * tens, rounded.den) == units
  {
    var x, y := rounded.num * tens, units * rounded.den;
    assert x * power == y * power by {
      Exchange(rounded.num, tens, power);
      Exchange(whole, rounded.den, tens);
      Exchange(units, rounded.den, power);
    }
    Cancel(x, y, power);
    Cancel(y, x, power);
    RoundMultiple(units, rounded.den);
  }

  lemma Exchange(a: nat, b: nat, c: nat)
    ensures a * b * c == a * c * b
  {
  }

  /** Three significant figures, rounded half up: the displayed number is exactly the
      rounded count, and the loop always returns by its last suffix. */
  method FormatTokens(count: nat) returns (shown: Shown)
    ensures count < 1000 ==> shown == Exact(count)
    ensures count >= 1000 ==>
              && shown.Scaled? && shown.decimals <= 2 && shown.units >= 100
              && shown.units * Scale(shown.suffix) == Round3(count) * Pow10(shown.decimals)
              && Scale(shown.suffix) <= Round3(count)
              && (shown.suffix != Billion ==> shown.units <= 999 && Round3(count) < 1000 * Scale(shown.suffix))
              && (shown.units <= 999 || shown.decimals == 0)
  {
    if count < 1000 {
      return Exact(count);
    }
    FirstSuffixApplies(count);
    var suffixes := [Thousand, Million, Billion];
    var value := Ratio(count, 1);
    var n := 0;
    while true
      invariant n <= 2 && Pow10(3 * n + 3) <= Round3(count) && value == Ratio(count, Pow10(3 * n))
      decreases 2 - n
    {
      var suffix := suffixes[n];
      ScaleIsPower(suffix, n);
      NextPower(3 * n);
      value := value.Over(1000);
      RoundedIs(count, 3 * n + 3);
      var rounded := Rounded(value);
      BelowPower(rounded, Round3(count), Pow10(3 * n + 3), 1000);
      if rounded.Less(1000) || suffix == Billion {
        shown := Shorten(count, 3 * n + 3, rounded, suffix);
        return;
      }
      NextPower(3 * n + 3);
      n := n + 1;
    }
  }

  /** Print a rounded value with as many decimals as make three digits. */
  method Shorten(ghost count: nat, ghost e: nat, rounded: Ratio, suffix: Suffix) returns (shown: Shown)
    requires count >= 1000 && Pow10(e) <= Round3(count) && Scale(suffix) == Pow10(e)
    requires rounded.den > 0 && rounded.num * Pow10(e) == Round3(count) * rounded.den
    ensures shown.Scaled? && shown.suffix == suffix && shown.decimals <= 2 && shown.units >= 100
    ensures shown.units * Pow10(e) == Round3(count) * Pow10(shown.decimals)
    ensures Round3(count) < 1000 * Pow10(e) ==> shown.units <= 999
    ensures shown.units <= 999 || shown.decimals == 0
  {
    BelowPower(rounded, Round3(count), Pow10(e), 10);
    BelowPower(rounded, Round3(count), Pow10(e), 100);
    var decimals := if rounded.Less(10) then 2 else if rounded.Less(100) then 1 else 0;
    UnitsShown(count, e, decimals);
    PrintedExactly(rounded, Round3(count), Pow10(e), Pow10(decimals),
                   RoundHalfUp(Round3(count) * Pow10(decimals), Pow10(e)));
    shown := Scaled(RoundHalfUp(rounded.num * Pow10(decimals), rounded.den), decimals, suffix);
  }

  lemma FirstSuffixApplies(count: nat)
    requires count >= 1000
    ensures Pow10(3) <= Round3(count) && Pow10(0) == 1
  {
    Round3IsNearest(count);
    UnitBounds(count);
    Pow10Grows(3, Digits(count) - 1);
  }

  lemma NextPower(e: nat)
    ensures Pow10(e + 3) == 1000 * Pow10(e)
  {
    assert Pow10(e + 3) == 10 * Pow10(e + 2) && Pow10(e + 2) == 10 * Pow10(e + 1) && Pow10(e + 1) == 10 * Pow10(e);
  }

  lemma ScaleIsPower(s: Suffix, n: nat)
    requires n <= 2 && s == [Thousand, Million, Billion][n]
    ensures Scale(s) == Pow10(3 * n + 3) && (s == Billion <==> n == 2)
  {
    Thousand10();
    assert Pow10(6) == 10 * Pow10(5) && Pow10(5) == 10 * Pow10(4) && Pow10(4) == 10 * Pow10(3);
    assert Pow10(9) == 10 * Pow10(8) && Pow10(8) == 10 * Pow10(7) && Pow10(7) == 10 * Pow10(6);
  }
}
