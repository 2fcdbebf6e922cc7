/** Redaction of secrets from outbound text. */
module Redactor {
  import opened Text

  const MASK := "[REDACTED]"
  const MAX_PASSES := 16

  /** One pass: every secret in turn is replaced by the mask. */
  function Pass(secrets: seq<string>, text: string): string
    requires "" !in secrets
  {
    if secrets == [] then text
    else Pass(secrets[1..], Replace(text, secrets[0], MASK))
  }

  /** The text after `passes` more passes, unless one of them changes nothing. */
  function Scrub(secrets: seq<string>, text: string, passes: nat): string
    requires "" !in secrets
    decreases passes
  {
    if passes == 0 then MASK
    else if Pass(secrets, text) == text then text
    else Scrub(secrets, Pass(secrets, text), passes - 1)
  }

  function Redacted(secrets: seq<string>, text: string): string
    requires "" !in secrets
  {
    Scrub(secrets, text, MAX_PASSES)
  }

  method Redact(secrets: seq<string>, text: string) returns (output: string)
    requires "" !in secrets
    ensures output == Redacted(secrets, text)
  {
    output := RedactWithin(secrets, text, MAX_PASSES);
  }

  /** The loop, for any bound on the passes. */
  method RedactWithin(secrets: seq<string>, text: string, maxPasses: nat) returns (output: string)
    requires "" !in secrets
    ensures output == Scrub(secrets, text, maxPasses)
  {
    output := text;
    for n := 0 to maxPasses
      invariant Scrub(secrets, text, maxPasses) == Scrub(secrets, output, maxPasses - n)
    {
      var before := output;
      output := ReplaceAll(secrets, before);
      if output == before {
        return;
      }
    }
    output := MASK;
  }

  method ReplaceAll(secrets: seq<string>, text: string) returns (output: string)
    requires "" !in secrets
    ensures output == Pass(secrets, text)
  {
    output := text;
    for n := 0 to |secrets|
      invariant Pass(secrets, text) == Pass(secrets[n..], output)
    {
      output := Replace(output, secrets[n], MASK);
      assert secrets[n..][1..] == secrets[n + 1..];
    }
    assert secrets[|secrets|..] == [];
  }

  // ---------------------------------------------------------------- building

  predicate Keyed(lowered: string) {
    exists k :: k in {"token", "key", "secret", "password", "dsn", "oauth"} && Find(lowered, k).Some?
  }

  lemma KeyedIs(lowered: string)
    ensures Keyed(lowered) <==>
            || Occurs(lowered, "token") || Occurs(lowered, "key") || Occurs(lowered, "secret")
            || Occurs(lowered, "password") || Occurs(lowered, "dsn") || Occurs(lowered, "oauth")
  {
    assert forall k :: k in {"token", "key", "secret", "password", "dsn", "oauth"} && Occurs(lowered, k) ==>
             Find(lowered, k).Some?;
  }

  /** The values of an environment that `FromVars` takes for secrets. */
  ghost predicate IsSecret(v: (string, string), toLower: string -> string) {
    var lowered := toLower(v.0);
    && ByteLen(v.1) >= 8
    && (|| Occurs(lowered, "token") || Occurs(lowered, "key") || Occurs(lowered, "secret")
        || Occurs(lowered, "password") || Occurs(lowered, "dsn") || Occurs(lowered, "oauth"))
  }

  /** The values worth hiding, longest first: of at least eight bytes, under a name that in
      lower case holds one of six words. */
  function FromVars(vars: seq<(string, string)>, toLower: string -> string): (secrets: seq<string>)
    ensures forall v :: v in secrets <==>
              exists name :: (name, v) in vars && IsSecret((name, v), toLower)
    ensures forall i, j :: 0 <= i < j < |secrets| ==> ByteLen(secrets[i]) >= ByteLen(secrets[j])
  {
    if vars == [] then []
    else
      var rest := FromVars(vars[1..], toLower);
      var (name, value) := vars[0];
      KeyedIs(toLower(name));
      assert forall x :: x in vars <==> x == vars[0] || x in vars[1..];
      if ByteLen(value) >= 8 && Keyed(toLower(name)) then
        assert (name, value) in vars;
        InsertLongestFirst(value, rest)
      else rest
  }

  /** Stable insertion in front of the first secret that is no longer. */
  function InsertLongestFirst(v: string, sorted: seq<string>): (r: seq<string>)
    requires forall i, j :: 0 <= i < j < |sorted| ==> ByteLen(sorted[i]) >= ByteLen(sorted[j])
    ensures forall w :: w in r <==> w == v || w in sorted
    ensures forall i, j :: 0 <= i < j < |r| ==> ByteLen(r[i]) >= ByteLen(r[j])
  {
    if sorted == [] || ByteLen(v) >= ByteLen(sorted[0]) then [v] + sorted
    else
      var rest := InsertLongestFirst(v, sorted[1..]);
      assert forall w :: w in sorted <==> w == sorted[0] || w in sorted[1..];
      assert forall i :: 0 <= i < |rest| ==> rest[i] in rest;
      [sorted[0]] + rest
  }

  /** The six words, and no others, make a value of eight bytes a secret. */
  lemma SecretsAreNamed(vars: seq<(string, string)>, toLower: string -> string, v: string)
    ensures v in FromVars(vars, toLower) <==>
            exists name :: (name, v) in vars && ByteLen(v) >= 8 &&
              (|| Occurs(toLower(name), "token") || Occurs(toLower(name), "key")
               || Occurs(toLower(name), "secret") || Occurs(toLower(name), "password")
               || Occurs(toLower(name), "dsn") || Occurs(toLower(name), "oauth"))
  {
    forall name ensures IsSecret((name, v), toLower) <==>
        ByteLen(v) >= 8 &&
          (|| Occurs(toLower(name), "token") || Occurs(toLower(name), "key")
           || Occurs(toLower(name), "secret") || Occurs(toLower(name), "password")
           || Occurs(toLower(name), "dsn") || Occurs(toLower(name), "oauth")) {
    }
  }

  lemma SecretsAreLong(vars: seq<(string, string)>, toLower: string -> string)
    ensures "" !in FromVars(vars, toLower)
  {
    assert ByteLen("") == 0;
  }

  // ---------------------------------------------------------------- one secret

  lemma OccursTransitively(s: string, a: string, b: string)
    requires Occurs(s, a) && Occurs(a, b)
    ensures Occurs(s, b)
  {
    var i :| MatchAt(s, a, i);
    assert s == s[..i] + a + s[i + |a|..];
    OccursInside(s[..i], a, s[i + |a|..], b);
  }

  lemma ProductNonZero(n: nat, d: int)
    requires n > 0 && d != 0
    ensures n * d != 0
  {
  }

  lemma {:induction false} ReplaceUnchanged(text: string, secret: string, mask: string)
    requires secret != "" && Replace(text, secret, mask) == text && Occurs(text, secret)
    ensures secret == mask
  {
    ReplaceLength(text, secret, mask);
    ReplaceAbsent(text, secret, mask);
    ReplacePresent(text, secret, mask);
    if |secret| != |mask| {
      ProductNonZero(Count(text, secret), |mask| - |secret|);
    }
  }

  lemma PassLone(secret: string, text: string)
    requires secret != ""
    ensures Pass([secret], text) == Replace(text, secret, MASK)
  {
    var none: seq<string> := [];
    assert [secret][1..] == none;
    assert Pass(none, Replace(text, secret, MASK)) == Replace(text, secret, MASK);
  }

  lemma {:induction false} ScrubLone(secret: string, text: string, passes: nat)
    requires secret != "" && passes > 0
    ensures Occurs(Scrub([secret], text, passes), secret) ==> Occurs(text, secret) || Occurs(MASK, secret)
    ensures Occurs(Scrub([secret], text, passes), secret) ==> Occurs(MASK, secret)
    ensures Occurs(text, secret) && Occurs(MASK, secret) ==> Occurs(Scrub([secret], text, passes), secret)
    ensures !Occurs(text, secret) ==> Scrub([secret], text, passes) == text
    decreases passes
  {
    var next := Pass([secret], text);
    PassLone(secret, text);
    ReplaceAbsent(text, secret, MASK);
    if Occurs(text, secret) {
      ReplacePresent(text, secret, MASK);
    }
    if next == text {
      if Occurs(text, secret) {
        ReplaceUnchanged(text, secret, MASK);
        assert MatchAt(MASK, secret, 0);
      }
    } else {
      if Occurs(MASK, secret) {
        OccursTransitively(next, MASK, secret);
      }
      if passes == 1 {
        assert MatchAt(MASK, MASK, 0);
      } else {
        ScrubLone(secret, next, passes - 1);
      }
    }
  }

  /** A lone secret survives redaction exactly when the text held it and it is a
      substring of the mask itself: no replacement can put it together again. */
  lemma LoneSecret(secret: string, text: string)
    requires secret != ""
    ensures Occurs(Redacted([secret], text), secret) <==> Occurs(text, secret) && Occurs(MASK, secret)
  {
    ScrubLone(secret, text, MAX_PASSES);
  }

  // ---------------------------------------------------------------- many secrets

  predicate Plain(secret: string) {
    '[' !in secret && ']' !in secret && secret != "REDACTED" && ByteLen(secret) >= 8
  }

  /** What occurs in a text of one-byte characters is no longer in bytes than that text is,
      and as long only if it is the whole of it. */
  lemma OccursInAscii(word: string, secret: string)
    requires forall c :: c in word ==> c < '\U{80}'
    requires Occurs(word, secret)
    ensures ByteLen(secret) <= |word| && (ByteLen(secret) == |word| ==> secret == word)
  {
    var i :| MatchAt(word, secret, i);
    forall c | c in secret ensures c in word {
      assert c in word[i..i + |secret|];
    }
    AsciiByteLen(secret);
  }

  lemma PlainAvoidsMask(secret: string)
    requires Plain(secret)
    ensures !Occurs("REDACTED", secret) && !Occurs("", secret)
  {
    if Occurs("REDACTED", secret) {
      OccursInAscii("REDACTED", secret);
    }
    if Occurs("", secret) {
      OccursInAscii("", secret);
    }
  }

  lemma MaskBetweenClean(head: string, tail: string, secret: string)
    requires Plain(secret) && !Occurs(head, secret) && !Occurs(tail, secret)
    ensures !Occurs(head + MASK + tail, secret)
  {
    PlainAvoidsMask(secret);
    if Occurs(head + MASK + tail, secret) {
      var inner := "REDACTED" + [']'] + tail;
      assert head + MASK + tail == head + ['['] + inner;
      SplitsAtForeignChar(head, '[', inner, secret);
      SplitsAtForeignChar("REDACTED", ']', tail, secret);
    }
  }

  /** Masking a word that contains no brackets never creates another one. */
  lemma {:induction false} ReplaceKeepsClean(s: string, pat: string, secret: string)
    requires pat != "" && Plain(secret) && (pat == secret || !Occurs(s, secret))
    ensures !Occurs(Replace(s, pat, MASK), secret)
    decreases |s|
  {
    match Find(s, pat)
    case None =>
    case Some(i) =>
      var head, rest := s[..i], s[i + |pat|..];
      GapsClean(s, pat, secret, i);
      ReplaceKeepsClean(rest, pat, secret);
      MaskBetweenClean(head, Replace(rest, pat, MASK), secret);
  }

  lemma GapsClean(s: string, pat: string, secret: string, i: nat)
    requires pat != "" && MatchAt(s, pat, i) && forall j :: 0 <= j < i ==> !MatchAt(s, pat, j)
    requires pat == secret || !Occurs(s, secret)
    ensures !Occurs(s[..i], secret)
    ensures pat != secret ==> !Occurs(s[i + |pat|..], secret)
  {
    if pat == secret {
      BeforeFirstMatch(s, pat, i);
    } else {
      var head, rest := s[..i], s[i + |pat|..];
      assert s == "" + head + (pat + rest);
      PartsAreClean("", head, pat + rest, secret);
      assert s == (head + pat) + rest + "";
      PartsAreClean(head + pat, rest, "", secret);
    }
  }

  lemma {:induction false} PassCleans(secrets: seq<string>, text: string, secret: string)
    requires "" !in secrets && Plain(secret) && (secret in secrets || !Occurs(text, secret))
    ensures !Occurs(Pass(secrets, text), secret)
  {
    if secrets != [] {
      if secret == secrets[0] || !Occurs(text, secret) {
        ReplaceKeepsClean(text, secrets[0], secret);
      }
      PassCleans(secrets[1..], Replace(text, secrets[0], MASK), secret);
    }
  }

  lemma {:induction false} PassOnClean(secrets: seq<string>, text: string)
    requires "" !in secrets && forall s :: s in secrets ==> !Occurs(text, s)
    ensures Pass(secrets, text) == text
  {
    if secrets != [] {
      PassOnClean(secrets[1..], text);
    }
  }

  /** With secrets free of brackets and other than the masked word, one pass removes
      them all, a second changes nothing, and so the fallback is never reached. */
  lemma PlainSecrets(secrets: seq<string>, text: string)
    requires forall s :: s in secrets ==> Plain(s)
    ensures "" !in secrets
    ensures forall s :: s in secrets ==> !Occurs(Pass(secrets, text), s)
    ensures Pass(secrets, Pass(secrets, text)) == Pass(secrets, text)
    ensures Redacted(secrets, text) == Pass(secrets, text)
  {
    assert ByteLen("") == 0;
    forall s | s in secrets ensures !Occurs(Pass(secrets, text), s) {
      PassCleans(secrets, text, s);
    }
    PassOnClean(secrets, Pass(secrets, text));
    ScrubSettles(secrets, text, MAX_PASSES);
  }

  lemma {:induction false} ScrubSettles(secrets: seq<string>, text: string, passes: nat)
    requires "" !in secrets && passes >= 2 && Pass(secrets, Pass(secrets, text)) == Pass(secrets, text)
    ensures Scrub(secrets, text, passes) == Pass(secrets, text)
  {
    ScrubStable(secrets, Pass(secrets, text), passes - 1);
  }

  lemma {:induction false} ScrubStable(secrets: seq<string>, text: string, passes: nat)
    requires "" !in secrets && passes > 0 && Pass(secrets, text) == text
    ensures Scrub(secrets, text, passes) == text
  {
  }

  // ---------------------------------------------------------------- any secrets

  ghost predicate Holds(secrets: seq<string>, text: string) {
    exists s :: s in secrets && Occurs(text, s)
  }

  /** The text after `n` passes. */
  function Passes(secrets: seq<string>, text: string, n: nat): string
    requires "" !in secrets
    decreases n
  {
    if n == 0 then text else Passes(secrets, Pass(secrets, text), n - 1)
  }

  /** The first `n` passes each change the text. */
  ghost predicate KeepsChanging(secrets: seq<string>, text: string, n: nat)
    requires "" !in secrets
  {
    forall m: nat :: m < n ==> Pass(secrets, Passes(secrets, text, m)) != Passes(secrets, text, m)
  }

  lemma ChangesOn(secrets: seq<string>, text: string, n: nat)
    requires "" !in secrets && n > 0 && KeepsChanging(secrets, text, n)
    ensures Pass(secrets, text) != text && KeepsChanging(secrets, Pass(secrets, text), n - 1)
  {
    assert Passes(secrets, text, 0) == text;
    forall m: nat | m < n - 1
      ensures var t := Pass(secrets, text); Pass(secrets, Passes(secrets, t, m)) != Passes(secrets, t, m) {
      assert Passes(secrets, text, m + 1) == Passes(secrets, Pass(secrets, text), m);
    }
  }

  lemma {:induction false} ScrubIs(secrets: seq<string>, text: string, passes: nat, n: nat)
    requires "" !in secrets && n <= passes && KeepsChanging(secrets, text, n)
    requires n < passes ==> Pass(secrets, Passes(secrets, text, n)) == Passes(secrets, text, n)
    ensures Scrub(secrets, text, passes) == if n < passes then Passes(secrets, text, n) else MASK
    decreases n
  {
    if n > 0 {
      ChangesOn(secrets, text, n);
      assert Passes(secrets, text, n) == Passes(secrets, Pass(secrets, text), n - 1);
      ScrubIs(secrets, Pass(secrets, text), passes - 1, n - 1);
    }
  }

  /** The text settles at the first pass that changes nothing; if each of sixteen changes
      it, only the mask is left. */
  lemma SixteenPasses(secrets: seq<string>, text: string, n: nat)
    requires "" !in secrets && n <= 16 && KeepsChanging(secrets, text, n)
    requires n < 16 ==> Pass(secrets, Passes(secrets, text, n)) == Passes(secrets, text, n)
    ensures Redacted(secrets, text) == if n < 16 then Passes(secrets, text, n) else "[REDACTED]"
  {
    ScrubIs(secrets, text, MAX_PASSES, n);
  }

  /** A pass gives the text back although it holds a secret: one replacement undoes
      another, and the loop takes this for stability. */
  ghost predicate Circular(secrets: seq<string>, text: string)
    requires "" !in secrets
  {
    Pass(secrets, text) == text && exists s :: s in secrets && s != MASK && Occurs(text, s)
  }

  lemma {:induction false} PassKeepsMask(secrets: seq<string>, text: string)
    requires "" !in secrets && Occurs(text, MASK)
    ensures Occurs(Pass(secrets, text), MASK)
  {
    if secrets != [] {
      MaskStays(text, secrets[0]);
      PassKeepsMask(secrets[1..], Replace(text, secrets[0], MASK));
    }
  }

  lemma MaskStays(text: string, secret: string)
    requires secret != "" && Occurs(text, MASK)
    ensures Occurs(Replace(text, secret, MASK), MASK)
  {
    ReplaceAbsent(text, secret, MASK);
    if Occurs(text, secret) {
      ReplacePresent(text, secret, MASK);
    }
  }

  /** A pass over a text that holds a secret leaves a mask in it. */
  lemma {:induction false} PassMasks(secrets: seq<string>, text: string, secret: string)
    requires "" !in secrets && secret in secrets && Occurs(text, secret)
    ensures Occurs(Pass(secrets, text), MASK)
  {
    var next := Replace(text, secrets[0], MASK);
    if Occurs(text, secrets[0]) {
      ReplacePresent(text, secrets[0], MASK);
      PassKeepsMask(secrets[1..], next);
    } else {
      ReplaceAbsent(text, secrets[0], MASK);
      PassMasks(secrets[1..], text, secret);
    }
  }

  /** What a text that one pass gives back still holds. */
  lemma StableHolds(secrets: seq<string>, text: string, secret: string)
    requires "" !in secrets && secret in secrets && Pass(secrets, text) == text
    ensures Occurs(text, secret) <==>
            (Occurs(MASK, secret) && Holds(secrets, text)) || (Circular(secrets, text) && Occurs(text, secret))
  {
    if Occurs(text, secret) && !Circular(secrets, text) {
      assert MatchAt(MASK, MASK, 0);
    }
    if Occurs(MASK, secret) && Holds(secrets, text) {
      var x :| x in secrets && Occurs(text, x);
      PassMasks(secrets, text, x);
      OccursTransitively(text, MASK, secret);
    }
  }

  /** Passes that go on changing the text carry the same question along. */
  lemma ChangedHolds(secrets: seq<string>, text: string, secret: string)
    requires "" !in secrets && secret in secrets && Pass(secrets, text) != text
    ensures Holds(secrets, text) && (Occurs(MASK, secret) ==> Holds(secrets, Pass(secrets, text)))
  {
    if !Holds(secrets, text) {
      PassOnClean(secrets, text);
    }
    var x :| x in secrets && Occurs(text, x);
    PassMasks(secrets, text, x);
    if Occurs(MASK, secret) {
      OccursTransitively(Pass(secrets, text), MASK, secret);
    }
  }

  ghost predicate RunsInCircles(secrets: seq<string>, text: string, secret: string, passes: nat)
    requires "" !in secrets
  {
    exists n: nat :: n < passes && CircularAfter(secrets, text, secret, n)
  }

  ghost predicate CircularAfter(secrets: seq<string>, text: string, secret: string, n: nat)
    requires "" !in secrets
  {
    Circular(secrets, Passes(secrets, text, n)) && Occurs(Passes(secrets, text, n), secret)
  }

  lemma {:induction false} StablePasses(secrets: seq<string>, text: string, n: nat)
    requires "" !in secrets && Pass(secrets, text) == text
    ensures Passes(secrets, text, n) == text
  {
    if n > 0 {
      StablePasses(secrets, text, n - 1);
    }
  }

  lemma CirclesShift(secrets: seq<string>, text: string, secret: string, passes: nat)
    requires "" !in secrets && Pass(secrets, text) != text && passes > 0
    ensures RunsInCircles(secrets, text, secret, passes) <==>
            RunsInCircles(secrets, Pass(secrets, text), secret, passes - 1)
  {
    var next := Pass(secrets, text);
    forall n: nat ensures CircularAfter(secrets, text, secret, n + 1) <==> CircularAfter(secrets, next, secret, n) {
    }
    if n: nat :| n < passes && CircularAfter(secrets, text, secret, n) {
      assert n > 0;
      assert CircularAfter(secrets, next, secret, n - 1);
    }
    if n: nat :| n < passes - 1 && CircularAfter(secrets, next, secret, n) {
      assert CircularAfter(secrets, text, secret, n + 1);
    }
  }

  lemma {:induction false} ScrubSurvivors(secrets: seq<string>, text: string, passes: nat, secret: string)
    requires "" !in secrets && secret in secrets && passes > 0
    ensures Occurs(Scrub(secrets, text, passes), secret) <==>
            (Occurs(MASK, secret) && Holds(secrets, text)) || RunsInCircles(secrets, text, secret, passes)
    decreases passes
  {
    var next := Pass(secrets, text);
    if next == text {
      StableHolds(secrets, text, secret);
      forall n: nat ensures Passes(secrets, text, n) == text { StablePasses(secrets, text, n); }
      assert CircularAfter(secrets, text, secret, 0) <==> Circular(secrets, text) && Occurs(text, secret);
    } else {
      ChangedHolds(secrets, text, secret);
      CirclesShift(secrets, text, secret, passes);
      if passes > 1 {
        ScrubSurvivors(secrets, next, passes - 1, secret);
      }
    }
  }

  /** Exactly which secrets survive, for any secrets and any text: those inside the mask,
      once anything was masked, and those in a text that the passes lead to and in which
      one replacement undoes another. */
  lemma Survivors(secrets: seq<string>, text: string, secret: string)
    requires "" !in secrets && secret in secrets
    ensures Occurs(Redacted(secrets, text), secret) <==>
            (Occurs(MASK, secret) && Holds(secrets, text)) || RunsInCircles(secrets, text, secret, MAX_PASSES)
  {
    ScrubSurvivors(secrets, text, MAX_PASSES, secret);
  }

  // ---------------------------------------------------------------- balance

  /** The sum of a weight over the characters of a text. */
  function Weight(s: string, w: char -> int): int {
    if s == "" then 0 else w(s[0]) + Weight(s[1..], w)
  }

  lemma {:induction false} WeightConcat(a: string, b: string, w: char -> int)
    ensures Weight(a + b, w) == Weight(a, w) + Weight(b, w)
  {
    if a == "" {
      assert a + b == b;
    } else {
      WeightConcat(a[1..], b, w);
      assert (a + b)[1..] == a[1..] + b;
    }
  }

  lemma {:induction false} ReplaceWeight(s: string, pat: string, sub: string, w: char -> int)
    requires pat != ""
    ensures Weight(Replace(s, pat, sub), w) == Weight(s, w) + Count(s, pat) * (Weight(sub, w) - Weight(pat, w))
    decreases |s|
  {
    match Find(s, pat)
    case None =>
      ReplaceAbsent(s, pat, sub);
    case Some(i) =>
      var after := s[i + |pat|..];
      var rest := Replace(after, pat, sub);
      ReplaceWeight(after, pat, sub, w);
      ReplaceFound(s, pat, sub, i, after, rest);
      CountFound(s, pat, i, after);
      WeightParts(s, pat, sub, i, after, rest, w);
      OneMore(Count(after, pat), Weight(sub, w) - Weight(pat, w));
  }

  lemma {:induction false} WeightParts(s: string, pat: string, sub: string, i: nat, after: string, rest: string,
      w: char -> int)
    requires MatchAt(s, pat, i) && after == s[i + |pat|..]
    ensures Weight(s, w) == Weight(s[..i], w) + Weight(pat, w) + Weight(after, w)
    ensures Weight(s[..i] + sub + rest, w) == Weight(s[..i], w) + Weight(sub, w) + Weight(rest, w)
  {
    MatchSplits(s, pat, i);
    WeightOfThree(s[..i], pat, after, w);
    WeightOfThree(s[..i], sub, rest, w);
  }

  lemma {:induction false} WeightOfThree(a: string, b: string, c: string, w: char -> int)
    ensures Weight(a + b + c, w) == Weight(a, w) + Weight(b, w) + Weight(c, w)
  {
    WeightConcat(a + b, c, w);
    WeightConcat(a, b, w);
  }

  /** A pass that puts any word in place of the secrets, and how often it replaces each. */
  function PassWith(secrets: seq<string>, text: string, mask: string): string
    requires "" !in secrets
  {
    if secrets == [] then text else PassWith(secrets[1..], Replace(text, secrets[0], mask), mask)
  }

  function Replacements(secrets: seq<string>, text: string, mask: string): (counts: seq<nat>)
    requires "" !in secrets
    ensures |counts| == |secrets|
  {
    if secrets == [] then []
    else [Count(text, secrets[0])] + Replacements(secrets[1..], Replace(text, secrets[0], mask), mask)
  }

  lemma {:induction false} PassWithMask(secrets: seq<string>, text: string)
    requires "" !in secrets
    ensures PassWith(secrets, text, MASK) == Pass(secrets, text)
  {
    if secrets != [] {
      PassWithMask(secrets[1..], Replace(text, secrets[0], MASK));
    }
  }

  /** What `counts` replacements of the secrets add to a weight. */
  function Gain(secrets: seq<string>, counts: seq<nat>, mask: string, w: char -> int): int
    requires |counts| == |secrets|
  {
    if secrets == [] then 0
    else counts[0] * (Weight(mask, w) - Weight(secrets[0], w)) + Gain(secrets[1..], counts[1..], mask, w)
  }

  lemma {:induction false} GainStep(secrets: seq<string>, count: nat, counts: seq<nat>, mask: string, w: char -> int)
    requires secrets != [] && |counts| == |secrets| - 1
    ensures Gain(secrets, [count] + counts, mask, w)
         == count * (Weight(mask, w) - Weight(secrets[0], w)) + Gain(secrets[1..], counts, mask, w)
  {
    assert ([count] + counts)[1..] == counts;
  }

  lemma {:induction false} PassWeight(secrets: seq<string>, text: string, mask: string, w: char -> int)
    requires "" !in secrets
    ensures Weight(PassWith(secrets, text, mask), w)
         == Weight(text, w) + Gain(secrets, Replacements(secrets, text, mask), mask, w)
  {
    if secrets != [] {
      var next := Replace(text, secrets[0], mask);
      ReplaceWeight(text, secrets[0], mask, w);
      PassWeight(secrets[1..], next, mask, w);
      GainStep(secrets, Count(text, secrets[0]), Replacements(secrets[1..], next, mask), mask, w);
    }
  }

  /** Some secrets other than the mask, each taken a number of times, have together the
      characters of as many masks. */
  ghost predicate Balanced(secrets: seq<string>) {
    exists counts: seq<nat> :: Balances(secrets, counts)
  }

  ghost predicate Balances(secrets: seq<string>, counts: seq<nat>) {
    && |counts| == |secrets|
    && SomeCounts(secrets, counts, MASK)
    && forall w: char -> int :: Gain(secrets, counts, MASK, w) == 0
  }

  ghost predicate SomeCounts(secrets: seq<string>, counts: seq<nat>, mask: string)
    requires |counts| == |secrets|
  {
    exists i :: 0 <= i < |secrets| && counts[i] > 0 && secrets[i] != mask
  }

  /** A secret in the text is replaced, or another one before it. */
  lemma {:induction false} SomeReplaced(secrets: seq<string>, text: string, secret: string) returns (i: nat)
    requires "" !in secrets && secret in secrets && secret != MASK && Occurs(text, secret)
    ensures i < |secrets| && secrets[i] != MASK && Replacements(secrets, text, MASK)[i] > 0
  {
    var first := secrets[0];
    ReplaceAbsent(text, first, MASK);
    if first != MASK && Occurs(text, first) {
      i := 0;
    } else {
      MaskForMask(text);
      i := SomeReplaced(secrets[1..], text, secret);
      i := i + 1;
    }
  }

  lemma {:induction false} MaskForMask(text: string)
    ensures Replace(text, MASK, MASK) == text
    decreases |text|
  {
    match Find(text, MASK)
    case None =>
      ReplaceAbsent(text, MASK, MASK);
    case Some(i) =>
      var after := text[i + |MASK|..];
      MaskForMask(after);
      ReplaceFound(text, MASK, MASK, i, after, after);
      MatchSplits(text, MASK, i);
  }

  /** Replacements that undo each other give and take the same characters. */
  lemma CircularIsBalanced(secrets: seq<string>, text: string)
    requires "" !in secrets && Circular(secrets, text)
    ensures Balances(secrets, Replacements(secrets, text, MASK)) && Balanced(secrets)
  {
    var s :| s in secrets && s != MASK && Occurs(text, s);
    var i := SomeReplaced(secrets, text, s);
    var counts := Replacements(secrets, text, MASK);
    PassWithMask(secrets, text);
    forall w: char -> int ensures Gain(secrets, counts, MASK, w) == 0 {
      PassWeight(secrets, text, MASK, w);
    }
    assert Balances(secrets, counts);
  }

  /** Unless the secrets balance, one of them survives exactly when it lies inside the
      mask and the text held any of them. */
  lemma UnbalancedSurvivors(secrets: seq<string>, text: string, secret: string)
    requires "" !in secrets && secret in secrets && !Balanced(secrets)
    ensures Occurs(Redacted(secrets, text), secret) <==> Occurs(MASK, secret) && Holds(secrets, text)
  {
    Survivors(secrets, text, secret);
    if RunsInCircles(secrets, text, secret, MAX_PASSES) {
      var n: nat :| n < MAX_PASSES && CircularAfter(secrets, text, secret, n);
      CircularIsBalanced(secrets, Passes(secrets, text, n));
    }
  }

  /** Secrets do not balance when some weight tells the mask from each of them, one way. */
  ghost predicate Outweighed(secrets: seq<string>, w: char -> int) {
    forall s :: s in secrets && s != MASK ==> Weight(s, w) < Weight(MASK, w)
  }

  lemma {:induction false} GainPositive(secrets: seq<string>, counts: seq<nat>, mask: string, w: char -> int)
    requires |counts| == |secrets| && forall s :: s in secrets && s != mask ==> Weight(s, w) < Weight(mask, w)
    ensures Gain(secrets, counts, mask, w) >= 0
    ensures SomeCounts(secrets, counts, mask) ==> Gain(secrets, counts, mask, w) > 0
  {
    if secrets != [] {
      var rest, left := secrets[1..], counts[1..];
      assert secrets[0] in secrets;
      GainPositive(rest, left, mask, w);
      ProductPositive(counts[0], Weight(mask, w) - Weight(secrets[0], w));
      if counts[0] == 0 || secrets[0] == mask {
        LaterCounts(secrets, counts, mask);
      }
    }
  }

  lemma LaterCounts(secrets: seq<string>, counts: seq<nat>, mask: string)
    requires |counts| == |secrets| > 0 && (counts[0] == 0 || secrets[0] == mask)
    ensures SomeCounts(secrets, counts, mask) ==> SomeCounts(secrets[1..], counts[1..], mask)
  {
    if i :| 0 <= i < |secrets| && counts[i] > 0 && secrets[i] != mask {
      assert counts[1..][i - 1] > 0 && secrets[1..][i - 1] != mask;
    }
  }

  lemma ProductPositive(n: int, d: int)
    requires n >= 0
    ensures d == 0 ==> n * d == 0
    ensures d > 0 ==> n * d >= n
  {
  }

  lemma OutweighedIsUnbalanced(secrets: seq<string>, w: char -> int)
    requires Outweighed(secrets, w)
    ensures !Balanced(secrets)
  {
    forall counts: seq<nat> ensures !Balances(secrets, counts) {
      if |counts| == |secrets| {
        GainPositive(secrets, counts, MASK, w);
      }
    }
  }

  // ---------------------------------------------------------------- kinds of secrets

  function Each(weight: int): char -> int { c => weight }
  function Number(d: char): char -> int { c => if c == d then 1 else 0 }

  lemma {:induction false} WeightOfEach(s: string, weight: int)
    ensures Weight(s, Each(weight)) == weight * |s|
  {
    if s != "" {
      WeightOfEach(s[1..], weight);
      OneMore(|s| - 1, weight);
    }
  }

  lemma {:induction false} NumberOf(s: string, d: char)
    requires d !in s
    ensures Weight(s, Number(d)) == 0
  {
    if s != "" {
      NumberOf(s[1..], d);
    }
  }

  lemma MaskBrackets(bracket: char)
    requires bracket in {'[', ']'}
    ensures Weight(MASK, Number(bracket)) == 1
  {
    MaskSpelled();
    BetweenBrackets(MASK, "REDACTED", bracket);
  }

  lemma MaskSpelled()
    ensures MASK == ['['] + "REDACTED" + [']'] && '[' !in "REDACTED" && ']' !in "REDACTED"
  {
  }

  lemma BetweenBrackets(s: string, word: string, bracket: char)
    requires s == ['['] + word + [']'] && bracket in {'[', ']'} && bracket !in word
    ensures Weight(s, Number(bracket)) == 1
  {
    var w := Number(bracket);
    WeightConcat(['['] + word, [']'], w);
    WeightConcat(['['], word, w);
    WeightOfChar('[', w);
    WeightOfChar(']', w);
    NumberOf(word, bracket);
  }

  lemma WeightOfChar(c: char, w: char -> int)
    ensures Weight([c], w) == w(c)
  {
    assert [c][1..] == "";
  }

  /** Secrets that all lack one of the brackets do not balance. */
  lemma OneBracketMissing(secrets: seq<string>, bracket: char)
    requires bracket in {'[', ']'} && forall s :: s in secrets && s != MASK ==> bracket !in s
    ensures !Balanced(secrets)
  {
    MaskBrackets(bracket);
    forall s | s in secrets && s != MASK ensures Weight(s, Number(bracket)) < Weight(MASK, Number(bracket)) {
      NumberOf(s, bracket);
    }
    OutweighedIsUnbalanced(secrets, Number(bracket));
  }

  /** Nor do secrets that are all longer, or all shorter, than the mask. */
  lemma OneSidedLengths(secrets: seq<string>)
    requires (forall s :: s in secrets && s != MASK ==> |s| > |MASK|)
          || (forall s :: s in secrets && s != MASK ==> |s| < |MASK|)
    ensures !Balanced(secrets)
  {
    var weight := if forall s :: s in secrets && s != MASK ==> |s| > |MASK| then -1 else 1;
    WeightOfEach(MASK, weight);
    forall s | s in secrets && s != MASK ensures Weight(s, Each(weight)) < Weight(MASK, Each(weight)) {
      WeightOfEach(s, weight);
    }
    OutweighedIsUnbalanced(secrets, Each(weight));
  }

  /** Nor do secrets no longer than the mask of which those as long all lack one bracket:
      so much for secrets of eight to ten bytes. */
  lemma NoLongerThanMask(secrets: seq<string>, bracket: char)
    requires bracket in {'[', ']'} && forall s :: s in secrets && s != MASK ==> |s| <= |MASK|
    requires forall s :: s in secrets && s != MASK && |s| == |MASK| ==> bracket !in s
    ensures !Balanced(secrets)
  {
    MaskBrackets(bracket);
    LengthThenNumber(MASK, bracket);
    forall s | s in secrets && s != MASK
      ensures Weight(s, LengthThen(bracket)) < Weight(MASK, LengthThen(bracket)) {
      LengthThenNumber(s, bracket);
      if |s| == |MASK| {
        NumberOf(s, bracket);
      }
    }
    OutweighedIsUnbalanced(secrets, LengthThen(bracket));
  }

  function LengthThen(d: char): char -> int { c => if c == d then 12 else 11 }

  lemma {:induction false} LengthThenNumber(s: string, d: char)
    ensures Weight(s, LengthThen(d)) == 11 * |s| + Weight(s, Number(d))
    ensures 0 <= Weight(s, Number(d)) <= |s|
  {
    if s != "" {
      LengthThenNumber(s[1..], d);
    }
  }

  lemma {:induction false} TooLongForMask(secret: string)
    requires |secret| > |MASK|
    ensures !Occurs(MASK, secret)
  {
  }

  /** Secrets longer than the mask are all removed, whatever brackets they hold. */
  lemma LongSecrets(secrets: seq<string>, text: string)
    requires forall s :: s in secrets ==> |s| > |MASK|
    ensures "" !in secrets
    ensures forall s :: s in secrets ==> !Occurs(Redacted(secrets, text), s)
  {
    OneSidedLengths(secrets);
    forall s | s in secrets ensures !Occurs(Redacted(secrets, text), s) {
      UnbalancedSurvivors(secrets, text, s);
      TooLongForMask(s);
    }
  }

  ghost predicate BracketFree(secret: string) { '[' !in secret && ']' !in secret && ByteLen(secret) >= 8 }

  /** Of secrets without brackets only the masked word survives, and it does so exactly
      when the text held any of them. */
  lemma BracketFreeSurvivors(secrets: seq<string>, text: string, secret: string)
    requires secret in secrets && forall s :: s in secrets ==> BracketFree(s)
    ensures "" !in secrets
    ensures Occurs(Redacted(secrets, text), secret) <==> secret == "REDACTED" && Holds(secrets, text)
  {
    assert ByteLen("") == 0;
    OneBracketMissing(secrets, '[');
    UnbalancedSurvivors(secrets, text, secret);
    BracketFreeInMask(secret);
  }

  lemma BracketFreeInMask(secret: string)
    requires BracketFree(secret)
    ensures Occurs(MASK, secret) <==> secret == "REDACTED"
  {
    var inner := "REDACTED" + [']'] + "";
    assert MASK == "" + ['['] + inner;
    if secret == "REDACTED" {
      assert MASK == "[" + "REDACTED" + "]";
      MatchBetween("[", "REDACTED", "]");
    } else {
      assert Plain(secret);
      PlainAvoidsMask(secret);
      if Occurs(MASK, secret) {
        SplitsAtForeignChar("", '[', inner, secret);
        SplitsAtForeignChar("REDACTED", ']', "", secret);
      }
    }
  }

  const FIRST := "ACTED]ACTED]"
  const SECOND := "[RED[RED"
  const CIRCULAR := "[REDACTED]ACTED]"

  /** Two secrets that do balance: the first replacement makes the second one match, the
      second restores the text, and the first stays in clear although neither is inside the mask. */
  lemma {:induction false} TwoSecretsSurvive() returns (secrets: seq<string>, text: string)
    ensures secrets == [FIRST, SECOND] && text == CIRCULAR
    ensures ByteLen(secrets[0]) >= ByteLen(secrets[1]) >= 8
    ensures !Occurs(MASK, secrets[0]) && !Occurs(MASK, secrets[1])
    ensures "" !in secrets && Redacted(secrets, text) == text && Occurs(text, secrets[0])
  {
    secrets, text := [FIRST, SECOND], CIRCULAR;
    LongestFirst();
    NeitherInMask();
    PassBack();
    ScrubStable(secrets, text, MAX_PASSES);
    FirstInText();
  }

  lemma NeitherInMask()
    ensures !Occurs(MASK, FIRST) && !Occurs(MASK, SECOND)
  {
    LongestFirst();
    TooLongForMask(FIRST);
    SecondNotInMask();
  }

  lemma LongestFirst()
    ensures ByteLen(FIRST) == 12 && ByteLen(SECOND) == 8 && |FIRST| == 12
  {
  }

  lemma FirstInText()
    ensures Occurs(CIRCULAR, FIRST)
  {
    Spelled();
    MatchBetween("[RED", FIRST, "");
  }

  lemma SecondNotInMask()
    ensures !Occurs(MASK, SECOND)
  {
    forall i ensures !MatchAt(MASK, SECOND, i) {
      if 0 <= i <= 2 {
        assert MASK[i..i + 8][4] == MASK[i + 4] != '[';
      }
    }
  }

  lemma PassBack()
    ensures Pass([FIRST, SECOND], CIRCULAR) == CIRCULAR
  {
    FirstReplaced();
    SecondReplaced();
    assert [FIRST, SECOND][1..] == [SECOND];
    PassLone(SECOND, "[RED[REDACTED]");
  }

  lemma FirstReplaced()
    ensures Replace("[REDACTED]ACTED]", FIRST, MASK) == "[RED[REDACTED]"
  {
    Spelled();
    forall j | 0 <= j < 4 ensures !MatchAt("[RED" + FIRST + "", FIRST, j) {
      DiffersAt("[RED" + FIRST + "", FIRST, j);
    }
    ReplaceOnceAt("[RED", FIRST, "");
  }

  lemma DiffersAt(s: string, p: string, j: nat)
    requires p != "" && j < |s| && s[j] != p[0]
    ensures !MatchAt(s, p, j)
  {
    if j + |p| <= |s| {
      assert s[j..j + |p|][0] == s[j];
    }
  }

  lemma Spelled()
    ensures "[RED" + FIRST + "" == "[REDACTED]ACTED]" && "[RED" + MASK + "" == "[RED[REDACTED]"
  {
  }

  lemma SecondReplaced()
    ensures Replace("[RED[REDACTED]", SECOND, MASK) == "[REDACTED]ACTED]"
  {
    ReplaceOnceAt("", SECOND, "ACTED]");
    assert "" + SECOND + "ACTED]" == "[RED[REDACTED]" && "" + MASK + "ACTED]" == "[REDACTED]ACTED]";
  }

  lemma ReplaceOnceAt(head: string, pat: string, tail: string)
    requires pat != "" && |tail| < |pat| && forall j :: 0 <= j < |head| ==> !MatchAt(head + pat + tail, pat, j)
    ensures Replace(head + pat + tail, pat, MASK) == head + MASK + tail
  {
    var s := head + pat + tail;
    MatchBetween(head, pat, tail);
    FindIs(s, pat, |head|);
    assert s[..|head|] == head && s[|head| + |pat|..] == tail;
    ReplaceAbsent(tail, pat, MASK);
    ReplaceFound(s, pat, MASK, |head|, tail, tail);
  }

  // ---------------------------------------------------------------- an environment

  /** A redactor built from an environment whose secrets are free of brackets removes them
      all, but for a secret that is the masked word. */
  lemma NoVariableLeaks(vars: seq<(string, string)>, toLower: string -> string, name: string, value: string,
      text: string)
    requires forall v :: v in vars && IsSecret(v, toLower) ==> '[' !in v.1 && ']' !in v.1
    requires (name, value) in vars && IsSecret((name, value), toLower)
    ensures "" !in FromVars(vars, toLower)
    ensures Occurs(Redacted(FromVars(vars, toLower), text), value) <==>
            value == "REDACTED" && exists v :: v in vars && IsSecret(v, toLower) && Occurs(text, v.1)
  {
    var secrets := FromVars(vars, toLower);
    SecretsAreLong(vars, toLower);
    forall s | s in secrets ensures BracketFree(s) {
      var key :| (key, s) in vars && IsSecret((key, s), toLower);
    }
    BracketFreeSurvivors(secrets, text, value);
    HoldsInVars(vars, toLower, text);
  }

  lemma HoldsInVars(vars: seq<(string, string)>, toLower: string -> string, text: string)
    ensures Holds(FromVars(vars, toLower), text) <==> exists v :: v in vars && IsSecret(v, toLower) && Occurs(text, v.1)
  {
    var secrets := FromVars(vars, toLower);
    if s :| s in secrets && Occurs(text, s) {
      var key :| (key, s) in vars && IsSecret((key, s), toLower);
      assert Occurs(text, (key, s).1);
    }
    if v :| v in vars && IsSecret(v, toLower) && Occurs(text, v.1) {
      assert (v.0, v.1) == v;
      assert v.1 in secrets;
    }
  }
}
