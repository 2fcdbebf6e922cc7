/** The sandbox's `edit` tool: replace a piece of a file, unambiguously. */
module FileEdit {
  import opened Splitting
  import opened Text

  datatype Outcome =
    | Edited(text: string, replacements: nat)
    | EmptyPattern
    | Identical
    | NotFound
    | Ambiguous(matches: nat)

  function ApplyEdit(content: string, pat: string, sub: string, replaceAll: bool): Outcome {
    if pat == "" then EmptyPattern
    else if pat == sub then Identical
    else
      var n := Count(content, pat);
      if n == 0 then NotFound
      else if n == 1 then Edited(ReplaceFirst(content, pat, sub), 1)
      else if replaceAll then Edited(Replace(content, pat, sub), n)
      else Ambiguous(n)
  }

  lemma {:induction false} ReplaceOnce(s: string, pat: string, sub: string)
    requires pat != "" && Count(s, pat) == 1
    ensures ReplaceFirst(s, pat, sub) == Replace(s, pat, sub)
  {
    var rest := s[Find(s, pat).value + |pat|..];
    ReplaceAbsent(rest, pat, sub);
  }

  /** `gaps` witnesses that `text` is `content` with `n` leftmost copies of `pat` replaced. */
  ghost predicate Explains(gaps: seq<string>, content: string, pat: string, sub: string, text: string, n: nat) {
    |gaps| == n + 1 && Leftmost(gaps, pat) && Join(gaps, pat) == content && Join(gaps, sub) == text
  }

  /** An edit succeeds with `text` and `n` exactly when the file falls apart, leftmost
      first, into `n` copies of the pattern, `text` joins the same gaps with the
      replacement, and `n` is one unless all matches were asked for. */
  lemma EditMeaning(content: string, pat: string, sub: string, replaceAll: bool, text: string, n: nat)
    ensures ApplyEdit(content, pat, sub, replaceAll) == Edited(text, n) <==>
            && pat != "" && pat != sub && n >= 1 && (n == 1 || replaceAll)
            && exists gaps :: Explains(gaps, content, pat, sub, text, n)
    ensures ApplyEdit(content, pat, sub, replaceAll) == Edited(text, n) ==>
              |text| == |content| + n * (|sub| - |pat|)
  {
    if pat != "" {
      GapsJoin(content, pat, sub);
      GapsLeftmost(content, pat);
      ReplaceLength(content, pat, sub);
      if Count(content, pat) == 1 {
        ReplaceOnce(content, pat, sub);
      }
      assert Explains(Gaps(content, pat), content, pat, sub, Replace(content, pat, sub), Count(content, pat));
      forall gaps | Explains(gaps, content, pat, sub, text, n)
        ensures n == Count(content, pat) && text == Replace(content, pat, sub) {
        LeftmostIsUnique(gaps, pat);
      }
    }
  }

  /** A failed edit says why: the pattern is absent, or it matches `n >= 2` places. */
  lemma EditFailure(content: string, pat: string, sub: string, replaceAll: bool, n: nat)
    requires pat != "" && pat != sub
    ensures ApplyEdit(content, pat, sub, replaceAll) == NotFound <==> !Occurs(content, pat)
    ensures ApplyEdit(content, pat, sub, replaceAll) == Ambiguous(n) <==>
            n >= 2 && !replaceAll && exists gaps :: Explains(gaps, content, pat, sub, Join(gaps, sub), n)
  {
    GapsJoin(content, pat, sub);
    GapsLeftmost(content, pat);
    ReplaceAbsent(content, pat, sub);
    assert Explains(Gaps(content, pat), content, pat, sub, Replace(content, pat, sub), Count(content, pat));
    forall gaps | Explains(gaps, content, pat, sub, Join(gaps, sub), n) ensures n == Count(content, pat) {
      LeftmostIsUnique(gaps, pat);
    }
  }

  /** Putting `pat` back at `q` restores the text exactly where it was taken out. */
  lemma {:induction false} PutBack(content: string, pat: string, sub: string, text: string, i: nat, q: nat)
    requires Find(content, pat) == Some(i) && text == content[..i] + sub + content[i + |pat|..]
    requires q <= i && MatchAt(text, sub, q)
    ensures text[..q] + pat + text[q + |sub|..] == content <==> q == i
  {
    MatchSplits(content, pat, i);
    if q == i {
      assert text[..i] == content[..i] && text[i + |sub|..] == content[i + |pat|..];
    } else {
      MatchBetween(text[..q], pat, text[q + |sub|..]);
    }
  }

  /** The reverse edit undoes a single edit exactly when the replacement matches once
      in the edited file, at the place that was edited. */
  lemma {:induction false} EditUndone(content: string, pat: string, sub: string, replaceAll: bool)
    requires ApplyEdit(content, pat, sub, replaceAll).Edited?
    requires ApplyEdit(content, pat, sub, replaceAll).replacements == 1
    ensures var text := ApplyEdit(content, pat, sub, replaceAll).text;
            ApplyEdit(text, sub, pat, false) == Edited(content, 1) <==>
            sub != "" && Count(text, sub) == 1 && Find(text, sub) == Find(content, pat)
  {
    var text := ApplyEdit(content, pat, sub, replaceAll).text;
    SingleEdit(content, pat, sub, replaceAll);
    var i := Find(content, pat).value;
    MatchBetween(content[..i], sub, content[i + |pat|..]);
    ReverseEdit(text, sub, pat, content);
    if sub != "" && Count(text, sub) == 1 {
      FoundOnce(text, sub, pat);
      PutBack(content, pat, sub, text, i, Find(text, sub).value);
    }
  }

  /** What a single edit does to the text. */
  lemma {:induction false} SingleEdit(content: string, pat: string, sub: string, replaceAll: bool)
    requires ApplyEdit(content, pat, sub, replaceAll).Edited?
    requires ApplyEdit(content, pat, sub, replaceAll).replacements == 1
    ensures pat != "" && pat != sub && Find(content, pat).Some?
    ensures var i := Find(content, pat).value;
            ApplyEdit(content, pat, sub, replaceAll).text == content[..i] + sub + content[i + |pat|..]
  {
    ReplaceAbsent(content, pat, sub);
  }

  lemma {:induction false} ReverseEdit(text: string, sub: string, pat: string, content: string)
    requires pat != sub
    ensures ApplyEdit(text, sub, pat, false) == Edited(content, 1) <==>
            sub != "" && Count(text, sub) == 1 && ReplaceFirst(text, sub, pat) == content
  {
  }

  lemma {:induction false} FoundOnce(text: string, sub: string, pat: string)
    requires sub != "" && Count(text, sub) == 1
    ensures Find(text, sub).Some?
    ensures var q := Find(text, sub).value; ReplaceFirst(text, sub, pat) == text[..q] + pat + text[q + |sub|..]
  {
    ReplaceAbsent(text, sub, pat);
  }
}
