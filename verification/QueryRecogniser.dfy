/** CheckRunnUpdateQuery: is this text an UPDATE of a ru_ table?  It decides when the running lock is taken. */
module QueryRecogniser {

  const NUL: char := '\0'

  predicate IsSpace(c: char) {
    c == ' ' || c == '\t' || c == '\n' || c == '\U{000b}' || c == '\U{000c}' || c == '\r'
  }

  predicate AllSpace(s: string) {
    forall i :: 0 <= i < |s| ==> IsSpace(s[i])
  }

  function Lower(c: char): char {
    if 'A' <= c <= 'Z' then (c as int - 'A' as int + 'a' as int) as char else c
  }

  /** The text has the lower-case word w at position `at`, in any case. */
  predicate WordAt(t: string, at: nat, w: string) {
    at + |w| <= |t| && forall i :: 0 <= i < |w| ==> Lower(t[at + i]) == w[i]
  }

  /** Optional white space, UPDATE, white space, ru_. */
  ghost predicate IsRunnUpdate(t: string) {
    exists a: nat, b: nat ::
      WordAt(t, a, "update") && AllSpace(t[..a]) && a + 6 < b && WordAt(t, b, "ru_") && AllSpace(t[a + 6..b])
  }

  /** q holds the text t, then a terminator. */
  predicate HoldsText(q: string, t: string) {
    |t| < |q| && q[..|t|] == t && q[|t|] == NUL
  }

  /** strncasecmp(w, q + at, |w|) == 0, reading no further than the first difference. */
  method SameWord(q: string, ghost t: string, at: nat, w: string) returns (same: bool)
    requires HoldsText(q, t) && at <= |t|
    requires forall i :: 0 <= i < |w| ==> 'A' <= w[i] <= 'z'
    ensures same == WordAt(t, at, w)
  {
    var k := 0;
    while k < |w|
      invariant k <= |w| && at + k <= |t|
      invariant forall i :: 0 <= i < k ==> Lower(t[at + i]) == w[i]
    {
      assert at + k < |t| ==> q[at + k] == q[..|t|][at + k] == t[at + k];
      if Lower(q[at + k]) != w[k] { return false; }
      assert Lower(NUL) == NUL != w[k];
      k := k + 1;
    }
    return true;
  }

  /** The text that a C string function sees: everything before the first terminator. */
  function CText(s: string): (t: string)
    ensures |t| <= |s| && t == s[..|t|] && NUL !in t
    ensures |t| < |s| ==> s[|t|] == NUL
  {
    if s == [] || s[0] == NUL then [] else [s[0]] + CText(s[1..])
  }

  /** The position `to` ends the white space that begins at `from`. */
  predicate GapEnds(t: string, from: nat, to: nat) {
    from <= to <= |t| && AllSpace(t[from..to]) && (to < |t| ==> !IsSpace(t[to]))
  }

  /** White space before a word ends in one place only. */
  lemma GapEndsOnce(t: string, from: nat, to: nat, at: nat, w: string)
    requires GapEnds(t, from, to)
    requires from <= at <= |t| && AllSpace(t[from..at]) && WordAt(t, at, w)
    requires w != [] && 'a' <= w[0] <= 'z'
    ensures at == to
  {
    assert Lower(t[at + 0]) == w[0];
    assert !IsSpace(t[at]);
    assert forall i :: from <= i < to ==> IsSpace(t[from..to][i - from]) && t[from..to][i - from] == t[i];
    assert forall i :: from <= i < at ==> IsSpace(t[from..at][i - from]) && t[from..at][i - from] == t[i];
  }

  lemma FirstGap(t: string, a: nat)
    requires GapEnds(t, 0, a) && IsRunnUpdate(t)
    ensures WordAt(t, a, "update")
  {
    var a0: nat, b0: nat :| WordAt(t, a0, "update") && AllSpace(t[..a0]) && a0 + 6 < b0
                            && WordAt(t, b0, "ru_") && AllSpace(t[a0 + 6..b0]);
    assert t[0..a0] == t[..a0];
    GapEndsOnce(t, 0, a, a0, "update");
  }

  lemma SecondGap(t: string, a: nat, b: nat)
    requires GapEnds(t, 0, a) && WordAt(t, a, "update") && GapEnds(t, a + 6, b)
    ensures IsRunnUpdate(t) <==> a + 6 < b && WordAt(t, b, "ru_")
  {
    assert t[0..a] == t[..a];
    if IsRunnUpdate(t) {
      var a0: nat, b0: nat :| WordAt(t, a0, "update") && AllSpace(t[..a0]) && a0 + 6 < b0
                              && WordAt(t, b0, "ru_") && AllSpace(t[a0 + 6..b0]);
      assert t[0..a0] == t[..a0];
      GapEndsOnce(t, 0, a, a0, "update");
      GapEndsOnce(t, a + 6, b, b0, "ru_");
    }
  }

  /** The loop over white space; t is the text that q holds before its terminator. */
  method SkipSpace(q: string, ghost t: string, from: nat) returns (to: nat)
    requires HoldsText(q, t) && from <= |t|
    ensures GapEnds(t, from, to)
  {
    to := from;
    while q[to] != NUL && IsSpace(q[to])
      invariant from <= to <= |t|
      invariant forall i :: from <= i < to ==> IsSpace(t[i])
      decreases |t| - to
    {
      assert q[to] == t[to];
      to := to + 1;
    }
    assert to < |t| ==> q[..|t|][to] == t[to];
  }

  /** For every string, true exactly for an UPDATE of a ru_ table; no character after the terminator is read. */
  method CheckRunnUpdateQuery(query: string) returns (r: bool)
    ensures r == IsRunnUpdate(CText(query)) == CanBeSpelt(CText(query))
  {
    var q := query + [NUL];
    ghost var t := CText(query);
    assert HoldsText(q, t);
    RecognisedIff(t);
    var a := SkipSpace(q, t, 0);
    var update := SameWord(q, t, a, "update");
    if IsRunnUpdate(t) { FirstGap(t, a); }
    if !update { return false; }
    var b := SkipSpace(q, t, a + 6);
    SecondGap(t, a, b);
    if b == a + 6 { return false; }
    r := SameWord(q, t, b, "ru_");
  }

  // ------------------------------------------------------------ the language, spelt out

  predicate Blank(s: string) {
    forall i :: 0 <= i < |s| ==> s[i] in " \t\n\U{000b}\U{000c}\r"
  }

  predicate Spells(w: string, lower: string, upper: string) {
    |w| == |lower| == |upper| && forall i :: 0 <= i < |w| ==> w[i] == lower[i] || w[i] == upper[i]
  }

  /** A text cut into optional white space, UPDATE, white space, ru_ and whatever follows. */
  ghost predicate Spelt(t: string, gap: string, update: string, more: string, ru: string, rest: string) {
    && t == gap + (update + (more + (ru + rest)))
    && Blank(gap) && Spells(update, "update", "UPDATE") && more != "" && Blank(more) && Spells(ru, "ru_", "RU_")
  }

  lemma SpaceIsBlank(s: string)
    ensures AllSpace(s) <==> Blank(s)
  {
    forall i | 0 <= i < |s| ensures IsSpace(s[i]) <==> s[i] in " \t\n\U{000b}\U{000c}\r" {}
  }

  lemma LetterIs(c: char, l: char)
    requires 'a' <= l <= 'z' || l == '_'
    ensures Lower(c) == l <==> c == l || ('a' <= l <= 'z' && c as int == l as int - 'a' as int + 'A' as int)
  {}

  lemma WordIsSpelt(t: string, at: nat)
    ensures WordAt(t, at, "update") <==> at + 6 <= |t| && Spells(t[at..at + 6], "update", "UPDATE")
    ensures WordAt(t, at, "ru_") <==> at + 3 <= |t| && Spells(t[at..at + 3], "ru_", "RU_")
  {
    var l, u := "update", "UPDATE";
    if at + 6 <= |t| {
      forall i | 0 <= i < 6 ensures Lower(t[at + i]) == l[i] <==> t[at..at + 6][i] == l[i] || t[at..at + 6][i] == u[i] {
        LetterIs(t[at + i], l[i]);
      }
    }
    var m, v := "ru_", "RU_";
    if at + 3 <= |t| {
      forall i | 0 <= i < 3 ensures Lower(t[at + i]) == m[i] <==> t[at..at + 3][i] == m[i] || t[at..at + 3][i] == v[i] {
        LetterIs(t[at + i], m[i]);
      }
    }
  }

  /** A text cut at four places. */
  lemma CutIsJoined(t: string, a: nat, b: nat, c: nat, d: nat)
    requires a <= b <= c <= d <= |t|
    ensures t == t[..a] + (t[a..b] + (t[b..c] + (t[c..d] + t[d..])))
  {}

  lemma JoinedIsCut(gap: string, update: string, more: string, ru: string, rest: string)
    ensures var t := gap + (update + (more + (ru + rest)));
            var a, b, c := |gap|, |gap| + |update|, |gap| + |update| + |more|;
            && c + |ru| <= |t| && t[..a] == gap && t[a..b] == update && t[b..c] == more && t[c..c + |ru|] == ru
  {}

  lemma RecognisedIsSpelt(t: string, a: nat, b: nat)
    requires WordAt(t, a, "update") && AllSpace(t[..a]) && a + 6 < b && WordAt(t, b, "ru_") && AllSpace(t[a + 6..b])
    ensures Spelt(t, t[..a], t[a..a + 6], t[a + 6..b], t[b..b + 3], t[b + 3..])
  {
    WordIsSpelt(t, a);
    WordIsSpelt(t, b);
    SpaceIsBlank(t[..a]);
    SpaceIsBlank(t[a + 6..b]);
    CutIsJoined(t, a, a + 6, b, b + 3);
  }

  lemma SpeltIsRecognised(t: string, gap: string, update: string, more: string, ru: string, rest: string)
    requires Spelt(t, gap, update, more, ru, rest)
    ensures IsRunnUpdate(t)
  {
    var a, b := |gap|, |gap| + 6 + |more|;
    JoinedIsCut(gap, update, more, ru, rest);
    WordIsSpelt(t, a);
    WordIsSpelt(t, b);
    SpaceIsBlank(gap);
    SpaceIsBlank(more);
  }

  ghost predicate CanBeSpelt(t: string) {
    exists gap: string, update: string, more: string, ru: string, rest: string ::
      Spelt(t, gap, update, more, ru, rest)
  }

  lemma CanBeSpeltIf(t: string)
    requires IsRunnUpdate(t)
    ensures CanBeSpelt(t)
  {
    var a: nat, b: nat :| WordAt(t, a, "update") && AllSpace(t[..a]) && a + 6 < b
                          && WordAt(t, b, "ru_") && AllSpace(t[a + 6..b]);
    RecognisedIsSpelt(t, a, b);
  }

  /** The texts that are recognised, letter by letter. */
  lemma RecognisedIff(t: string)
    ensures IsRunnUpdate(t) <==> CanBeSpelt(t)
  {
    if IsRunnUpdate(t) { CanBeSpeltIf(t); }
    if CanBeSpelt(t) {
      var gap: string, update: string, more: string, ru: string, rest: string :|
        Spelt(t, gap, update, more, ru, rest);
      SpeltIsRecognised(t, gap, update, more, ru, rest);
    }
  }
}
