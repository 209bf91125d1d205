/**
 * The glob matcher behind doctest's test filters. It keeps a single backtracking point, the
 * latest star, and is proved to decide the full glob relation all the same.
 */
module Wildcard {

  /** A C string: the characters before its terminator. */
  type CString = s: string | '\0' !in s

  /** `*(s + i)`: the terminator is readable, nothing behind it is. */
  function At(s: CString, i: nat): (c: char)
    requires i <= |s|
    ensures c == '\0' <==> i == |s|
  {
    if i < |s| then s[i] else '\0'
  }

  function ToLower(c: char): (r: char) {
    if 'A' <= c <= 'Z' then (c as int + 32) as char else c
  }

  predicate Same(a: char, b: char, caseSensitive: bool) {
    if caseSensitive then a == b else ToLower(a) == ToLower(b)
  }

  /** One pattern character other than a star against one text character. */
  predicate Accepts(w: char, c: char, caseSensitive: bool) {
    w == '?' || Same(w, c, caseSensitive)
  }

  /**
   * The glob relation between `str` from `i` on and `wild` from `j` on: a star stands for any
   * run of characters, every other pattern character for exactly one it accepts.
   */
  ghost predicate Matches(str: CString, i: nat, wild: CString, j: nat, cs: bool)
    requires i <= |str| && j <= |wild|
    decreases |wild| - j
  {
    if j == |wild| then i == |str|
    else if wild[j] == '*' then var rest := j + 1; exists k :: i <= k <= |str| && Matches(str, k, wild, rest, cs)
    else i < |str| && Accepts(wild[j], str[i], cs) && Matches(str, i + 1, wild, j + 1, cs)
  }

  /** Some rest of `str` that starts at `i` or later matches `wild` from `j` on. */
  ghost predicate MatchesLater(str: CString, i: nat, wild: CString, j: nat, cs: bool)
    requires i <= |str| + 1 && j <= |wild|
  {
    exists k :: i <= k <= |str| && Matches(str, k, wild, j, cs)
  }

  /** `wild[m..w]` contains no star and accepts the characters of `str` from `k` on, one by one. */
  ghost predicate Aligned(str: CString, k: nat, wild: CString, m: nat, w: nat, cs: bool)
    requires m <= w
    decreases w
  {
    && w <= |wild| && k + (w - m) <= |str|
    && (m < w ==>
          && Aligned(str, k, wild, m, w - 1, cs)
          && wild[w - 1] != '*' && Accepts(wild[w - 1], str[k + (w - 1 - m)], cs))
  }

  lemma {:induction false} AlignedConsumes(str: CString, k: nat, wild: CString, m: nat, w: nat, cs: bool)
    requires m <= w && Aligned(str, k, wild, m, w, cs)
    ensures forall i :: m <= i < w ==> wild[i] != '*'
    ensures Matches(str, k, wild, m, cs) <==> Matches(str, k + (w - m), wild, w, cs)
    decreases w
  {
    if m < w { AlignedConsumes(str, k, wild, m, w - 1, cs); }
  }

  /** A starless stretch of the pattern uses up one character each. */
  lemma {:induction false} StarlessNeeds(str: CString, k: nat, wild: CString, m: nat, w: nat, cs: bool)
    requires k <= |str| && m <= w <= |wild|
    requires forall i :: m <= i < w ==> wild[i] != '*'
    requires Matches(str, k, wild, m, cs)
    ensures k + (w - m) <= |str| && Matches(str, k + (w - m), wild, w, cs)
    decreases w - m
  {
    if m < w { StarlessNeeds(str, k + 1, wild, m + 1, w, cs); }
  }

  /**
   * The greedy-star argument: once the stretch between two stars has been placed at its
   * leftmost position, nothing is lost by forgetting the earlier star.
   */
  lemma LatestStarSuffices(str: CString, k: nat, wild: CString, m: nat, w: nat, cs: bool)
    requires m <= w && Aligned(str, k, wild, m, w, cs) && w < |wild| && wild[w] == '*'
    ensures MatchesLater(str, k, wild, m, cs) <==> MatchesLater(str, k + (w - m), wild, w + 1, cs)
  {
    AlignedConsumes(str, k, wild, m, w, cs);
    if MatchesLater(str, k, wild, m, cs) {
      var k' :| k <= k' <= |str| && Matches(str, k', wild, m, cs);
      StarlessNeeds(str, k', wild, m, w, cs);
    }
  }

  /** At the end of the text only the current placement of the stretch can still succeed. */
  lemma TextExhausted(str: CString, k: nat, wild: CString, m: nat, w: nat, cs: bool)
    requires m <= w && Aligned(str, k, wild, m, w, cs) && k + (w - m) == |str|
    ensures MatchesLater(str, k, wild, m, cs) <==> Matches(str, |str|, wild, w, cs)
  {
    AlignedConsumes(str, k, wild, m, w, cs);
    if MatchesLater(str, k, wild, m, cs) {
      var k' :| k <= k' <= |str| && Matches(str, k', wild, m, cs);
      StarlessNeeds(str, k', wild, m, w, cs);
    }
  }

  /** A character the stretch does not accept rules out the current placement. */
  lemma MismatchMovesOn(str: CString, k: nat, wild: CString, m: nat, w: nat, cs: bool)
    requires m <= w && Aligned(str, k, wild, m, w, cs) && k + (w - m) < |str|
    requires w == |wild| || (wild[w] != '*' && !Accepts(wild[w], str[k + (w - m)], cs))
    ensures MatchesLater(str, k, wild, m, cs) <==> MatchesLater(str, k + 1, wild, m, cs)
  {
    AlignedConsumes(str, k, wild, m, w, cs);
  }

  /** The state of the search after a star: `wild[mp..w]` is placed at `cp - 1`, just before `s`. */
  ghost predicate Searching(str: CString, wild: CString, cs: bool, s: nat, w: nat, cp: nat, mp: nat) {
    && 0 < cp <= |str| + 1 && mp < |wild| && mp <= w && s == cp - 1 + (w - mp)
    && Aligned(str, cp - 1, wild, mp, w, cs)
    && (Matches(str, 0, wild, 0, cs) <==> MatchesLater(str, cp - 1, wild, mp, cs))
  }

  lemma Advance(str: CString, wild: CString, cs: bool, s: nat, w: nat, cp: nat, mp: nat)
    requires Searching(str, wild, cs, s, w, cp, mp) && s < |str| && w < |wild|
    requires wild[w] != '*' && Accepts(wild[w], str[s], cs)
    ensures Searching(str, wild, cs, s + 1, w + 1, cp, mp)
  {
  }

  lemma Retry(str: CString, wild: CString, cs: bool, s: nat, w: nat, cp: nat, mp: nat)
    requires Searching(str, wild, cs, s, w, cp, mp) && s < |str|
    requires w == |wild| || (wild[w] != '*' && !Accepts(wild[w], str[s], cs))
    ensures Searching(str, wild, cs, cp, mp, cp + 1, mp)
  {
    MismatchMovesOn(str, cp - 1, wild, mp, w, cs);
  }

  lemma NextStar(str: CString, wild: CString, cs: bool, s: nat, w: nat, cp: nat, mp: nat)
    requires Searching(str, wild, cs, s, w, cp, mp) && w < |wild| && wild[w] == '*'
    ensures Matches(str, 0, wild, 0, cs) <==> Matches(str, s, wild, w, cs)
  {
    LatestStarSuffices(str, cp - 1, wild, mp, w, cs);
  }

  lemma EnterStar(str: CString, wild: CString, cs: bool, s: nat, w: nat)
    requires s <= |str| && w < |wild| && wild[w] == '*'
    requires Matches(str, 0, wild, 0, cs) <==> Matches(str, s, wild, w, cs)
    ensures w + 1 == |wild| ==> Matches(str, 0, wild, 0, cs)
    ensures w + 1 < |wild| ==> Searching(str, wild, cs, s, w + 1, s + 1, w + 1)
  {
    if w + 1 == |wild| { assert Matches(str, |str|, wild, w + 1, cs); }
  }

  lemma StarMatchesNothing(str: CString, wild: CString, cs: bool, w: nat)
    requires w < |wild| && wild[w] == '*'
    ensures Matches(str, |str|, wild, w, cs) <==> Matches(str, |str|, wild, w + 1, cs)
  {
  }
}
