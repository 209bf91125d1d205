/**
 * Where the search may end: the pointer to the next retry leaves the text in certain inputs,
 * and these are characterised by which pattern prefixes fit which text prefixes.
 */
module WildcardOverrun {
  import opened Wildcard

  /** The first `j` characters of the pattern match the first `i` characters of the text. */
  ghost predicate Covers(str: CString, i: nat, wild: CString, j: nat, cs: bool)
    requires i <= |str| && j <= |wild|
    decreases j
  {
    if j == 0 then i == 0
    else if wild[j - 1] == '*' then var front := j - 1; exists k: nat :: k <= i && Covers(str, k, wild, front, cs)
    else i > 0 && Accepts(wild[j - 1], str[i - 1], cs) && Covers(str, i - 1, wild, j - 1, cs)
  }

  lemma SplitMovesOn(str: CString, i: nat, wild: CString, j: nat, cs: bool) returns (i': nat)
    requires i <= |str| && j < |wild| && Covers(str, i, wild, j, cs) && Matches(str, i, wild, j, cs)
    ensures i' <= |str| && Covers(str, i', wild, j + 1, cs) && Matches(str, i', wild, j + 1, cs)
  {
    if wild[j] == '*' {
      var rest := j + 1;
      var k :| i <= k <= |str| && Matches(str, k, wild, rest, cs);
      i' := k;
    } else {
      i' := i + 1;
    }
  }

  lemma SplitMovesBack(str: CString, i: nat, wild: CString, j: nat, cs: bool) returns (i': nat)
    requires i <= |str| && j < |wild| && Covers(str, i, wild, j + 1, cs) && Matches(str, i, wild, j + 1, cs)
    ensures i' <= |str| && Covers(str, i', wild, j, cs) && Matches(str, i', wild, j, cs)
  {
    if wild[j] == '*' {
      var front, rest := j + 1 - 1, j + 1;
      var k: nat :| k <= i && Covers(str, k, wild, front, cs);
      assert Matches(str, i, wild, rest, cs);
      i' := k;
    } else {
      i' := i - 1;
    }
  }

  /** Cut anywhere, a match is a match of the front and one of the back. */
  lemma {:induction false} MatchesSplits(str: CString, wild: CString, j: nat, cs: bool)
    requires j <= |wild|
    ensures Matches(str, 0, wild, 0, cs)
       <==> exists i: nat :: i <= |str| && Covers(str, i, wild, j, cs) && Matches(str, i, wild, j, cs)
    decreases j
  {
    if j == 0 {
      assert Covers(str, 0, wild, 0, cs);
    } else {
      var front := j - 1;
      MatchesSplits(str, wild, front, cs);
      if i: nat :| i <= |str| && Covers(str, i, wild, front, cs) && Matches(str, i, wild, front, cs) {
        var i' := SplitMovesOn(str, i, wild, front, cs);
        assert i' <= |str| && Covers(str, i', wild, j, cs) && Matches(str, i', wild, j, cs);
      }
      if i: nat :| i <= |str| && Covers(str, i, wild, j, cs) && Matches(str, i, wild, j, cs) {
        var i' := SplitMovesBack(str, i, wild, front, cs);
        assert i' <= |str| && Covers(str, i', wild, front, cs) && Matches(str, i', wild, front, cs);
      }
    }
  }

  lemma CoversIsMatches(str: CString, wild: CString, cs: bool)
    ensures Matches(str, 0, wild, 0, cs) <==> Covers(str, |str|, wild, |wild|, cs)
  {
    MatchesSplits(str, wild, |wild|, cs);
  }

  // ---------------------------------------------------------------------------------------
  // The inputs on which the pointer leaves the text
  // ---------------------------------------------------------------------------------------

  ghost predicate Starless(wild: CString, a: nat, b: nat) {
    b <= |wild| && forall i :: a <= i < b ==> wild[i] != '*'
  }

  /** The pattern before the star at `m` fits the first `i` characters, and there are more. */
  ghost predicate Reaches(str: CString, wild: CString, cs: bool, m: nat, i: nat) {
    m < |wild| && wild[m] == '*' && i < |str| && Covers(str, i, wild, m, cs)
  }

  ghost predicate LastStar(str: CString, wild: CString, cs: bool, m: nat) {
    && (exists i: nat :: Reaches(str, wild, cs, m, i))
    && forall m': nat, i: nat :: m < m' ==> !Reaches(str, wild, cs, m', i)
  }

  /** Of the pattern behind the star at `m` and before the next one, no beginning uses the text up. */
  ghost predicate NeverUsesUp(str: CString, wild: CString, cs: bool, m: nat) {
    m + 1 < |wild|
    && forall e: nat :: m + 1 < e && Starless(wild, m + 1, e) ==> !Covers(str, |str|, wild, e, cs)
  }

  ghost predicate Overruns(str: CString, wild: CString, cs: bool) {
    exists m: nat :: LastStar(str, wild, cs, m) && NeverUsesUp(str, wild, cs, m)
  }

  // ---------------------------------------------------------------------------------------
  // Stretches of the pattern without a star
  // ---------------------------------------------------------------------------------------

  lemma {:induction false} StretchBack(str: CString, i: nat, wild: CString, a: nat, b: nat, cs: bool) returns (k: nat)
    requires i <= |str| && a <= b && Starless(wild, a, b) && Covers(str, i, wild, b, cs)
    ensures i == k + (b - a) && Covers(str, k, wild, a, cs) && Aligned(str, k, wild, a, b, cs)
    decreases b
  {
    if a == b {
      k := i;
    } else {
      k := StretchBack(str, i - 1, wild, a, b - 1, cs);
    }
  }

  lemma {:induction false} StretchOn(str: CString, k: nat, wild: CString, a: nat, b: nat, cs: bool)
    requires a <= b && k <= |str| && a <= |wild| && Covers(str, k, wild, a, cs) && Aligned(str, k, wild, a, b, cs)
    ensures Covers(str, k + (b - a), wild, b, cs)
    decreases b
  {
    if a < b {
      StretchOn(str, k, wild, a, b - 1, cs);
    }
  }

  lemma {:induction false} FrontCovers(str: CString, i: nat, wild: CString, j: nat, j': nat, cs: bool) returns (i': nat)
    requires i <= |str| && j' <= j <= |wild| && Covers(str, i, wild, j, cs)
    ensures i' <= i && Covers(str, i', wild, j', cs)
    decreases j
  {
    if j == j' {
      i' := i;
    } else if wild[j - 1] == '*' {
      var front := j - 1;
      var k: nat :| k <= i && Covers(str, k, wild, front, cs);
      i' := FrontCovers(str, k, wild, j - 1, j', cs);
    } else {
      i' := FrontCovers(str, i - 1, wild, j - 1, j', cs);
    }
  }

  lemma {:induction false} AlignedAt(str: CString, k: nat, wild: CString, m: nat, e: nat, w: nat, cs: bool)
    requires m <= w < e && Aligned(str, k, wild, m, e, cs)
    ensures wild[w] != '*' && Accepts(wild[w], str[k + (w - m)], cs)
    decreases e
  {
    if w < e - 1 {
      AlignedAt(str, k, wild, m, e - 1, w, cs);
    }
  }

  // ---------------------------------------------------------------------------------------
  // What the search has found out
  // ---------------------------------------------------------------------------------------

  /** Placed at `k`, the stretch from `m` on neither gets to a star nor to the end of the text. */
  ghost predicate Dead(str: CString, k: nat, wild: CString, m: nat, cs: bool) {
    forall e: nat :: m <= e && Aligned(str, k, wild, m, e, cs) ==>
      k + (e - m) < |str| && (e == |wild| || wild[e] != '*')
  }

  /** The star before `mp` was first reached at `k0`, and placements before `cp - 1` are dead. */
  ghost predicate Traced(str: CString, wild: CString, cs: bool, k0: nat, cp: nat, mp: nat) {
    && 0 < mp <= |wild| && Reaches(str, wild, cs, mp - 1, k0)
    && (var star := mp - 1; forall i: nat :: i <= |str| && Covers(str, i, wild, star, cs) ==> k0 <= i)
    && k0 < cp <= |str| + 1
    && (forall k: nat :: k0 <= k < cp - 1 ==> Dead(str, k, wild, mp, cs))
  }

  lemma FirstStar(str: CString, wild: CString, cs: bool, s: nat)
    requires s < |str| && s < |wild| && wild[s] == '*' && Starless(wild, 0, s) && Covers(str, s, wild, s, cs)
    ensures Traced(str, wild, cs, s, s + 1, s + 1)
  {
    forall i: nat | i <= |str| && Covers(str, i, wild, s, cs) ensures s <= i {
      var k := StretchBack(str, i, wild, 0, s, cs);
    }
  }

  /** Anything that covers the text up to a star from `mp` on is a placement of the stretch. */
  lemma PlacedFrom(str: CString, wild: CString, cs: bool, k0: nat, cp: nat, mp: nat, i: nat, b: nat) returns (k: nat)
    requires Traced(str, wild, cs, k0, cp, mp) && mp <= b && Starless(wild, mp, b)
    requires i <= |str| && Covers(str, i, wild, b, cs)
    ensures i == k + (b - mp) && k0 <= k && Aligned(str, k, wild, mp, b, cs)
    ensures k < cp - 1 ==> Dead(str, k, wild, mp, cs)
  {
    k := StretchBack(str, i, wild, mp, b, cs);
    var star := mp - 1;
    var k': nat :| k' <= k && Covers(str, k', wild, star, cs);
  }

  lemma NextStarTraced(str: CString, wild: CString, cs: bool, k0: nat, cp: nat, mp: nat, s: nat, w: nat)
    requires Traced(str, wild, cs, k0, cp, mp) && mp <= w < |wild| && wild[w] == '*'
    requires Aligned(str, cp - 1, wild, mp, w, cs) && s == cp - 1 + (w - mp) < |str|
    ensures Traced(str, wild, cs, s, s + 1, w + 1)
  {
    AlignedConsumes(str, cp - 1, wild, mp, w, cs);
    assert Covers(str, cp - 1, wild, mp, cs);
    StretchOn(str, cp - 1, wild, mp, w, cs);
    forall i: nat | i <= |str| && Covers(str, i, wild, w, cs) ensures s <= i {
      var k := PlacedFrom(str, wild, cs, k0, cp, mp, i, w);
    }
  }

  lemma MismatchIsFinal(str: CString, k: nat, wild: CString, m: nat, w: nat, e: nat, cs: bool)
    requires m <= w && Aligned(str, k, wild, m, w, cs) && k + (w - m) < |str|
    requires w == |wild| || (wild[w] != '*' && !Accepts(wild[w], str[k + (w - m)], cs))
    requires m <= e && Aligned(str, k, wild, m, e, cs)
    ensures k + (e - m) < |str| && (e == |wild| || wild[e] != '*')
  {
    AlignedConsumes(str, k, wild, m, w, cs);
    if e > w {
      AlignedAt(str, k, wild, m, e, w, cs);
    }
  }

  lemma MismatchIsDead(str: CString, k: nat, wild: CString, m: nat, w: nat, cs: bool)
    requires m <= w && Aligned(str, k, wild, m, w, cs) && k + (w - m) < |str|
    requires w == |wild| || (wild[w] != '*' && !Accepts(wild[w], str[k + (w - m)], cs))
    ensures Dead(str, k, wild, m, cs)
  {
    forall e: nat | m <= e && Aligned(str, k, wild, m, e, cs)
      ensures k + (e - m) < |str| && (e == |wild| || wild[e] != '*')
    {
      MismatchIsFinal(str, k, wild, m, w, e, cs);
    }
  }

  lemma RetryTraced(str: CString, wild: CString, cs: bool, k0: nat, cp: nat, mp: nat, s: nat, w: nat)
    requires Traced(str, wild, cs, k0, cp, mp) && mp <= w && Aligned(str, cp - 1, wild, mp, w, cs)
    requires s == cp - 1 + (w - mp) < |str|
    requires w == |wild| || (wild[w] != '*' && !Accepts(wild[w], str[s], cs))
    ensures Traced(str, wild, cs, k0, cp + 1, mp)
  {
    MismatchIsDead(str, cp - 1, wild, mp, w, cs);
    forall k: nat | k0 <= k < cp ensures Dead(str, k, wild, mp, cs) {
      assert k < cp - 1 || k == cp - 1;
    }
  }

  lemma FirstStarAfter(wild: CString, a: nat, m: nat) returns (m1: nat)
    requires a <= m < |wild| && wild[m] == '*'
    ensures a <= m1 <= m && wild[m1] == '*' && Starless(wild, a, m1)
  {
    m1 := a;
    while wild[m1] != '*'
      invariant a <= m1 <= m && Starless(wild, a, m1)
      decreases m - m1
    {
      m1 := m1 + 1;
    }
  }

  lemma NoLaterStar(str: CString, wild: CString, cs: bool, k0: nat, cp: nat, mp: nat, w: nat, m: nat, i: nat)
    requires Traced(str, wild, cs, k0, cp, mp) && mp <= w && Aligned(str, cp - 1, wild, mp, w, cs)
    requires cp - 1 + (w - mp) == |str| && mp <= m
    ensures !Reaches(str, wild, cs, m, i)
  {
    if Reaches(str, wild, cs, m, i) {
      var m1 := FirstStarAfter(wild, mp, m);
      var i1 := FrontCovers(str, i, wild, m, m1, cs);
      var k := PlacedFrom(str, wild, cs, k0, cp, mp, i1, m1);
      AlignedConsumes(str, cp - 1, wild, mp, w, cs);
    }
  }

  /** When the search has used up the text, the pointer has left it exactly on the inputs above. */
  lemma EndOfSearch(str: CString, wild: CString, cs: bool, k0: nat, cp: nat, mp: nat, w: nat)
    requires Traced(str, wild, cs, k0, cp, mp) && mp < |wild| && mp <= w && Aligned(str, cp - 1, wild, mp, w, cs)
    requires cp - 1 + (w - mp) == |str|
    ensures Overruns(str, wild, cs) <==> cp == |str| + 1
  {
    forall m: nat, i: nat | mp <= m ensures !Reaches(str, wild, cs, m, i) {
      NoLaterStar(str, wild, cs, k0, cp, mp, w, m, i);
    }
    assert LastStar(str, wild, cs, mp - 1);
    if w > mp {
      AlignedConsumes(str, cp - 1, wild, mp, w, cs);
      assert Covers(str, cp - 1, wild, mp, cs);
      StretchOn(str, cp - 1, wild, mp, w, cs);
      assert !NeverUsesUp(str, wild, cs, mp - 1);
      forall m: nat | LastStar(str, wild, cs, m) ensures m == mp - 1 {
        var i: nat :| Reaches(str, wild, cs, m, i);
      }
    } else {
      forall e: nat | mp < e && Starless(wild, mp, e) ensures !Covers(str, |str|, wild, e, cs) {
        if Covers(str, |str|, wild, e, cs) {
          var k := PlacedFrom(str, wild, cs, k0, cp, mp, |str|, e);
        }
      }
      assert NeverUsesUp(str, wild, cs, mp - 1);
    }
  }

  /** A star at the end of the pattern ends the search at once. */
  lemma EndsInStar(str: CString, wild: CString, cs: bool, k0: nat)
    requires wild != "" && Reaches(str, wild, cs, |wild| - 1, k0)
    ensures !Overruns(str, wild, cs)
  {
    forall m: nat | LastStar(str, wild, cs, m) ensures !NeverUsesUp(str, wild, cs, m) {
      assert m >= |wild| - 1;
    }
  }

  /** No star is reached if the literal beginning of the pattern does not fit or uses up the text. */
  lemma NoStarReached(str: CString, wild: CString, cs: bool, s: nat)
    requires s <= |str| && s <= |wild| && Starless(wild, 0, s)
    requires s < |str| ==> s == |wild| || (wild[s] != '*' && !Accepts(wild[s], str[s], cs))
    ensures !Overruns(str, wild, cs)
  {
    forall m: nat, i: nat ensures !Reaches(str, wild, cs, m, i) {
      if Reaches(str, wild, cs, m, i) {
        var m1 := FirstStarAfter(wild, 0, m);
        var i1 := FrontCovers(str, i, wild, m, m1, cs);
        var k := StretchBack(str, i1, wild, 0, m1, cs);
        if s < m1 {
          AlignedAt(str, k, wild, 0, m1, s, cs);
        }
      }
    }
  }

  /** A leading star and then a character that occurs nowhere in a text that is not empty. */
  lemma ForeignAfterStar(str: CString, wild: CString, cs: bool)
    requires str != "" && |wild| >= 2 && wild[0] == '*' && wild[1] != '*'
    requires forall i :: 0 <= i < |str| ==> !Accepts(wild[1], str[i], cs)
    ensures Overruns(str, wild, cs)
  {
    forall i: nat, j: nat | i <= |str| && 2 <= j <= |wild| ensures !Covers(str, i, wild, j, cs) {
      if Covers(str, i, wild, j, cs) {
        var i' := FrontCovers(str, i, wild, j, 2, cs);
      }
    }
    assert Covers(str, 0, wild, 0, cs) && Reaches(str, wild, cs, 0, 0);
    assert LastStar(str, wild, cs, 0) && NeverUsesUp(str, wild, cs, 0);
  }
}
