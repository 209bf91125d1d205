/** `wildcmp` and `matchesAny`, the loops. */
module WildcardMatcher {
  import opened Wildcard
  import opened WildcardLaws
  import opened WildcardOverrun

  /**
   * `wildcmp`. The four pointers become indices: `s` and `cp` into the text, `w` and `mp` into
   * the pattern. Only `cp` may leave its string, by one position, and is not read there.
   */
  method Wildcmp(str: CString, wild: CString, caseSensitive: bool) returns (result: bool, cp: nat)
    ensures result <==> Matches(str, 0, wild, 0, caseSensitive)
    ensures result <==> Tileable(str, wild, caseSensitive)
    ensures cp <= |str| + 1
    ensures cp == |str| + 1 <==> Overruns(str, wild, caseSensitive)
  {
    MatchIsTiling(str, wild, caseSensitive);
    var s, w := 0, 0;
    while s < |str| && At(wild, w) != '*'
      invariant s == w <= |str| && w <= |wild|
      invariant Matches(str, 0, wild, 0, caseSensitive) <==> Matches(str, s, wild, w, caseSensitive)
      invariant Starless(wild, 0, w) && Covers(str, s, wild, w, caseSensitive)
    {
      if !Same(At(wild, w), str[s], caseSensitive) && At(wild, w) != '?' {
        NoStarReached(str, wild, caseSensitive, s);
        return false, 0;
      }
      w := w + 1;
      s := s + 1;
    }

    if s == |str| { NoStarReached(str, wild, caseSensitive, s); }
    result, cp := Search(str, wild, caseSensitive, s);
  }

  /** `wildcmp` from the first star on, or from the end of the text. */
  method Search(str: CString, wild: CString, caseSensitive: bool, start: nat) returns (result: bool, cp: nat)
    requires Entered(str, wild, caseSensitive, start)
    ensures result <==> Matches(str, 0, wild, 0, caseSensitive)
    ensures cp <= |str| + 1
    ensures cp == |str| + 1 <==> Overruns(str, wild, caseSensitive)
  {
    var s: nat, w: nat, mp: nat := start, start, 0;
    cp := 0;
    ghost var seen, k0: nat := false, 0;
    while s < |str|
      invariant Looking(str, wild, caseSensitive, start, seen, s, w, cp, mp, k0)
      decreases |wild| - mp, |str| + 1 - cp, |str| - s
    {
      if At(wild, w) == '*' {
        StarMet(str, wild, caseSensitive, start, seen, s, w, cp, mp, k0);
        w := w + 1;
        if At(wild, w) == '\0' {
          return true, cp;
        }
        seen, k0 := true, s;
        mp := w;
        cp := s + 1;
      } else if Same(At(wild, w), str[s], caseSensitive) || At(wild, w) == '?' {
        LetterMet(str, wild, caseSensitive, start, seen, s, w, cp, mp, k0);
        w := w + 1;
        s := s + 1;
      } else {
        OtherMet(str, wild, caseSensitive, start, seen, s, w, cp, mp, k0);
        w := mp;
        s := cp;
        cp := cp + 1;
      }
    }

    TextUsedUp(str, wild, caseSensitive, start, seen, s, w, cp, mp, k0);
    result := OnlyStars(str, wild, caseSensitive, w);
  }

  /** What the first loop hands over: the starless front of the pattern has been matched up to `start`. */
  ghost predicate Entered(str: CString, wild: CString, cs: bool, start: nat) {
    && start <= |str| && Starless(wild, 0, start) && Covers(str, start, wild, start, cs)
    && (Matches(str, 0, wild, 0, cs) <==> Matches(str, start, wild, start, cs))
    && if start < |str| then At(wild, start) == '*' else !Overruns(str, wild, cs)
  }

  /** Where the second loop stands: before its first star, or at a placement behind a star. */
  ghost predicate Looking(str: CString, wild: CString, cs: bool, start: nat, seen: bool,
                          s: nat, w: nat, cp: nat, mp: nat, k0: nat) {
    && s <= |str| && w <= |wild| && mp <= w && cp <= |str| + 1
    && if seen then Searching(str, wild, cs, s, w, cp, mp) && Traced(str, wild, cs, k0, cp, mp)
       else mp == cp == 0 && s == w == start
  }

  lemma StarMet(str: CString, wild: CString, cs: bool, start: nat, seen: bool, s: nat, w: nat, cp: nat, mp: nat, k0: nat)
    requires Entered(str, wild, cs, start) && Looking(str, wild, cs, start, seen, s, w, cp, mp, k0)
    requires s < |str| && At(wild, w) == '*'
    ensures w < |wild|
    ensures At(wild, w + 1) == '\0' ==>
              Matches(str, 0, wild, 0, cs) && !Overruns(str, wild, cs) && cp != |str| + 1
    ensures At(wild, w + 1) != '\0' ==> Looking(str, wild, cs, start, true, s, w + 1, s + 1, w + 1, s)
  {
    if seen {
      LaterStar(str, wild, cs, s, w, cp, mp, k0);
    } else {
      EarliestStar(str, wild, cs, s);
    }
    if w + 1 == |wild| {
      EndsInStar(str, wild, cs, s);
    }
  }

  lemma LetterMet(str: CString, wild: CString, cs: bool, start: nat, seen: bool, s: nat, w: nat, cp: nat, mp: nat, k0: nat)
    requires Entered(str, wild, cs, start) && Looking(str, wild, cs, start, seen, s, w, cp, mp, k0)
    requires s < |str| && At(wild, w) != '*' && (Same(At(wild, w), str[s], cs) || At(wild, w) == '?')
    ensures Looking(str, wild, cs, start, seen, s + 1, w + 1, cp, mp, k0)
  {
    Advance(str, wild, cs, s, w, cp, mp);
  }

  lemma OtherMet(str: CString, wild: CString, cs: bool, start: nat, seen: bool, s: nat, w: nat, cp: nat, mp: nat, k0: nat)
    requires Entered(str, wild, cs, start) && Looking(str, wild, cs, start, seen, s, w, cp, mp, k0)
    requires s < |str| && At(wild, w) != '*' && !Same(At(wild, w), str[s], cs) && At(wild, w) != '?'
    ensures cp <= |str| && Looking(str, wild, cs, start, seen, cp, mp, cp + 1, mp, k0)
  {
    NextPlacement(str, wild, cs, s, w, cp, mp, k0);
  }

  lemma TextUsedUp(str: CString, wild: CString, cs: bool, start: nat, seen: bool, s: nat, w: nat, cp: nat, mp: nat, k0: nat)
    requires Entered(str, wild, cs, start) && Looking(str, wild, cs, start, seen, s, w, cp, mp, k0) && s == |str|
    ensures Matches(str, 0, wild, 0, cs) <==> Matches(str, |str|, wild, w, cs)
    ensures cp == |str| + 1 <==> Overruns(str, wild, cs)
  {
    if seen {
      TextExhausted(str, cp - 1, wild, mp, w, cs);
      EndOfSearch(str, wild, cs, k0, cp, mp, w);
    }
  }

  lemma EarliestStar(str: CString, wild: CString, cs: bool, s: nat)
    requires s < |str| && s < |wild| && wild[s] == '*' && Starless(wild, 0, s) && Covers(str, s, wild, s, cs)
    requires Matches(str, 0, wild, 0, cs) <==> Matches(str, s, wild, s, cs)
    ensures Traced(str, wild, cs, s, s + 1, s + 1)
    ensures s + 1 == |wild| ==> Matches(str, 0, wild, 0, cs)
    ensures s + 1 < |wild| ==> Searching(str, wild, cs, s, s + 1, s + 1, s + 1)
  {
    FirstStar(str, wild, cs, s);
    EnterStar(str, wild, cs, s, s);
  }

  lemma LaterStar(str: CString, wild: CString, cs: bool, s: nat, w: nat, cp: nat, mp: nat, k0: nat)
    requires Searching(str, wild, cs, s, w, cp, mp) && Traced(str, wild, cs, k0, cp, mp)
    requires s < |str| && w < |wild| && wild[w] == '*'
    ensures Traced(str, wild, cs, s, s + 1, w + 1)
    ensures w + 1 == |wild| ==> Matches(str, 0, wild, 0, cs)
    ensures w + 1 < |wild| ==> Searching(str, wild, cs, s, w + 1, s + 1, w + 1)
  {
    NextStar(str, wild, cs, s, w, cp, mp);
    NextStarTraced(str, wild, cs, k0, cp, mp, s, w);
    EnterStar(str, wild, cs, s, w);
  }

  lemma NextPlacement(str: CString, wild: CString, cs: bool, s: nat, w: nat, cp: nat, mp: nat, k0: nat)
    requires Searching(str, wild, cs, s, w, cp, mp) && Traced(str, wild, cs, k0, cp, mp) && s < |str|
    requires w == |wild| || (wild[w] != '*' && !Accepts(wild[w], str[s], cs))
    ensures Searching(str, wild, cs, cp, mp, cp + 1, mp) && Traced(str, wild, cs, k0, cp + 1, mp)
  {
    Retry(str, wild, cs, s, w, cp, mp);
    RetryTraced(str, wild, cs, k0, cp, mp, s, w);
  }

  /** The end of `wildcmp`: what is left of the pattern may consist of stars. */
  method OnlyStars(str: CString, wild: CString, caseSensitive: bool, start: nat) returns (result: bool)
    requires start <= |wild|
    ensures result <==> Matches(str, |str|, wild, start, caseSensitive)
  {
    var w := start;
    while At(wild, w) == '*'
      invariant w <= |wild|
      invariant Matches(str, |str|, wild, start, caseSensitive) <==> Matches(str, |str|, wild, w, caseSensitive)
      decreases |wild| - w
    {
      StarMatchesNothing(str, wild, caseSensitive, w);
      w := w + 1;
    }
    result := At(wild, w) == '\0';
  }

  /** `matchesAny`: an empty filter list decides by itself, otherwise one matching filter is enough. */
  method MatchesAny(name: CString, filters: seq<CString>, matchEmpty: bool, cs: bool) returns (result: bool)
    ensures filters == [] ==> result == matchEmpty
    ensures filters != [] ==> (result <==> exists i :: 0 <= i < |filters| && Matches(name, 0, filters[i], 0, cs))
  {
    if filters == [] && matchEmpty { return true; }
    for i := 0 to |filters|
      invariant forall k :: 0 <= k < i ==> !Matches(name, 0, filters[k], 0, cs)
    {
      var found, _ := Wildcmp(name, filters[i], cs);
      if found { return true; }
    }
    return false;
  }
}
