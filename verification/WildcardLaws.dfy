/**
 * What a match is, said of the text as a whole: the text falls into pieces, one for each pattern
 * character. And what patterns without stars and question marks match, letter case included.
 */
module WildcardLaws {
  import opened Wildcard

  /** An ASCII letter in both cases. */
  predicate LetterPair(a: char, b: char) {
    || ('A' <= a <= 'Z' && b as int == a as int + 32)
    || ('A' <= b <= 'Z' && a as int == b as int + 32)
  }

  /** A star stands for any piece of text, any other pattern character for a piece of one character. */
  predicate Fits(w: char, piece: string, cs: bool) {
    w == '*' || (|piece| == 1 && (w == '?' || piece[0] == w || (!cs && LetterPair(w, piece[0]))))
  }

  function Glued(pieces: seq<string>): (text: string) {
    if pieces == [] then "" else pieces[0] + Glued(pieces[1..])
  }

  ghost predicate Tiles(pieces: seq<string>, str: string, wild: string, cs: bool) {
    |pieces| == |wild| && Glued(pieces) == str && forall j :: 0 <= j < |wild| ==> Fits(wild[j], pieces[j], cs)
  }

  /** The text can be cut into pieces that fit the pattern, one by one. */
  ghost predicate Tileable(str: string, wild: string, cs: bool) {
    exists pieces :: Tiles(pieces, str, wild, cs)
  }

  lemma AcceptsMeans(w: char, c: char, cs: bool)
    requires w != '*'
    ensures Accepts(w, c, cs) <==> Fits(w, [c], cs)
  {
  }

  lemma TilesCons(piece: string, pieces: seq<string>, str: string, w: char, wild: string, cs: bool)
    ensures Tiles([piece] + pieces, piece + str, [w] + wild, cs) <==> Fits(w, piece, cs) && Tiles(pieces, str, wild, cs)
  {
    var all, pattern := [piece] + pieces, [w] + wild;
    assert all[1..] == pieces && all[0] == piece && pattern[0] == w && pattern[1..] == wild;
    assert Glued(all) == piece + Glued(pieces);
    if Glued(all) == piece + str { assert Glued(pieces) == (piece + str)[|piece|..] == str; }
    if Tiles(all, piece + str, pattern, cs) {
      forall j | 0 <= j < |wild| ensures Fits(wild[j], pieces[j], cs) {
        assert wild[j] == pattern[j + 1] && pieces[j] == all[j + 1];
      }
    }
  }

  lemma {:induction false} MatchGivesTiles(str: CString, i: nat, wild: CString, j: nat, cs: bool) returns (pieces: seq<string>)
    requires i <= |str| && j <= |wild| && Matches(str, i, wild, j, cs)
    ensures Tiles(pieces, str[i..], wild[j..], cs)
    decreases |wild| - j
  {
    if j == |wild| {
      return [];
    }
    var k := i + 1;
    if wild[j] == '*' {
      var rest := j + 1;
      k :| i <= k <= |str| && Matches(str, k, wild, rest, cs);
    } else {
      AcceptsMeans(wild[j], str[i], cs);
      assert str[i..k] == [str[i]];
    }
    pieces := MatchGivesTiles(str, k, wild, j + 1, cs);
    TilesCons(str[i..k], pieces, str[k..], wild[j], wild[j + 1..], cs);
    assert str[i..k] + str[k..] == str[i..] && [wild[j]] + wild[j + 1..] == wild[j..];
    pieces := [str[i..k]] + pieces;
  }

  lemma {:induction false} TilesGiveMatch(pieces: seq<string>, str: CString, i: nat, wild: CString, j: nat, cs: bool)
    requires i <= |str| && j <= |wild| && Tiles(pieces, str[i..], wild[j..], cs)
    ensures Matches(str, i, wild, j, cs)
    decreases |wild| - j
  {
    if j < |wild| {
      var piece, others := pieces[0], pieces[1..];
      var k := i + |piece|;
      assert str[i..] == piece + Glued(others);
      assert str[k..] == str[i..][|piece|..] == Glued(others);
      assert [wild[j]] + wild[j + 1..] == wild[j..] && [piece] + others == pieces;
      TilesCons(piece, others, str[k..], wild[j], wild[j + 1..], cs);
      TilesGiveMatch(others, str, k, wild, j + 1, cs);
      if wild[j] != '*' {
        assert piece == [str[i]];
        AcceptsMeans(wild[j], str[i], cs);
      }
    }
  }

  /** The glob relation is about pieces of text and nothing else. */
  lemma MatchIsTiling(str: CString, wild: CString, cs: bool)
    ensures Matches(str, 0, wild, 0, cs) <==> Tileable(str, wild, cs)
  {
    assert str[0..] == str && wild[0..] == wild;
    if Matches(str, 0, wild, 0, cs) {
      var pieces := MatchGivesTiles(str, 0, wild, 0, cs);
    }
    if pieces :| Tiles(pieces, str, wild, cs) {
      TilesGiveMatch(pieces, str, 0, wild, 0, cs);
    }
  }

  /** What matches with the case counted matches without. */
  lemma CaseRelaxes(str: CString, wild: CString)
    requires Matches(str, 0, wild, 0, true)
    ensures Matches(str, 0, wild, 0, false)
  {
    MatchIsTiling(str, wild, true);
    MatchIsTiling(str, wild, false);
    var pieces :| Tiles(pieces, str, wild, true);
    assert Tiles(pieces, str, wild, false);
  }

  // ---------------------------------------------------------------------------------------
  // Patterns without wildcards
  // ---------------------------------------------------------------------------------------

  ghost predicate Literal(wild: string) {
    '*' !in wild && '?' !in wild
  }

  ghost predicate EqualButForCase(a: string, b: string) {
    |a| == |b| && forall k :: 0 <= k < |a| ==> a[k] == b[k] || LetterPair(a[k], b[k])
  }

  /** From pattern position `j` on the pattern lies on the text, shifted by `d`, character by character. */
  lemma {:induction false} StarlessMatch(str: CString, d: int, wild: CString, j: nat, cs: bool)
    requires 0 <= j + d <= |str| && j <= |wild| && '*' !in wild
    ensures Matches(str, j + d, wild, j, cs)
       <==> |str| == |wild| + d && forall k :: j <= k < |wild| ==> Fits(wild[k], [str[k + d]], cs)
    decreases |wild| - j
  {
    if j < |wild| {
      assert wild[j] in wild;
      if j + d < |str| {
        AcceptsMeans(wild[j], str[j + d], cs);
        StarlessMatch(str, d, wild, j + 1, cs);
      }
    }
  }

  /** With the case counted such a pattern matches the text equal to it. */
  lemma LiteralIsEquality(str: CString, wild: CString)
    requires Literal(wild)
    ensures Matches(str, 0, wild, 0, true) <==> str == wild
  {
    StarlessMatch(str, 0, wild, 0, true);
    forall k | 0 <= k < |wild| ensures wild[k] != '?' && wild[k] != '*' { assert wild[k] in wild; }
    if Matches(str, 0, wild, 0, true) {
      forall k | 0 <= k < |wild| ensures str[k] == wild[k] { assert Fits(wild[k], [str[k + 0]], true); }
    }
  }

  /** Without, the texts of its length whose characters are equal or one ASCII letter in both cases. */
  lemma LiteralIgnoringCase(str: CString, wild: CString)
    requires Literal(wild)
    ensures Matches(str, 0, wild, 0, false) <==> EqualButForCase(str, wild)
  {
    StarlessMatch(str, 0, wild, 0, false);
    forall k | 0 <= k < |wild| ensures wild[k] != '?' && wild[k] != '*' { assert wild[k] in wild; }
    if Matches(str, 0, wild, 0, false) {
      forall k | 0 <= k < |wild| ensures str[k] == wild[k] || LetterPair(str[k], wild[k]) {
        assert Fits(wild[k], [str[k + 0]], false);
      }
    }
  }
}
