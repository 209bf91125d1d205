/**
 * The comma separated lists of the command line: a backslash keeps a comma or a backslash from
 * having its meaning, empty entries are dropped.
 */
module Tokenizer {

  import opened Common

  predicate Special(c: char) {
    c == ',' || c == '\\'
  }

  function Prepend(t: string, cells: seq<string>): (r: seq<string>)
    requires cells != []
  {
    [t + cells[0]] + cells[1..]
  }

  /** The entries of a list, the empty ones included. */
  function Cells(s: string): (cells: seq<string>)
    ensures cells != []
  {
    if s == "" then [""]
    else if s[0] == '\\' && |s| > 1 && Special(s[1]) then Prepend([s[1]], Cells(s[2..]))
    else if s[0] == ',' then [""] + Cells(s[1..])
    else Prepend([s[0]], Cells(s[1..]))
  }

  function NonEmpty(cells: seq<string>): (r: seq<string>) {
    if cells == [] then []
    else (if cells[0] == "" then [] else [cells[0]]) + NonEmpty(cells[1..])
  }

  function Tokens(s: string): (r: seq<string>) {
    NonEmpty(Cells(s))
  }

  // ---------------------------------------------------------------------------------------
  // The loop
  // ---------------------------------------------------------------------------------------

  /** What is in `res` once the loop is through: `s` is held in the buffer, `rest` is to come. */
  ghost predicate Finishes(res: seq<string>, s: string, rest: string, all: seq<string>) {
    res + NonEmpty(Prepend(s, Cells(rest))) == all
  }

  /** The body of `parseCommaSepArgs`; `option` is what `parseOption` found. */
  method ParseCommaSepArgs(option: Option<string>, res: seq<string>) returns (found: bool, res': seq<string>)
    ensures found <==> option.Some?
    ensures res' == if found then res + Tokens(option.value) else res
  {
    if option.None? {
      return false, res;
    }
    res' := Tokenize(option.value, res);
    return true, res';
  }

  method Tokenize(filtersString: string, res: seq<string>) returns (res': seq<string>)
    ensures res' == res + Tokens(filtersString)
  {
    res' := res;
    var s, seenBackslash, current := "", false, 0;
    ghost var all := res + Tokens(filtersString);
    AllToCome(res, filtersString);
    while current != |filtersString|
      invariant 0 <= current <= |filtersString|
      invariant Finishes(res', s, Held(seenBackslash) + filtersString[current..], all)
    {
      var character := filtersString[current];
      ghost var rest := filtersString[current + 1..];
      assert filtersString[current..] == [character] + rest;
      current := current + 1;
      res', s, seenBackslash := Consume(res', s, seenBackslash, character, rest, all);
    }
    LastCell(res', s, seenBackslash, filtersString[current..], all);
    if seenBackslash {
      s := s + "\\";
    }
    res' := Flush(res', s);
  }

  /** One character. */
  method Consume(res: seq<string>, s: string, seenBackslash: bool, character: char, ghost rest: string, ghost all: seq<string>)
    returns (res': seq<string>, s': string, seen': bool)
    requires Finishes(res, s, Held(seenBackslash) + ([character] + rest), all)
    ensures Finishes(res', s', Held(seen') + rest, all)
  {
    res', s', seen' := res, s, false;
    if seenBackslash {
      if character == ',' || character == '\\' {
        EscapedNext(res, s, character, rest, all);
        s' := s' + [character];
        return;
      }
      LoneBackslash(res, s, character, rest, all);
      s' := s' + "\\";
    }
    assert Held(false) + ([character] + rest) == [character] + rest;
    if character == '\\' {
      seen' := true;
    } else if character == ',' {
      CommaNext(res', s', rest, all);
      res' := Flush(res', s');
      s' := "";
    } else {
      CharNext(res', s', character, rest, all);
      s' := s' + [character];
    }
  }

  method Flush(res: seq<string>, s: string) returns (res': seq<string>)
    ensures res' == res + NonEmpty([s])
  {
    res' := if |s| > 0 then res + [s] else res;
  }

  function Held(seenBackslash: bool): (r: string) {
    if seenBackslash then "\\" else ""
  }

  lemma PrependNothing(cells: seq<string>)
    requires cells != []
    ensures Prepend("", cells) == cells
  {
    assert "" + cells[0] == cells[0];
  }

  lemma PrependTwice(a: string, b: string, cells: seq<string>)
    requires cells != []
    ensures Prepend(a, Prepend(b, cells)) == Prepend(a + b, cells)
  {
    assert a + (b + cells[0]) == (a + b) + cells[0];
  }

  lemma EscapedNext(res: seq<string>, s: string, c: char, rest: string, all: seq<string>)
    requires Special(c) && Finishes(res, s, "\\" + ([c] + rest), all)
    ensures Finishes(res, s + [c], "" + rest, all)
  {
    var t := "\\" + ([c] + rest);
    assert t[0] == '\\' && t[1] == c && t[2..] == rest == "" + rest;
    PrependTwice(s, [c], Cells(rest));
  }

  lemma LoneBackslash(res: seq<string>, s: string, c: char, rest: string, all: seq<string>)
    requires !Special(c) && Finishes(res, s, "\\" + ([c] + rest), all)
    ensures Finishes(res, s + "\\", "" + ([c] + rest), all)
  {
    var t := "\\" + ([c] + rest);
    assert t[0] == '\\' && t[1] == c && t[1..] == [c] + rest == "" + ([c] + rest);
    PrependTwice(s, "\\", Cells([c] + rest));
  }

  lemma CharNext(res: seq<string>, s: string, c: char, rest: string, all: seq<string>)
    requires !Special(c) && Finishes(res, s, [c] + rest, all)
    ensures Finishes(res, s + [c], "" + rest, all)
  {
    assert ([c] + rest)[1..] == rest == "" + rest;
    PrependTwice(s, [c], Cells(rest));
  }

  lemma CommaNext(res: seq<string>, s: string, rest: string, all: seq<string>)
    requires Finishes(res, s, "," + rest, all)
    ensures Finishes(res + NonEmpty([s]), "", "" + rest, all)
  {
    var cells := Cells(rest);
    assert ("," + rest)[1..] == rest == "" + rest;
    assert ([""] + cells)[1..] == cells && s + "" == s && Prepend(s, [""] + cells) == [s] + cells;
    PrependNothing(cells);
    assert ([s] + cells)[1..] == cells && [s][1..] == [];
    assert NonEmpty([s] + cells) == NonEmpty([s]) + NonEmpty(cells);
    Assoc(res, NonEmpty([s]), NonEmpty(cells));
  }

  lemma AllToCome(res: seq<string>, f: string)
    ensures Finishes(res, "", Held(false) + f[0..], res + Tokens(f))
  {
    PrependNothing(Cells(f));
    assert Held(false) + f[0..] == f;
  }

  lemma LastCell(res: seq<string>, s: string, seenBackslash: bool, rest: string, all: seq<string>)
    requires rest == "" && Finishes(res, s, Held(seenBackslash) + rest, all)
    ensures all == res + NonEmpty([if seenBackslash then s + "\\" else s])
  {
    var held := Held(seenBackslash);
    assert held + "" == held && s + "" == s;
    if seenBackslash {
      assert held[1..] == "" && Cells(held) == [held + ""];
    }
    assert Cells(held) == [held];
  }

  // ---------------------------------------------------------------------------------------
  // Round trip
  // ---------------------------------------------------------------------------------------

  function Escape(t: string): (r: string) {
    if t == "" then "" else EscapeChar(t[0]) + Escape(t[1..])
  }

  function EscapeChar(c: char): (r: string) {
    if Special(c) then ['\\', c] else [c]
  }

  function Join(tokens: seq<string>): (r: string) {
    if tokens == [] then ""
    else if |tokens| == 1 then Escape(tokens[0])
    else Escape(tokens[0]) + ("," + Join(tokens[1..]))
  }

  lemma {:induction false} EscapedCell(t: string, rest: string)
    ensures Cells(Escape(t) + rest) == Prepend(t, Cells(rest))
    decreases |t|
  {
    if t == "" {
      assert "" + rest == rest;
      PrependNothing(Cells(rest));
    } else {
      var tail := Escape(t[1..]) + rest;
      EscapedCell(t[1..], rest);
      PrependTwice([t[0]], t[1..], Cells(rest));
      assert [t[0]] + t[1..] == t;
      assert Escape(t) + rest == EscapeChar(t[0]) + tail;
      EscapedChar(t[0], tail);
    }
  }

  lemma EscapedChar(c: char, rest: string)
    ensures Cells(EscapeChar(c) + rest) == Prepend([c], Cells(rest))
  {
    var all := EscapeChar(c) + rest;
    if Special(c) {
      assert all[0] == '\\' && all[1] == c && all[2..] == rest;
    } else {
      assert all[0] == c && all[1..] == rest;
    }
  }

  lemma {:induction false} JoinedCells(tokens: seq<string>)
    requires tokens != []
    ensures Cells(Join(tokens)) == tokens
    decreases |tokens|
  {
    var t := tokens[0];
    if |tokens| == 1 {
      EscapedCell(t, "");
      assert Escape(t) + "" == Escape(t) && t + "" == t;
    } else {
      var rest := Join(tokens[1..]);
      JoinedCells(tokens[1..]);
      EscapedCell(t, "," + rest);
      assert ("," + rest)[1..] == rest;
      assert t + "" == t;
    }
  }

  // ---------------------------------------------------------------------------------------
  // What the characters mean
  // ---------------------------------------------------------------------------------------

  ghost predicate Plain(t: string) {
    ',' !in t && '\\' !in t
  }

  /** Text without commas and backslashes is part of the entry it stands in. */
  lemma {:induction false} PlainGoesOn(t: string, rest: string)
    requires Plain(t)
    ensures Cells(t + rest) == Prepend(t, Cells(rest))
    decreases |t|
  {
    if t == "" {
      assert "" + rest == rest;
      PrependNothing(Cells(rest));
    } else {
      assert t[0] in t && (t + rest)[0] == t[0] && (t + rest)[1..] == t[1..] + rest;
      PlainGoesOn(t[1..], rest);
      PrependTwice([t[0]], t[1..], Cells(rest));
      assert [t[0]] + t[1..] == t;
    }
  }

  /** A comma ends the entry, a list without one is one entry. */
  lemma CommaEndsEntry(t: string, rest: string)
    requires Plain(t)
    ensures Cells(t) == [t] && Cells(t + ("," + rest)) == [t] + Cells(rest)
  {
    PlainGoesOn(t, "");
    assert t + "" == t && Cells("") == [""];
    PlainGoesOn(t, "," + rest);
    assert ("," + rest)[1..] == rest;
  }

  /** A backslash makes a comma or a backslash an ordinary character; before others it is one itself. */
  lemma BackslashKeeps(c: char, rest: string)
    ensures c == ',' || c == '\\' ==> Cells("\\" + ([c] + rest)) == Prepend([c], Cells(rest))
    ensures c != ',' && c != '\\' ==> Cells("\\" + ([c] + rest)) == Prepend("\\", Cells([c] + rest))
    ensures Cells("\\") == ["\\"]
  {
    var t := "\\" + ([c] + rest);
    assert t[1] == c && t[1..] == [c] + rest && t[2..] == rest;
    assert "\\"[1..] == "" && Cells("") == [""] && [""][1..] == [] && "\\" + "" == "\\";
  }

  /** Escaping and joining is undone for lists without empty entries, and only for those. */
  lemma RoundTrip(tokens: seq<string>)
    ensures Tokens(Join(tokens)) == NonEmpty(tokens)
    ensures Tokens(Join(tokens)) == tokens <==> "" !in tokens
  {
    NothingDropped(tokens);
    if tokens != [] {
      JoinedCells(tokens);
    } else {
      assert Cells("") == [""] && [""][1..] == [];
    }
  }

  lemma {:induction false} NothingDropped(tokens: seq<string>)
    ensures NonEmpty(tokens) == tokens <==> "" !in tokens
    ensures |NonEmpty(tokens)| <= |tokens|
    decreases |tokens|
  {
    if tokens != [] {
      NothingDropped(tokens[1..]);
      assert tokens == [tokens[0]] + tokens[1..];
      if tokens[0] != "" {
        assert NonEmpty(tokens)[1..] == NonEmpty(tokens[1..]);
      }
    }
  }
}
