/**
 * What an XML reader does to white space: it turns every line end into a line feed (section 2.11
 * of XML 1.0) and white space in attributes into spaces (section 3.3.3).
 */
module XmlLines {
  import opened Common
  import opened XmlEncode
  import opened XmlDecode

  /** CR LF and a lone CR become LF. */
  function LineEnds(t: Bytes): (r: Bytes)
    decreases |t|
  {
    if t == [] then []
    else if t[0] == '\r' then ['\n'] + LineEnds(t[if |t| > 1 && t[1] == '\n' then 2 else 1..])
    else [t[0]] + LineEnds(t[1..])
  }

  function Blank(c: Byte): (b: Byte) {
    if c == '\t' || c == '\n' || c == '\r' then ' ' else c
  }

  function Blanks(t: Bytes): (r: Bytes)
    ensures |r| == |t| && forall k :: 0 <= k < |t| ==> r[k] == Blank(t[k])
  {
    if t == [] then [] else [Blank(t[0])] + Blanks(t[1..])
  }

  /** The value of an attribute as its characters stand in the file. */
  function AttValue(t: Bytes): (r: Bytes) {
    Blanks(LineEnds(t))
  }

  // ---------------------------------------------------------------------------------------
  // Entities are not affected
  // ---------------------------------------------------------------------------------------

  predicate Solid(e: Bytes) {
    forall k :: 0 <= k < |e| ==> e[k] != ' ' && e[k] != '\t' && e[k] != '\n' && e[k] != '\r'
  }

  lemma {:induction false} SolidPrefix(e: Bytes, t: Bytes)
    requires Solid(e)
    ensures e <= LineEnds(t) <==> e <= t
    ensures e <= t ==> LineEnds(t) == e + LineEnds(t[|e|..])
    decreases |e|
  {
    if e == [] {
      assert t[0..] == t && [] + LineEnds(t) == LineEnds(t);
    } else if t != [] && t[0] == e[0] {
      SolidPrefix(e[1..], t[1..]);
      ConsPrefix(e, t);
      ConsPrefix(e, LineEnds(t));
      assert LineEnds(t)[1..] == LineEnds(t[1..]);
      if e <= t {
        assert t[1..][|e| - 1..] == t[|e|..];
        Assoc([e[0]], e[1..], LineEnds(t[|e|..]));
        assert [e[0]] + e[1..] == e;
      }
    } else {
      HeadKept(t);
    }
  }

  lemma ConsPrefix(e: Bytes, t: Bytes)
    requires e != [] && t != []
    ensures e <= t <==> e[0] == t[0] && e[1..] <= t[1..]
  {
    if e[0] == t[0] && e[1..] <= t[1..] {
      assert e == [e[0]] + e[1..] && t == [t[0]] + t[1..];
    }
  }

  lemma HeadKept(t: Bytes)
    ensures t == [] <==> LineEnds(t) == []
    ensures t != [] ==> LineEnds(t)[0] == if t[0] == '\r' then '\n' else t[0]
  {
  }

  lemma EntitiesAreSolid()
    ensures Solid(LT) && Solid(AMP) && Solid(GT) && Solid(QUOT)
  {
  }

  lemma SymbolKept(t: Bytes)
    requires t != [] && t[0] != '\r'
    ensures LineEnds(t) != [] && Symbol(LineEnds(t)) == Symbol(t)
    ensures LineEnds(t)[Symbol(t).1..] == LineEnds(t[Symbol(t).1..])
  {
    HeadKept(t);
    EntitiesAreSolid();
    SolidPrefix(LT, t);
    SolidPrefix(AMP, t);
    SolidPrefix(GT, t);
    SolidPrefix(QUOT, t);
  }

  lemma FirstSymbol(t: Bytes)
    requires t != []
    ensures Unescape(t) != [] && Unescape(t)[0] == Symbol(t).0 && Unescape(t)[1..] == Unescape(t[Symbol(t).1..])
    ensures t[0] == '\n' <==> Symbol(t).0 == '\n'
    ensures t[0] == '\r' <==> Symbol(t).0 == '\r'
    ensures t[0] == '\n' || t[0] == '\r' ==> Symbol(t).1 == 1
  {
  }

  /** Line ends can be turned before or after the entities are decoded. */
  lemma {:induction false} UnescapeLineEnds(t: Bytes)
    ensures Unescape(LineEnds(t)) == LineEnds(Unescape(t))
    decreases |t|
  {
    if t != [] {
      var (c, n) := Symbol(t);
      FirstSymbol(t);
      if t[0] == '\r' {
        ReturnTurned(t);
      } else {
        SymbolKept(t);
        UnescapeLineEnds(t[n..]);
        FirstSymbol(LineEnds(t));
        ConsLineEnds(Unescape(t));
        assert Unescape(LineEnds(t)) == [c] + Unescape(LineEnds(t)[n..]);
      }
    }
  }

  lemma ConsLineEnds(t: Bytes)
    requires t != [] && t[0] != '\r'
    ensures LineEnds(t) == [t[0]] + LineEnds(t[1..])
  {
  }

  lemma ReturnTurned(t: Bytes)
    requires t != [] && t[0] == '\r'
    ensures Unescape(LineEnds(t)) == LineEnds(Unescape(t))
    decreases |t|, 0
  {
    var rest := t[if |t| > 1 && t[1] == '\n' then 2 else 1..];
    UnescapeLineEnds(rest);
    UnescapePlain(['\n'], LineEnds(rest));
    ReturnDecoded(t, rest);
  }

  lemma ReturnDecoded(t: Bytes, rest: Bytes)
    requires t != [] && t[0] == '\r' && rest == t[if |t| > 1 && t[1] == '\n' then 2 else 1..]
    ensures LineEnds(Unescape(t)) == ['\n'] + LineEnds(Unescape(rest))
  {
    FirstSymbol(t);
    var u := Unescape(t);
    assert u[1..] == Unescape(t[1..]);
    if |t| > 1 {
      FirstSymbol(t[1..]);
      assert u[1] == Symbol(t[1..]).0;
      if t[1] == '\n' {
        assert t[1..][1..] == t[2..];
        assert u[1..][1..] == u[2..];
      }
    }
  }

  lemma SolidInBlanks(e: Bytes, t: Bytes)
    requires Solid(e)
    ensures e <= Blanks(t) <==> e <= t
  {
    if e <= Blanks(t) {
      forall k | 0 <= k < |e| ensures e[k] == t[k] {
        assert e[k] == Blanks(t)[k];
      }
    }
  }

  lemma SymbolOfBlanks(t: Bytes)
    requires t != []
    ensures Symbol(Blanks(t)) == (Blank(Symbol(t).0), Symbol(t).1)
  {
    EntitiesAreSolid();
    SolidInBlanks(LT, t);
    SolidInBlanks(AMP, t);
    SolidInBlanks(GT, t);
    SolidInBlanks(QUOT, t);
  }

  lemma {:induction false} UnescapeBlanks(t: Bytes)
    ensures Unescape(Blanks(t)) == Blanks(Unescape(t))
    decreases |t|
  {
    if t != [] {
      var (c, n) := Symbol(t);
      SymbolOfBlanks(t);
      UnescapeBlanks(t[n..]);
      assert Blanks(t)[n..] == Blanks(t[n..]);
    }
  }

  lemma UnescapeAttValue(t: Bytes)
    ensures Unescape(AttValue(t)) == AttValue(Unescape(t))
  {
    UnescapeBlanks(LineEnds(t));
    UnescapeLineEnds(t);
  }

  // ---------------------------------------------------------------------------------------
  // What comes back unchanged
  // ---------------------------------------------------------------------------------------

  lemma {:induction false} NoReturnLeft(t: Bytes)
    ensures '\r' !in LineEnds(t)
    ensures '\r' !in t ==> LineEnds(t) == t
    decreases |t|
  {
    if t != [] {
      NoReturnLeft(t[1..]);
      if t[0] == '\r' {
        NoReturnLeft(t[if |t| > 1 && t[1] == '\n' then 2 else 1..]);
      } else {
        assert [t[0]] + t[1..] == t;
      }
    }
  }

  lemma LineEndsUnchanged(t: Bytes)
    ensures LineEnds(t) == t <==> '\r' !in t
  {
    NoReturnLeft(t);
  }

  predicate NoBreaks(t: Bytes) {
    '\t' !in t && '\n' !in t && '\r' !in t
  }

  lemma AttValueUnchanged(t: Bytes)
    ensures AttValue(t) == t <==> NoBreaks(t)
  {
    var u := LineEnds(t);
    forall c | c in Blanks(u) ensures c != '\t' && c != '\n' && c != '\r' {}
    NoReturnLeft(t);
    if NoBreaks(t) {
      forall k | 0 <= k < |u| ensures Blanks(u)[k] == u[k] {
        assert u[k] in u;
      }
      assert Blanks(u) == u;
    }
  }

  /** White space is never rejected, and hex escapes hold none. */
  lemma {:induction false} ScrubbedKeepsBreaks(s: Bytes, k: nat, c: Byte)
    requires k <= |s| && (c == '\t' || c == '\n' || c == '\r')
    ensures c in Scrubbed(s, k) <==> c in s[k..]
    decreases |s| - k
  {
    if k < |s| {
      ScrubbedKeepsBreaks(s, k + 1, c);
      assert s[k..] == [s[k]] + s[k + 1..];
      assert c !in HexEscape(s[k]);
    }
  }

  /**
   * A reader decodes the attribute to the scrubbed text exactly if the text holds no tab, line
   * feed or carriage return.
   */
  lemma AttributeComesBack(s: Bytes)
    ensures Unescape(AttValue(Encoded(s, ForAttributes))) == AttValue(Scrubbed(s, 0))
    ensures Unescape(AttValue(Encoded(s, ForAttributes))) == Scrubbed(s, 0) <==> NoBreaks(s)
  {
    UnescapeAttValue(Encoded(s, ForAttributes));
    DecodesToScrubbed(s, ForAttributes);
    AttValueUnchanged(Scrubbed(s, 0));
    BreaksOfScrubbed(s);
  }

  lemma BreaksOfScrubbed(s: Bytes)
    ensures NoBreaks(Scrubbed(s, 0)) <==> NoBreaks(s)
    ensures '\r' in Scrubbed(s, 0) <==> '\r' in s
  {
    assert s[0..] == s;
    ScrubbedKeepsBreaks(s, 0, '\t');
    ScrubbedKeepsBreaks(s, 0, '\n');
    ScrubbedKeepsBreaks(s, 0, '\r');
  }

  /** Character data comes back exactly if it holds no carriage return. */
  lemma TextComesBack(s: Bytes)
    ensures Unescape(LineEnds(Encoded(s, ForTextNodes))) == LineEnds(Scrubbed(s, 0))
    ensures Unescape(LineEnds(Encoded(s, ForTextNodes))) == Scrubbed(s, 0) <==> '\r' !in s
  {
    UnescapeLineEnds(Encoded(s, ForTextNodes));
    DecodesToScrubbed(s, ForTextNodes);
    LineEndsUnchanged(Scrubbed(s, 0));
    BreaksOfScrubbed(s);
  }

  /** A tab in an attribute is read as a space. */
  lemma TabBecomesSpace()
    ensures Unescape(AttValue(Encoded("\t", ForAttributes))) == " "
  {
    var s: Bytes := "\t";
    assert Cut(s, 0, ForAttributes) == Raw(s) && EncodedFrom(s, 1, ForAttributes) == [];
    assert Encoded(s, ForAttributes) == s;
    assert s[1..] == [] && LineEnds(s) == s && Blanks(s) == " ";
    UnescapePlain(" ", []);
  }

  /** A carriage return in a text is read as a line feed. */
  lemma ReturnBecomesLineFeed()
    ensures Unescape(LineEnds(Encoded("\r", ForTextNodes))) == "\n"
  {
    var s: Bytes := "\r";
    assert Cut(s, 0, ForTextNodes) == Raw(s) && EncodedFrom(s, 1, ForTextNodes) == [];
    assert Encoded(s, ForTextNodes) == s;
    assert s[1..] == [] && LineEnds(s) == "\n";
    UnescapePlain("\n", []);
  }
}
