/**
 * Which bytes an XML reader takes at all: the file has to be UTF-8 (section 3 of RFC 3629), and
 * every character one of those of section 2.2 of XML 1.0. The encoder lets a few others pass.
 */
module XmlChars {
  import opened Common
  import opened XmlEncode
  import opened XmlDecode
  import opened Utf8

  /** `Char` in section 2.2 of XML 1.0. */
  predicate XmlChar(cp: CodePoint) {
    || cp == 0x9 || cp == 0xA || cp == 0xD
    || 0x20 <= cp <= 0xD7FF || 0xE000 <= cp <= 0xFFFD || 0x10000 <= cp
  }

  ghost predicate StartsWith(t: Bytes, cp: CodePoint) {
    XmlChar(cp) && Form(cp) <= t
  }

  /** `t` is a text of XML characters in UTF-8. */
  ghost predicate Chars(t: Bytes)
    decreases |t|
  {
    t == [] || exists cp: CodePoint :: StartsWith(t, cp) && Chars(t[|Form(cp)|..])
  }

  // ---------------------------------------------------------------------------------------
  // Reading one character
  // ---------------------------------------------------------------------------------------

  /** The value of a multi-byte group is a character, and in its shortest form. */
  predicate LegalGroup(value: nat, n: nat) {
    value < 0x110000 && XmlChar(value) && !(value == 0x800 && n == 4)
  }

  lemma CharAtStart(t: Bytes, cp: CodePoint)
    requires Form(cp) <= t
    ensures t != [] && (cp < 0x80 <==> t[0] as int < 0x80)
    ensures cp < 0x80 ==> t[0] as int == cp && Form(cp) == [t[0]]
    ensures cp >= 0x80 ==> StartsGroup(t, 0) && TrailingBytes(t[0]) == |Form(cp)| && GroupValue(t, 0, |Form(cp)|) == cp
  {
    assert t[0..] == t && t[0] == Form(cp)[0];
    if cp >= 0x80 {
      Utf8IsGroup(t, 0, cp);
    }
  }

  lemma CharsAscii(c: Byte, rest: Bytes)
    requires c as int < 0x80
    ensures Chars([c] + rest) <==> XmlChar(c as int) && Chars(rest)
  {
    var t := [c] + rest;
    var own: CodePoint := c as int;
    assert Form(own) == [c] && t[1..] == rest && [c] <= t;
    if XmlChar(own) && Chars(rest) {
      assert StartsWith(t, own);
    }
    if Chars(t) {
      var cp: CodePoint :| StartsWith(t, cp) && Chars(t[|Form(cp)|..]);
      CharAtStart(t, cp);
    }
  }

  lemma OverlongValue()
    ensures GroupValue(OVERLONG, 0, 4) == 0x800
  {
    assert OVERLONG[0..] == OVERLONG;
    OverlongIsGroup(OVERLONG, 0);
    GroupValues(OVERLONG, 0);
  }

  /** A group is read as the character whose UTF-8 form it is. */
  lemma GroupIsChar(u: Bytes, rest: Bytes, cp: CodePoint)
    requires u != [] && StartsGroup(u, 0) && TrailingBytes(u[0]) == |u| && Form(cp) <= u + rest
    ensures Form(cp) == u && GroupValue(u, 0, |u|) == cp && !(cp == 0x800 && |u| == 4)
  {
    var t := u + rest;
    assert t[0] == u[0];
    CharAtStart(t, cp);
    assert t[..|u|] == u && Form(cp) == t[..|u|];
    assert u[0..] == u;
    Utf8IsGroup(u, 0, cp);
  }

  lemma LegalGroupIsForm(u: Bytes)
    requires u != [] && StartsGroup(u, 0) && TrailingBytes(u[0]) == |u|
    requires LegalGroup(GroupValue(u, 0, |u|), |u|)
    ensures Form(GroupValue(u, 0, |u|)) == u
  {
    GroupIsUtf8(u, 0);
    assert u[0..|u|] == u && |OVERLONG| == 4;
  }

  lemma CharsGroup(u: Bytes, rest: Bytes)
    requires u != [] && StartsGroup(u, 0) && TrailingBytes(u[0]) == |u|
    ensures Chars(u + rest) <==> LegalGroup(GroupValue(u, 0, |u|), |u|) && Chars(rest)
  {
    var t, v := u + rest, GroupValue(u, 0, |u|);
    assert t[|u|..] == rest;
    if Chars(t) {
      var cp: CodePoint :| StartsWith(t, cp) && Chars(t[|Form(cp)|..]);
      GroupIsChar(u, rest, cp);
    }
    if LegalGroup(v, |u|) && Chars(rest) {
      LegalGroupIsForm(u);
      assert StartsWith(t, v);
    }
  }

  // ---------------------------------------------------------------------------------------
  // What the encoder's output is worth
  // ---------------------------------------------------------------------------------------

  /** Byte `k` does no harm: it is no vertical tab or form feed and begins no illegal group. */
  predicate PrintableAt(s: Bytes, k: nat)
    requires k < |s|
  {
    && s[k] as int != 0x0B && s[k] as int != 0x0C
    && (StartsGroup(s, k) ==> LegalGroup(GroupValue(s, k, TrailingBytes(s[k])), TrailingBytes(s[k])))
  }

  ghost predicate PrintableFrom(s: Bytes, k: nat) {
    forall j: nat :: k <= j < |s| ==> PrintableAt(s, j)
  }

  /** Texts that are still XML characters after the encoder has been over them. */
  ghost predicate Printable(s: Bytes) {
    PrintableFrom(s, 0)
  }

  /** Whatever follows `t`, a reader gets over `t` exactly if `legal`. */
  ghost predicate Transparent(t: Bytes, legal: bool) {
    forall after: Bytes :: Chars(t + after) <==> legal && Chars(after)
  }

  lemma TransparentJoins(a: Bytes, b: Bytes, la: bool, lb: bool)
    requires Transparent(a, la) && Transparent(b, lb)
    ensures Transparent(a + b, la && lb)
  {
    forall after: Bytes ensures Chars((a + b) + after) <==> la && lb && Chars(after) {
      Assoc(a, b, after);
    }
  }

  lemma TransparentMeans(t: Bytes, legal: bool)
    requires Transparent(t, legal)
    ensures Chars(t) <==> legal
  {
    assert t + [] == t;
  }

  predicate Ascii(t: Bytes) {
    forall k :: 0 <= k < |t| ==> t[k] as int < 0x80 && XmlChar(t[k] as int)
  }

  lemma {:induction false} AsciiIsTransparent(t: Bytes)
    requires Ascii(t)
    ensures Transparent(t, true)
    decreases |t|
  {
    if t == [] {
      forall after: Bytes ensures t + after == after {}
    } else {
      AsciiIsTransparent(t[1..]);
      forall after: Bytes ensures Chars([t[0]] + after) <==> true && Chars(after) {
        CharsAscii(t[0], after);
      }
      TransparentJoins([t[0]], t[1..], true, true);
      assert [t[0]] + t[1..] == t;
    }
  }

  lemma WrittenAscii(p: Piece)
    requires p.Hex? || (p.Entity? && p.c in {'<', '&', '>', '\"'})
    ensures Ascii(Write(p))
  {
  }

  lemma GroupIsPrintable(s: Bytes, k: nat)
    requires k < |s| && StartsGroup(s, k)
    ensures PrintableFrom(s, k) <==> PrintableAt(s, k) && PrintableFrom(s, k + TrailingBytes(s[k]))
  {
    var n := TrailingBytes(s[k]);
    forall j: nat | k < j < k + n ensures PrintableAt(s, j) {
      assert IsContinuation(s[j]);
    }
  }

  lemma ByteIsPrintable(s: Bytes, k: nat)
    requires k < |s|
    ensures PrintableFrom(s, k) <==> PrintableAt(s, k) && PrintableFrom(s, k + 1)
  {
    if PrintableAt(s, k) && PrintableFrom(s, k + 1) {
      forall j: nat | k <= j < |s| ensures PrintableAt(s, j) {
        assert j == k || k + 1 <= j;
      }
    }
  }

  /** What a round does with a byte that begins no group. */
  lemma ByteIsWritten(s: Bytes, k: nat, forWhat: ForWhat)
    requires k < |s| && !StartsGroup(s, k)
    ensures var p := Cut(s, k, forWhat);
            && Width(p) == 1
            && (if p.Raw? then p == Raw([s[k]]) && s[k] as int < 0x7F && !IsControl(s[k])
                else PrintableAt(s, k) && (p.Hex? || (p.Entity? && p.c in {'<', '&', '>', '\"'})))
  {
  }

  lemma RawIsTransparent(s: Bytes, k: nat)
    requires k < |s| && s[k] as int < 0x7F && !IsControl(s[k])
    ensures Transparent([s[k]], PrintableAt(s, k))
  {
    forall after: Bytes ensures Chars([s[k]] + after) <==> PrintableAt(s, k) && Chars(after) {
      CharsAscii(s[k], after);
    }
  }

  /** A round of the encoder writes something a reader gets over unless its bytes are harmful. */
  lemma RoundIsTransparent(s: Bytes, k: nat, forWhat: ForWhat)
    requires k < |s|
    ensures Transparent(Write(Cut(s, k, forWhat)), PrintableAt(s, k))
    ensures PrintableFrom(s, k) <==> PrintableAt(s, k) && PrintableFrom(s, k + Width(Cut(s, k, forWhat)))
  {
    var p := Cut(s, k, forWhat);
    if StartsGroup(s, k) {
      GroupIsPrintable(s, k);
      GroupIsTransparent(s, k);
    } else {
      ByteIsPrintable(s, k);
      ByteIsWritten(s, k, forWhat);
      if p.Raw? {
        RawIsTransparent(s, k);
      } else {
        WrittenAscii(p);
        AsciiIsTransparent(Write(p));
      }
    }
  }

  lemma GroupIsTransparent(s: Bytes, k: nat)
    requires k < |s| && StartsGroup(s, k)
    ensures Transparent(s[k..k + TrailingBytes(s[k])], PrintableAt(s, k))
  {
    var n := TrailingBytes(s[k]);
    var u := s[k..k + n];
    SameGroup(s, k, u);
    forall after: Bytes ensures Chars(u + after) <==> PrintableAt(s, k) && Chars(after) {
      CharsGroup(u, after);
    }
  }

  lemma SameGroup(s: Bytes, k: nat, u: Bytes)
    requires k < |s| && StartsGroup(s, k) && u == s[k..k + TrailingBytes(s[k])]
    ensures u != [] && StartsGroup(u, 0) && TrailingBytes(u[0]) == |u| && GroupValue(u, 0, |u|) == GroupValue(s, k, |u|)
  {
    SameValue(s, k, u, |u|);
    forall j | 0 < j < |u| ensures IsContinuation(u[j]) {
      assert u[j] == s[k + j];
    }
  }

  lemma {:induction false} SameValue(s: Bytes, k: nat, u: Bytes, n: nat)
    requires 1 <= n <= |u| && k + |u| <= |s| && u == s[k..k + |u|] && IsLead(s[k])
    ensures GroupValue(u, 0, n) == GroupValue(s, k, n)
    decreases n
  {
    if n > 1 {
      SameValue(s, k, u, n - 1);
    }
  }

  ghost predicate EncodedLegally(s: Bytes, k: nat, t: Bytes) {
    k <= |s| ==> Transparent(t, PrintableFrom(s, k))
  }

  lemma LegallyBack(s: Bytes, k: nat, forWhat: ForWhat, rest: Bytes)
    requires k < |s| && EncodedLegally(s, k + Width(Cut(s, k, forWhat)), rest)
    ensures EncodedLegally(s, k, Write(Cut(s, k, forWhat)) + rest)
  {
    RoundIsTransparent(s, k, forWhat);
    TransparentJoins(Write(Cut(s, k, forWhat)), rest, PrintableAt(s, k), PrintableFrom(s, k + Width(Cut(s, k, forWhat))));
  }

  /**
   * The output of the encoder consists of XML characters, whatever stands behind it, exactly if
   * the text holds no vertical tab, no form feed, and no group whose value is a surrogate,
   * U+FFFE or U+FFFF, or that is 0x800 in four bytes.
   */
  lemma LegalIffPrintable(s: Bytes, forWhat: ForWhat)
    ensures Transparent(Encoded(s, forWhat), Printable(s))
  {
    var P := (k: nat, t: Bytes) => EncodedLegally(s, k, t);
    forall k: nat, rest: Bytes | k < |s| ensures GoesBack(s, forWhat, P, k, rest) {
      if P(k + Width(Cut(s, k, forWhat)), rest) {
        LegallyBack(s, k, forWhat, rest);
      }
    }
    AsciiIsTransparent([]);
    OverEncoded(s, 0, forWhat, P);
    assert P(0, Encoded(s, forWhat));
  }

  /** Spelled out by values: what `LegalGroup` forbids. */
  lemma IllegalGroups(s: Bytes, k: nat)
    requires k < |s| && StartsGroup(s, k)
    ensures var n := TrailingBytes(s[k]); var v := GroupValue(s, k, n);
            !LegalGroup(v, n) <==> 0xD800 <= v < 0xE000 || v == 0xFFFE || v == 0xFFFF || s[k..k + n] == OVERLONG
  {
    var n := TrailingBytes(s[k]);
    GroupIsUtf8(s, k);
    if s[k..k + n] == OVERLONG {
      SameGroup(s, k, OVERLONG);
      OverlongValue();
    }
  }

  // ---------------------------------------------------------------------------------------
  // Inputs that are let through
  // ---------------------------------------------------------------------------------------

  /** A vertical tab is written as it is, and no XML reader takes the result. */
  lemma VerticalTabPasses(forWhat: ForWhat)
    ensures var s: Bytes := [0x0B as char]; Encoded(s, forWhat) == s && !Chars(s)
  {
    var s: Bytes := [0x0B as char];
    assert Cut(s, 0, forWhat) == Raw(s) && EncodedFrom(s, 1, forWhat) == [];
    CharsAscii(s[0], []);
    assert [s[0]] + [] == s;
  }

  lemma GroupIsCopied(u: Bytes, forWhat: ForWhat)
    requires u != [] && StartsGroup(u, 0) && TrailingBytes(u[0]) == |u|
    ensures Encoded(u, forWhat) == u
  {
    var p := Cut(u, 0, forWhat);
    assert u[0..|u|] == u;
    assert p == Raw(u) && EncodedFrom(u, |u|, forWhat) == [];
  }

  /** So is a group the encoder takes for a character and XML does not. */
  lemma IllegalGroupPasses(u: Bytes, forWhat: ForWhat)
    requires u != [] && StartsGroup(u, 0) && TrailingBytes(u[0]) == |u| && !LegalGroup(GroupValue(u, 0, |u|), |u|)
    ensures Encoded(u, forWhat) == u && !Chars(u)
  {
    GroupIsCopied(u, forWhat);
    CharsGroup(u, []);
    assert u + [] == u;
  }

  /** The first surrogate, and 0x800 in four bytes. */
  lemma SurrogateAndOverlongPass(forWhat: ForWhat)
    ensures Encoded(Form(0xD800), forWhat) == Form(0xD800) && !Chars(Form(0xD800))
    ensures Encoded(OVERLONG, forWhat) == OVERLONG && !Chars(OVERLONG)
  {
    var u := Form(0xD800);
    assert u[0..] == u;
    Utf8IsGroup(u, 0, 0xD800);
    IllegalGroupPasses(u, forWhat);
    assert OVERLONG[0..] == OVERLONG;
    OverlongIsGroup(OVERLONG, 0);
    OverlongValue();
    IllegalGroupPasses(OVERLONG, forWhat);
  }
}
