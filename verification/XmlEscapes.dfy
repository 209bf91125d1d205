/**
 * What the encoder's spellings denote: the hex escapes read as numbers, the entities by name. A
 * reader who also decodes the escapes gets every text back that does not hold one itself.
 */
module XmlEscapes {
  import opened Common
  import opened XmlEncode
  import opened XmlDecode

  // ---------------------------------------------------------------------------------------
  // Hex escapes
  // ---------------------------------------------------------------------------------------

  /** The value of an upper-case hexadecimal digit, -1 for other characters. */
  function Val(c: char): (v: int)
    ensures -1 <= v < 16
  {
    if '0' <= c <= '9' then c as int - 48 else if 'A' <= c <= 'F' then c as int - 55 else -1
  }

  /** A backslash, an x and two hexadecimal digits. */
  predicate EscapeAt(t: Bytes, k: nat) {
    k + 4 <= |t| && t[k] == '\\' && t[k + 1] == 'x' && Val(t[k + 2]) >= 0 && Val(t[k + 3]) >= 0
  }

  /** The escape of a byte has its value, the high digit first. */
  lemma HexEscapeDenotes(c: Byte)
    ensures |HexEscape(c)| == 4 && EscapeAt(HexEscape(c), 0)
    ensures 16 * Val(HexEscape(c)[2]) + Val(HexEscape(c)[3]) == c as int
  {
  }

  lemma EscapesDiffer(c: Byte, d: Byte)
    requires HexEscape(c) == HexEscape(d)
    ensures c == d
  {
    HexEscapeDenotes(c);
    HexEscapeDenotes(d);
  }

  /** Decoding the hex escapes. */
  function Unhex(t: Bytes): (r: Bytes) {
    if t == [] then []
    else if EscapeAt(t, 0) then [(16 * Val(t[2]) + Val(t[3])) as char] + Unhex(t[4..])
    else [t[0]] + Unhex(t[1..])
  }

  ghost predicate HoldsEscape(s: Bytes, k: nat) {
    exists j: nat :: k <= j && EscapeAt(s, j)
  }

  lemma UnhexEscape(c: Byte, rest: Bytes)
    ensures Unhex(HexEscape(c) + rest) == [c] + Unhex(rest)
  {
    HexEscapeDenotes(c);
    var t := HexEscape(c) + rest;
    assert t[..4] == HexEscape(c) && t[4..] == rest;
    assert t[0] == '\\' && t[1] == 'x' && t[2] == HexEscape(c)[2] && t[3] == HexEscape(c)[3];
  }

  lemma KeptIsCopied(s: Bytes, k: nat)
    requires k < |s| && !Rejected(s, k)
    ensures Scrubbed(s, k) == [s[k]] + Scrubbed(s, k + 1)
  {
  }

  lemma PlainIsKept(s: Bytes, k: nat)
    requires k < |s| && 0x20 <= s[k] as int < 0x7F
    ensures Scrubbed(s, k) == [s[k]] + Scrubbed(s, k + 1)
  {
  }

  lemma {:induction false} PlainsAreKept(s: Bytes, k: nat, end: nat)
    requires k <= end <= |s| && forall j :: k <= j < end ==> 0x20 <= s[j] as int < 0x7F
    ensures Scrubbed(s, k) == s[k..end] + Scrubbed(s, end)
    decreases end - k
  {
    if k < end {
      PlainIsKept(s, k);
      PlainsAreKept(s, k + 1, end);
      Prepend(s, k, end, Scrubbed(s, end));
    }
  }

  lemma EscapeIsKept(s: Bytes, k: nat)
    requires EscapeAt(s, k)
    ensures Scrubbed(s, k) == s[k..k + 4] + Scrubbed(s, k + 4)
  {
    PlainsAreKept(s, k, k + 4);
  }

  /** After a backslash that is kept, only the text's own characters can make it an escape. */
  lemma EscapeComesFromText(s: Bytes, k: nat)
    requires k < |s| && !Rejected(s, k) && EscapeAt(Scrubbed(s, k), 0)
    ensures EscapeAt(s, k)
  {
    KeptIsCopied(s, k);
    NextIsKept(s, k + 1, Scrubbed(s, k)[1..]);
    NextIsKept(s, k + 2, Scrubbed(s, k)[2..]);
    NextIsKept(s, k + 3, Scrubbed(s, k)[3..]);
  }

  lemma NextIsKept(s: Bytes, k: nat, t: Bytes)
    requires k <= |s| && t == Scrubbed(s, k) && t != [] && t[0] != '\\'
    ensures k < |s| && s[k] == t[0] && t[1..] == Scrubbed(s, k + 1)
  {
  }

  lemma {:induction false} UnhexScrubbed(s: Bytes, k: nat)
    requires k <= |s|
    ensures |Unhex(Scrubbed(s, k))| <= |s| - k
    ensures if HoldsEscape(s, k) then |Unhex(Scrubbed(s, k))| < |s| - k else Unhex(Scrubbed(s, k)) == s[k..]
    decreases |s| - k
  {
    if k == |s| {
      assert !HoldsEscape(s, k);
    } else if EscapeAt(s, k) {
      UnhexScrubbed(s, k + 4);
      EscapeIsKept(s, k);
      UnhexOwnEscape(s, k);
    } else {
      UnhexScrubbed(s, k + 1);
      assert HoldsEscape(s, k) <==> HoldsEscape(s, k + 1);
      UnhexOne(s, k);
      assert s[k..] == [s[k]] + s[k + 1..];
    }
  }

  lemma UnhexOwnEscape(s: Bytes, k: nat)
    requires EscapeAt(s, k)
    ensures |Unhex(Scrubbed(s, k))| == 1 + |Unhex(Scrubbed(s, k + 4))|
  {
    EscapeIsKept(s, k);
    var t := Scrubbed(s, k);
    assert t[..4] == s[k..k + 4] && t[4..] == Scrubbed(s, k + 4);
    assert t[0] == s[k] && t[1] == s[k + 1] && t[2] == s[k + 2] && t[3] == s[k + 3];
  }

  lemma UnhexOne(s: Bytes, k: nat)
    requires k < |s| && !EscapeAt(s, k)
    ensures Unhex(Scrubbed(s, k)) == [s[k]] + Unhex(Scrubbed(s, k + 1))
  {
    if Rejected(s, k) {
      UnhexEscape(s[k], Scrubbed(s, k + 1));
    } else {
      KeptIsCopied(s, k);
      if EscapeAt(Scrubbed(s, k), 0) { EscapeComesFromText(s, k); }
      assert Scrubbed(s, k)[1..] == Scrubbed(s, k + 1);
    }
  }

  /** Entities and escapes decoded, any text comes back exactly if it holds no escape of its own. */
  lemma EveryTextComesBack(s: Bytes, forWhat: ForWhat)
    ensures Unhex(Unescape(Encoded(s, forWhat))) == s <==> !HoldsEscape(s, 0)
  {
    DecodesToScrubbed(s, forWhat);
    UnhexScrubbed(s, 0);
    assert s[0..] == s;
  }

  // ---------------------------------------------------------------------------------------
  // By name
  // ---------------------------------------------------------------------------------------

  lemma OneByte(c: Byte, forWhat: ForWhat)
    requires !StartsGroup([c], 0)
    ensures Encoded([c], forWhat) == Write(Cut([c], 0, forWhat))
  {
    var p := Cut([c], 0, forWhat);
    assert EncodedFrom([c], 1, forWhat) == [] && Write(p) + [] == Write(p);
  }

  /** The entities of section 4.6 of XML 1.0; a quotation mark is left alone in text, and so is a lone `>`. */
  lemma EntitiesByName(forWhat: ForWhat)
    ensures Encoded("<", forWhat) == "&lt;" && Encoded("&", forWhat) == "&amp;" && Encoded(">", forWhat) == ">"
    ensures Encoded("\"", forWhat) == if forWhat == ForAttributes then "&quot;" else "\""
  {
    OneByte('<', forWhat);
    OneByte('&', forWhat);
    OneByte('>', forWhat);
    OneByte('\"', forWhat);
  }

  /** Behind some text the end of a CDATA section is broken up. */
  lemma CdataEndIsBroken(s: Bytes, k: nat, forWhat: ForWhat)
    requires 2 < k < |s| && s[k - 2] == ']' && s[k - 1] == ']' && s[k] == '>'
    ensures EncodedFrom(s, k, forWhat) == "&gt;" + EncodedFrom(s, k + 1, forWhat)
  {
    assert Cut(s, k, forWhat) == Entity('>');
  }

  /** The control characters, by number. */
  lemma ControlsAreSpelled(c: Byte, forWhat: ForWhat)
    ensures c as int < 0x09 || 0x0D < c as int < 0x20 || c as int == 0x7F ==> Encoded([c], forWhat) == HexEscape(c)
    ensures Encoded([1 as char], forWhat) == "\\x01"
  {
    if c as int < 0x80 { OneByte(c, forWhat); }
    OneByte(1 as char, forWhat);
  }
}
