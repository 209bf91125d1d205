/**
 * Which text the encoder leaves alone: exactly the text made of UTF-8 units (section 3 of
 * RFC 3629) that are not control characters, surrogates and one overlong form included.
 */
module Utf8 {
  import opened Common
  import opened XmlEncode
  import opened XmlDecode

  type CodePoint = cp: nat | cp < 0x110000

  function Tail(v: nat): (r: Byte) {
    (0x80 + v % 64) as char
  }

  /** The encoding of section 3 of RFC 3629, applied to surrogates as well. */
  function Form(cp: CodePoint): (u: Bytes)
    ensures 1 <= |u| <= 4
  {
    if cp < 0x80 then [cp as char]
    else if cp < 0x800 then [(0xC0 + cp / 64) as char, Tail(cp)]
    else if cp < 0x10000 then [(0xE0 + cp / 64 / 64) as char, Tail(cp / 64), Tail(cp)]
    else [(0xF0 + cp / 64 / 64 / 64) as char, Tail(cp / 64 / 64), Tail(cp / 64), Tail(cp)]
  }

  /** 0x800 in four bytes: the range test of the source is `0x800 < value`, not `<=`. */
  const OVERLONG: Bytes := [0xF0 as char, 0x80 as char, 0xA0 as char, 0x80 as char]

  predicate At(s: Bytes, idx: nat, u: Bytes) {
    idx <= |s| && u <= s[idx..]
  }

  lemma AtMeans(s: Bytes, idx: nat, u: Bytes)
    ensures At(s, idx, u) <==> idx + |u| <= |s| && forall k :: 0 <= k < |u| ==> s[idx + k] == u[k]
  {
    if idx + |u| <= |s| {
      forall k | 0 <= k < |u| ensures s[idx..][k] == s[idx + k] {}
    }
  }

  // ---------------------------------------------------------------------------------------
  // Groups are UTF-8
  // ---------------------------------------------------------------------------------------

  function Low(c: Byte): (r: nat)
    requires IsContinuation(c)
  {
    c as int - 0x80
  }

  lemma Digits(h: nat, l: nat)
    requires l < 64
    ensures (h * 64 + l) / 64 == h && (h * 64 + l) % 64 == l
  {
  }

  lemma TwoBytes(c: Byte, x: Byte, v: nat)
    requires 0xC0 <= c as int < 0xE0 && IsContinuation(x)
    requires v == HeaderValue(c) * 64 + Low(x) && v >= 0x80
    ensures v < 0x800 && Form(v) == [c, x]
  {
    Digits(HeaderValue(c), Low(x));
  }

  lemma ThreeBytes(c: Byte, x: Byte, y: Byte, v: nat)
    requires 0xE0 <= c as int < 0xF0 && IsContinuation(x) && IsContinuation(y)
    requires v == (HeaderValue(c) * 64 + Low(x)) * 64 + Low(y) && v >= 0x800
    ensures v < 0x10000 && Form(v) == [c, x, y]
  {
    Digits(HeaderValue(c), Low(x));
    Digits(HeaderValue(c) * 64 + Low(x), Low(y));
  }

  lemma FourBytes(c: Byte, x: Byte, y: Byte, z: Byte, v: nat)
    requires 0xF0 <= c as int < 0xF8 && IsContinuation(x) && IsContinuation(y) && IsContinuation(z)
    requires v == Four(HeaderValue(c), x, y, z)
    requires v < 0x110000
    ensures v >= 0x10000 ==> Form(v) == [c, x, y, z]
    ensures v == 0x800 ==> OVERLONG == [c, x, y, z]
  {
    Digits(HeaderValue(c), Low(x));
    Digits(HeaderValue(c) * 64 + Low(x), Low(y));
    Digits((HeaderValue(c) * 64 + Low(x)) * 64 + Low(y), Low(z));
  }

  function Four(h: nat, x: Byte, y: Byte, z: Byte): (r: nat)
    requires IsContinuation(x) && IsContinuation(y) && IsContinuation(z)
  {
    ((h * 64 + Low(x)) * 64 + Low(y)) * 64 + Low(z)
  }

  /** `GroupValue` without its recursion. */
  lemma GroupValues(s: Bytes, idx: nat)
    requires idx < |s| && IsLead(s[idx]) && idx + TrailingBytes(s[idx]) <= |s|
    requires forall k :: idx < k < idx + TrailingBytes(s[idx]) ==> IsContinuation(s[k])
    ensures TrailingBytes(s[idx]) == 2 ==>
              GroupValue(s, idx, 2) == HeaderValue(s[idx]) * 64 + Low(s[idx + 1])
    ensures TrailingBytes(s[idx]) == 3 ==>
              GroupValue(s, idx, 3) == (HeaderValue(s[idx]) * 64 + Low(s[idx + 1])) * 64 + Low(s[idx + 2])
    ensures TrailingBytes(s[idx]) == 4 ==>
              GroupValue(s, idx, 4) == Four(HeaderValue(s[idx]), s[idx + 1], s[idx + 2], s[idx + 3])
  {
    var n := TrailingBytes(s[idx]);
    assert GroupValue(s, idx, 2) == GroupValue(s, idx, 1) * 64 + Low(s[idx + 1]);
    if n >= 3 {
      assert GroupValue(s, idx, 3) == GroupValue(s, idx, 2) * 64 + Low(s[idx + 2]);
    }
    if n == 4 {
      assert GroupValue(s, idx, 4) == GroupValue(s, idx, 3) * 64 + Low(s[idx + 3]);
    }
  }

  /** A group in the only form the text below allows at its value. */
  ghost predicate ShortestForm(u: Bytes, v: nat) {
    0x80 <= v < 0x110000 && (u == Form(v) || (v == 0x800 && u == OVERLONG))
  }

  lemma Slices(s: Bytes, idx: nat)
    ensures idx + 2 <= |s| ==> s[idx..idx + 2] == [s[idx], s[idx + 1]]
    ensures idx + 3 <= |s| ==> s[idx..idx + 3] == [s[idx], s[idx + 1], s[idx + 2]]
    ensures idx + 4 <= |s| ==> s[idx..idx + 4] == [s[idx], s[idx + 1], s[idx + 2], s[idx + 3]]
  {
  }

  lemma TwoByteGroup(s: Bytes, idx: nat)
    requires idx < |s| && StartsGroup(s, idx) && TrailingBytes(s[idx]) == 2
    ensures ShortestForm(s[idx..idx + 2], GroupValue(s, idx, 2))
  {
    GroupValues(s, idx);
    Slices(s, idx);
    TwoBytes(s[idx], s[idx + 1], GroupValue(s, idx, 2));
  }

  lemma ThreeByteGroup(s: Bytes, idx: nat)
    requires idx < |s| && StartsGroup(s, idx) && TrailingBytes(s[idx]) == 3
    ensures ShortestForm(s[idx..idx + 3], GroupValue(s, idx, 3))
  {
    GroupValues(s, idx);
    Slices(s, idx);
    ThreeBytes(s[idx], s[idx + 1], s[idx + 2], GroupValue(s, idx, 3));
  }

  lemma FourByteGroup(s: Bytes, idx: nat)
    requires idx < |s| && StartsGroup(s, idx) && TrailingBytes(s[idx]) == 4
    ensures ShortestForm(s[idx..idx + 4], GroupValue(s, idx, 4))
  {
    var v := GroupValue(s, idx, 4);
    GroupValues(s, idx);
    Slices(s, idx);
    assert v == 0x800 || v >= 0x10000;
    FourBytes(s[idx], s[idx + 1], s[idx + 2], s[idx + 3], v);
  }

  /**
   * Every group the encoder passes on is the UTF-8 form of its value, which is below
   * 0x110000, or 0x800 in four bytes.
   */
  lemma GroupIsUtf8(s: Bytes, idx: nat)
    requires idx < |s| && StartsGroup(s, idx)
    ensures var n := TrailingBytes(s[idx]); ShortestForm(s[idx..idx + n], GroupValue(s, idx, n))
  {
    if TrailingBytes(s[idx]) == 4 {
      FourByteGroup(s, idx);
    } else if TrailingBytes(s[idx]) == 3 {
      ThreeByteGroup(s, idx);
    } else {
      TwoByteGroup(s, idx);
    }
  }

  lemma Recomposes2(cp: CodePoint)
    requires 0x80 <= cp < 0x800
    ensures var u := Form(cp); |u| == 2 && IsLead(u[0]) && IsContinuation(u[1])
    ensures var u := Form(cp); cp == HeaderValue(u[0]) * 64 + Low(u[1])
  {
  }

  lemma Recomposes3(cp: CodePoint)
    requires 0x800 <= cp < 0x10000
    ensures var u := Form(cp); |u| == 3 && IsLead(u[0]) && IsContinuation(u[1]) && IsContinuation(u[2])
    ensures var u := Form(cp); cp == (HeaderValue(u[0]) * 64 + Low(u[1])) * 64 + Low(u[2])
  {
  }

  lemma Recomposes4(cp: CodePoint)
    requires cp >= 0x10000
    ensures var u := Form(cp); |u| == 4 && IsLead(u[0])
    ensures var u := Form(cp); IsContinuation(u[1]) && IsContinuation(u[2]) && IsContinuation(u[3])
    ensures var u := Form(cp); cp == Four(HeaderValue(u[0]), u[1], u[2], u[3])
  {
  }

  lemma Utf8Bytes(cp: CodePoint)
    requires cp >= 0x80
    ensures var u := Form(cp); IsLead(u[0]) && |u| == TrailingBytes(u[0])
    ensures forall k :: 1 <= k < |Form(cp)| ==> IsContinuation(Form(cp)[k])
  {
  }

  lemma Utf8Value(s: Bytes, idx: nat, cp: CodePoint)
    requires cp >= 0x80 && At(s, idx, Form(cp))
    ensures idx < |s| && IsLead(s[idx]) && TrailingBytes(s[idx]) == |Form(cp)|
    ensures forall k :: idx < k < idx + |Form(cp)| ==> k < |s| && IsContinuation(s[k])
  {
    var u := Form(cp);
    Utf8Bytes(cp);
    AtMeans(s, idx, u);
    assert s[idx + 0] == u[0];
    forall k | idx < k < idx + |u| ensures k < |s| && IsContinuation(s[k]) {
      assert s[idx + (k - idx)] == u[k - idx];
    }
  }

  lemma Utf8IsGroup(s: Bytes, idx: nat, cp: CodePoint)
    requires cp >= 0x80 && At(s, idx, Form(cp))
    ensures idx < |s| && StartsGroup(s, idx) && TrailingBytes(s[idx]) == |Form(cp)|
    ensures GroupValue(s, idx, |Form(cp)|) == cp
  {
    Utf8Value(s, idx, cp);
    Utf8Bytes(cp);
    if cp < 0x800 {
      Recomposes2(cp);
    } else if cp < 0x10000 {
      Recomposes3(cp);
    } else {
      Recomposes4(cp);
    }
    CopyOfUtf8(s, idx, cp, Form(cp));
  }

  lemma CopyOfUtf8(s: Bytes, idx: nat, cp: CodePoint, u: Bytes)
    requires At(s, idx, u) && 2 <= |u| <= 4 && IsLead(u[0]) && |u| == TrailingBytes(u[0])
    requires forall k :: 1 <= k < |u| ==> IsContinuation(u[k])
    requires |u| == 2 ==> cp == HeaderValue(u[0]) * 64 + Low(u[1])
    requires |u| == 3 ==> cp == (HeaderValue(u[0]) * 64 + Low(u[1])) * 64 + Low(u[2])
    requires |u| == 4 ==> cp == Four(HeaderValue(u[0]), u[1], u[2], u[3])
    ensures idx + |u| <= |s| && IsLead(s[idx]) && GroupValue(s, idx, |u|) == cp
  {
    AtMeans(s, idx, u);
    forall k | idx < k < idx + |u| ensures IsContinuation(s[k]) {
      assert s[idx + (k - idx)] == u[k - idx];
    }
    assert s[idx + 0] == u[0] && s[idx + 1] == u[1];
    assert |u| > 2 ==> s[idx + 2] == u[2];
    assert |u| > 3 ==> s[idx + 3] == u[3];
    GroupValues(s, idx);
  }

  lemma OverlongIsGroup(s: Bytes, idx: nat)
    requires At(s, idx, OVERLONG)
    ensures idx < |s| && StartsGroup(s, idx) && TrailingBytes(s[idx]) == 4
  {
    AtMeans(s, idx, OVERLONG);
    assert s[idx + 0] == OVERLONG[0] && s[idx + 1] == OVERLONG[1];
    assert s[idx + 2] == OVERLONG[2] && s[idx + 3] == OVERLONG[3];
    GroupValues(s, idx);
  }

  // ---------------------------------------------------------------------------------------
  // Text the encoder leaves alone
  // ---------------------------------------------------------------------------------------

  /** No control character, the white space from tab to carriage return aside. */
  predicate PlainCodePoint(cp: CodePoint) {
    0x9 <= cp <= 0xD || 0x20 <= cp < 0x7F || 0x80 <= cp
  }

  ghost predicate Unit(u: Bytes) {
    u == OVERLONG || exists cp: CodePoint :: PlainCodePoint(cp) && u == Form(cp)
  }

  ghost predicate UnitAt(s: Bytes, k: nat, n: nat) {
    1 <= n && k + n <= |s| && Unit(s[k..k + n])
  }

  /** From `k` on, `s` is a row of units. */
  ghost predicate InUnits(s: Bytes, k: nat)
    requires k <= |s|
    decreases |s| - k
  {
    k == |s| || exists n: nat :: UnitAt(s, k, n) && InUnits(s, k + n)
  }

  ghost predicate AllAccepted(s: Bytes, k: nat) {
    forall j: nat :: k <= j < |s| ==> !Rejected(s, j)
  }

  lemma UnitIsAccepted(s: Bytes, k: nat, n: nat)
    requires UnitAt(s, k, n)
    ensures forall j: nat :: k <= j < k + n ==> !Rejected(s, j)
  {
    var u := s[k..k + n];
    assert u <= s[k..] && u[0] == s[k];
    if u == OVERLONG {
      OverlongIsGroup(s, k);
      GroupIsAccepted(s, k);
    } else {
      var cp: CodePoint :| PlainCodePoint(cp) && u == Form(cp);
      if cp >= 0x80 {
        Utf8IsGroup(s, k, cp);
        GroupIsAccepted(s, k);
      }
    }
  }

  lemma GroupIsAccepted(s: Bytes, g: nat)
    requires g < |s| && StartsGroup(s, g)
    ensures forall j: nat :: g <= j < g + TrailingBytes(s[g]) ==> !Rejected(s, j)
  {
  }

  lemma {:induction false} UnitsAreAccepted(s: Bytes, k: nat)
    requires k <= |s| && InUnits(s, k)
    ensures AllAccepted(s, k)
    decreases |s| - k
  {
    if k < |s| {
      var n: nat :| UnitAt(s, k, n) && InUnits(s, k + n);
      UnitIsAccepted(s, k, n);
      UnitsAreAccepted(s, k + n);
    }
  }

  lemma NextUnit(s: Bytes, k: nat) returns (n: nat)
    requires k < |s| && Boundary(s, k) && !Rejected(s, k)
    ensures UnitAt(s, k, n) && Boundary(s, k + n)
  {
    if StartsGroup(s, k) {
      n := TrailingBytes(s[k]);
      GroupIsUtf8(s, k);
    } else {
      n := 1;
      assert !InGroup(s, k);
      var cp: CodePoint := s[k] as int;
      assert s[k..k + 1] == Form(cp) && PlainCodePoint(cp);
    }
  }

  lemma {:induction false} AcceptedInUnits(s: Bytes, k: nat)
    requires k <= |s| && Boundary(s, k) && AllAccepted(s, k)
    ensures InUnits(s, k)
    decreases |s| - k
  {
    if k < |s| {
      var n := NextUnit(s, k);
      AcceptedInUnits(s, k + n);
    }
  }

  lemma {:induction false} ScrubbedLength(s: Bytes, k: nat)
    requires k <= |s|
    ensures |Scrubbed(s, k)| >= |s| - k
    ensures |Scrubbed(s, k)| == |s| - k ==> AllAccepted(s, k)
    ensures AllAccepted(s, k) ==> Scrubbed(s, k) == s[k..]
    decreases |s| - k
  {
    if k < |s| {
      ScrubbedLength(s, k + 1);
    }
  }

  /**
   * Reading the output back gives the input exactly when the input is a row of UTF-8 units
   * that are not control characters.
   */
  lemma UnchangedIffUnits(s: Bytes, forWhat: ForWhat)
    ensures Unescape(Encoded(s, forWhat)) == s <==> InUnits(s, 0)
  {
    DecodesToScrubbed(s, forWhat);
    ScrubbedLength(s, 0);
    if Scrubbed(s, 0) == s {
      AcceptedInUnits(s, 0);
    }
    if InUnits(s, 0) {
      UnitsAreAccepted(s, 0);
    }
  }

  /** The bytes of a text given as code points. */
  function Text(cps: seq<CodePoint>): (r: Bytes) {
    if cps == [] then [] else Form(cps[0]) + Text(cps[1..])
  }

  lemma {:induction false} TextInUnits(s: Bytes, k: nat, cps: seq<CodePoint>)
    requires k <= |s| && s[k..] == Text(cps) && forall cp :: cp in cps ==> PlainCodePoint(cp)
    ensures InUnits(s, k)
    decreases |cps|
  {
    if cps != [] {
      var u := Form(cps[0]);
      assert s[k..k + |u|] == s[k..][..|u|] == u && UnitAt(s, k, |u|);
      assert s[k + |u|..] == s[k..][|u|..] == Text(cps[1..]);
      TextInUnits(s, k + |u|, cps[1..]);
    }
  }

  /** Round trip for text without control characters. */
  lemma TextSurvives(cps: seq<CodePoint>, forWhat: ForWhat)
    requires forall cp :: cp in cps ==> PlainCodePoint(cp)
    ensures Unescape(Encoded(Text(cps), forWhat)) == Text(cps)
  {
    var s := Text(cps);
    assert s[0..] == s;
    TextInUnits(s, 0, cps);
    UnchangedIffUnits(s, forWhat);
  }
}
