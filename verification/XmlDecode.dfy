/**
 * What a reader of the encoder's output gets: the output holds no markup of its own, and
 * decoding the entities gives the input back, each rejected byte spelled out in hex.
 */
module XmlDecode {
  import opened Common
  import opened XmlEncode

  // ---------------------------------------------------------------------------------------
  // Induction over the rounds of the loop
  // ---------------------------------------------------------------------------------------

  ghost predicate GoesBack(s: Bytes, forWhat: ForWhat, P: (nat, Bytes) -> bool, k: nat, rest: Bytes)
    requires k < |s|
  {
    var p := Cut(s, k, forWhat);
    P(k + Width(p), rest) ==> P(k, Write(p) + rest)
  }

  lemma {:induction false} OverEncoded(s: Bytes, idx: nat, forWhat: ForWhat, P: (nat, Bytes) -> bool)
    requires idx <= |s| && P(|s|, [])
    requires forall k: nat, rest: Bytes :: k < |s| ==> GoesBack(s, forWhat, P, k, rest)
    ensures P(idx, EncodedFrom(s, idx, forWhat))
    decreases |s| - idx
  {
    if idx < |s| {
      var next := idx + Width(Cut(s, idx, forWhat));
      OverEncoded(s, next, forWhat, P);
      assert GoesBack(s, forWhat, P, idx, EncodedFrom(s, next, forWhat));
    }
  }

  // ---------------------------------------------------------------------------------------
  // What a reader gets back
  // ---------------------------------------------------------------------------------------

  /** The character `t` starts with, and the bytes it takes; four of them may be entities. */
  function Symbol(t: Bytes): (cn: (Byte, nat))
    requires t != []
    ensures 1 <= cn.1 <= |t|
  {
    if LT <= t then ('<', 4)
    else if AMP <= t then ('&', 5)
    else if GT <= t then ('>', 4)
    else if QUOT <= t then ('\"', 6)
    else (t[0], 1)
  }

  /** Decoding the four entities. */
  function Unescape(t: Bytes): (r: Bytes) {
    if t == [] then []
    else
      var (c, n) := Symbol(t);
      [c] + Unescape(t[n..])
  }

  lemma {:induction false} UnescapePlain(e: Bytes, rest: Bytes)
    requires '&' !in e
    ensures Unescape(e + rest) == e + Unescape(rest)
    decreases |e|
  {
    if e == [] {
      assert e + rest == rest;
    } else {
      assert e == [e[0]] + e[1..];
      Assoc([e[0]], e[1..], rest);
      UnescapeByte(e[0], e[1..] + rest);
      UnescapePlain(e[1..], rest);
      Assoc([e[0]], e[1..], Unescape(rest));
    }
  }

  lemma UnescapeByte(c: Byte, rest: Bytes)
    requires c != '&'
    ensures Unescape([c] + rest) == [c] + Unescape(rest)
  {
    var t := [c] + rest;
    assert t[0] == c && t[1..] == rest;
    assert Symbol(t) == (c, 1);
  }

  lemma UnescapeEntity(e: Bytes, rest: Bytes)
    requires e in {LT, AMP, GT, QUOT}
    ensures Unescape(e + rest)
         == [if e == LT then '<' else if e == AMP then '&' else if e == GT then '>' else '\"'] + Unescape(rest)
  {
    var t := e + rest;
    assert t[..|e|] == e && t[|e|..] == rest;
    assert t[1] == e[1] && t[2] == e[2];
  }

  /** What a reader should get for a piece. */
  function Keep(p: Piece): (r: Bytes) {
    match p
    case Entity(c) => [c]
    case Hex(c) => HexEscape(c)
    case Raw(bytes) => bytes
  }

  ghost predicate Harmless(p: Piece, forWhat: ForWhat) {
    match p
    case Entity(c) => c in {'<', '&', '>', '\"'}
    case Hex(_) => true
    case Raw(bytes) => '<' !in bytes && '&' !in bytes && (forWhat == ForAttributes ==> '\"' !in bytes)
  }

  predicate AboveAscii(t: Bytes) {
    forall k :: 0 <= k < |t| ==> t[k] as int >= 0x80
  }

  lemma GroupAboveAscii(s: Bytes, idx: nat)
    requires idx < |s| && StartsGroup(s, idx)
    ensures AboveAscii(s[idx..idx + TrailingBytes(s[idx])])
  {
  }

  lemma CutIsHarmless(s: Bytes, idx: nat, forWhat: ForWhat)
    requires idx < |s|
    ensures Harmless(Cut(s, idx, forWhat), forWhat)
  {
    if StartsGroup(s, idx) {
      GroupAboveAscii(s, idx);
    }
  }

  lemma UnescapePiece(p: Piece, forWhat: ForWhat, rest: Bytes)
    requires Harmless(p, forWhat)
    ensures Unescape(Write(p) + rest) == Keep(p) + Unescape(rest)
  {
    if p.Entity? {
      UnescapeEntity(Write(p), rest);
    } else {
      UnescapePlain(Write(p), rest);
    }
  }

  // ---------------------------------------------------------------------------------------
  // Which bytes are rewritten
  // ---------------------------------------------------------------------------------------

  ghost predicate InGroup(s: Bytes, k: nat)
    requires k < |s|
  {
    exists g: nat {:trigger StartsGroup(s, g)} :: g <= k && StartsGroup(s, g) && k < g + TrailingBytes(s[g])
  }

  /** A control character, or a byte above ASCII that belongs to no valid group. */
  ghost predicate Rejected(s: Bytes, k: nat)
    requires k < |s|
  {
    IsControl(s[k]) || (s[k] as int >= 0x80 && !InGroup(s, k))
  }

  /** `s` from `k` on, each byte judged by itself. */
  ghost function Scrubbed(s: Bytes, k: nat): (r: Bytes)
    requires k <= |s|
    decreases |s| - k
  {
    if k == |s| then []
    else (if Rejected(s, k) then HexEscape(s[k]) else [s[k]]) + Scrubbed(s, k + 1)
  }

  /** No group reaches over `idx`. */
  ghost predicate Boundary(s: Bytes, idx: nat) {
    forall g: nat {:trigger StartsGroup(s, g)} :: g < idx && g < |s| && StartsGroup(s, g) ==> g + TrailingBytes(s[g]) <= idx
  }

  lemma GroupByteIsKept(s: Bytes, g: nat, k: nat)
    requires g < |s| && StartsGroup(s, g) && g <= k < g + TrailingBytes(s[g])
    ensures Scrubbed(s, k) == [s[k]] + Scrubbed(s, k + 1)
  {
    assert InGroup(s, k) && !IsControl(s[k]);
  }

  lemma Prepend(s: Bytes, k: nat, end: nat, rest: Bytes)
    requires k < end <= |s|
    ensures [s[k]] + (s[k + 1..end] + rest) == s[k..end] + rest
  {
  }

  lemma {:induction false} GroupIsKept(s: Bytes, g: nat, k: nat, end: nat)
    requires g < |s| && StartsGroup(s, g) && g <= k <= end == g + TrailingBytes(s[g])
    ensures Scrubbed(s, k) == s[k..end] + Scrubbed(s, end)
    decreases end - k
  {
    if k < end {
      GroupByteIsKept(s, g, k);
      GroupIsKept(s, g, k + 1, end);
      Prepend(s, k, end, Scrubbed(s, end));
    }
  }

  lemma BoundaryMovesOn(s: Bytes, idx: nat, forWhat: ForWhat)
    requires idx < |s| && Boundary(s, idx)
    ensures Boundary(s, idx + Width(Cut(s, idx, forWhat)))
  {
  }

  lemma GroupKept(s: Bytes, idx: nat, forWhat: ForWhat)
    requires idx < |s| && StartsGroup(s, idx)
    ensures var p := Cut(s, idx, forWhat);
            Keep(p) + Scrubbed(s, idx + Width(p)) == Scrubbed(s, idx)
  {
    GroupIsKept(s, idx, idx, idx + TrailingBytes(s[idx]));
  }

  lemma ByteKept(s: Bytes, idx: nat, forWhat: ForWhat)
    requires idx < |s| && !StartsGroup(s, idx) && Boundary(s, idx)
    ensures var p := Cut(s, idx, forWhat);
            Width(p) == 1 && Keep(p) == if Rejected(s, idx) then HexEscape(s[idx]) else [s[idx]]
  {
    assert s[idx] as int >= 0x80 ==> !InGroup(s, idx);
  }

  lemma CutKeeps(s: Bytes, idx: nat, forWhat: ForWhat)
    requires idx < |s| && Boundary(s, idx)
    ensures var p := Cut(s, idx, forWhat);
            Keep(p) + Scrubbed(s, idx + Width(p)) == Scrubbed(s, idx)
  {
    if StartsGroup(s, idx) {
      GroupKept(s, idx, forWhat);
    } else {
      ByteKept(s, idx, forWhat);
    }
  }

  ghost predicate DecodesTo(s: Bytes, k: nat, t: Bytes) {
    k <= |s| && Boundary(s, k) ==> Unescape(t) == Scrubbed(s, k)
  }

  lemma DecodesBack(s: Bytes, k: nat, forWhat: ForWhat, rest: Bytes)
    requires k < |s| && DecodesTo(s, k + Width(Cut(s, k, forWhat)), rest)
    ensures DecodesTo(s, k, Write(Cut(s, k, forWhat)) + rest)
  {
    if Boundary(s, k) {
      CutIsHarmless(s, k, forWhat);
      UnescapePiece(Cut(s, k, forWhat), forWhat, rest);
      BoundaryMovesOn(s, k, forWhat);
      CutKeeps(s, k, forWhat);
    }
  }

  /**
   * Decoding the entities in the output gives the input with exactly the rejected bytes
   * written as hex escapes, in both modes.
   */
  lemma DecodesToScrubbed(s: Bytes, forWhat: ForWhat)
    ensures Unescape(Encoded(s, forWhat)) == Scrubbed(s, 0)
  {
    var P := (k: nat, t: Bytes) => DecodesTo(s, k, t);
    forall k: nat, rest: Bytes | k < |s| ensures GoesBack(s, forWhat, P, k, rest) {
      if P(k + Width(Cut(s, k, forWhat)), rest) {
        DecodesBack(s, k, forWhat, rest);
      }
    }
    OverEncoded(s, 0, forWhat, P);
    assert P(0, Encoded(s, forWhat));
  }

  // ---------------------------------------------------------------------------------------
  // No markup in the output
  // ---------------------------------------------------------------------------------------

  predicate EntityAt(t: Bytes, k: nat)
    requires k <= |t|
  {
    LT <= t[k..] || AMP <= t[k..] || GT <= t[k..] || QUOT <= t[k..]
  }

  /** Every `&` begins one of the four entities. */
  predicate Amps(t: Bytes) {
    forall k :: 0 <= k < |t| && t[k] == '&' ==> EntityAt(t, k)
  }

  ghost predicate Clean(t: Bytes, forWhat: ForWhat) {
    '<' !in t && Amps(t) && (forWhat == ForAttributes ==> '\"' !in t)
  }

  lemma EntityIsClean(e: Bytes, forWhat: ForWhat)
    requires e in {LT, AMP, GT, QUOT}
    ensures Clean(e, forWhat)
  {
    assert '&' !in e[1..] && e[0..] == e;
  }

  lemma WrittenIsClean(p: Piece, forWhat: ForWhat)
    requires Harmless(p, forWhat)
    ensures Clean(Write(p), forWhat)
  {
    if p.Entity? {
      EntityIsClean(Write(p), forWhat);
    } else {
      assert '&' !in Write(p);
    }
  }

  lemma AmpsJoin(a: Bytes, b: Bytes)
    requires Amps(a) && Amps(b)
    ensures Amps(a + b)
  {
    var t := a + b;
    forall k | 0 <= k < |t| && t[k] == '&' ensures EntityAt(t, k) {
      if k < |a| {
        assert t[k..] == a[k..] + b;
      } else {
        assert t[k..] == b[k - |a|..];
      }
    }
  }

  /** No raw `<`, every `&` begins one of the four entities, no raw `"` inside an attribute. */
  lemma OutputIsClean(s: Bytes, forWhat: ForWhat)
    ensures Clean(Encoded(s, forWhat), forWhat)
  {
    var P := (k: nat, t: Bytes) => Clean(t, forWhat);
    forall k: nat, rest: Bytes | k < |s| ensures GoesBack(s, forWhat, P, k, rest) {
      var p := Cut(s, k, forWhat);
      CutIsHarmless(s, k, forWhat);
      WrittenIsClean(p, forWhat);
      if Clean(rest, forWhat) {
        AmpsJoin(Write(p), rest);
      }
    }
    OverEncoded(s, 0, forWhat, P);
    assert P(0, Encoded(s, forWhat));
  }

  // ---------------------------------------------------------------------------------------
  // The end mark of a CDATA section
  // ---------------------------------------------------------------------------------------

  predicate CdataEndAt(t: Bytes, k: nat) {
    k + 2 < |t| && t[k] == ']' && t[k + 1] == ']' && t[k + 2] == '>'
  }

  ghost predicate HasCdataEnd(t: Bytes) {
    exists k: nat :: CdataEndAt(t, k)
  }

  predicate BracketBefore(t: Bytes, k: nat) {
    1 <= k <= |t| && t[k - 1] == ']'
  }

  predicate BracketsBefore(t: Bytes, k: nat) {
    BracketBefore(t, k) && k >= 2 && t[k - 2] == ']'
  }

  lemma JoinOther(os: Bytes, w: Bytes)
    requires w != [] && ']' !in w && '>' !in w
    ensures !BracketBefore(os + w, |os + w|)
    ensures HasCdataEnd(os + w) ==> HasCdataEnd(os)
  {
    var t := os + w;
    assert t[|t| - 1] == w[|w| - 1];
    if HasCdataEnd(t) {
      var k: nat :| CdataEndAt(t, k);
      assert forall j :: 0 <= j < |w| ==> t[|os| + j] == w[j];
      assert CdataEndAt(os, k);
    }
  }

  lemma JoinOne(os: Bytes, c: Byte)
    ensures BracketBefore(os + [c], |os| + 1) <==> c == ']'
    ensures BracketsBefore(os + [c], |os| + 1) <==> c == ']' && BracketBefore(os, |os|)
    ensures HasCdataEnd(os + [c]) <==> HasCdataEnd(os) || (c == '>' && BracketsBefore(os, |os|))
  {
    var t := os + [c];
    if HasCdataEnd(os) {
      var k: nat :| CdataEndAt(os, k);
      assert CdataEndAt(t, k);
    } else if c == '>' && BracketsBefore(os, |os|) {
      assert CdataEndAt(t, |os| - 2);
    }
    if HasCdataEnd(t) {
      var k: nat :| CdataEndAt(t, k);
      if k + 2 < |os| {
        assert CdataEndAt(os, k);
      }
    }
  }

  /** Brackets at the end of the output are brackets of the input. */
  ghost predicate Tracks(s: Bytes, idx: nat, os: Bytes) {
    && idx <= |s|
    && (BracketBefore(os, |os|) ==> BracketBefore(s, idx))
    && (BracketsBefore(os, |os|) ==> BracketsBefore(s, idx))
    && (HasCdataEnd(os) ==> "]]>" <= s)
  }

  lemma BracketsAreCopied(s: Bytes, idx: nat, forWhat: ForWhat)
    requires idx < |s|
    ensures var p := Cut(s, idx, forWhat);
            if s[idx] == ']' || (s[idx] == '>' && !EndsCdata(s, idx)) then p == Raw([s[idx]])
            else Write(p) != [] && ']' !in Write(p) && '>' !in Write(p)
  {
    CutIsHarmless(s, idx, forWhat);
    if StartsGroup(s, idx) {
      GroupAboveAscii(s, idx);
    }
  }

  lemma TracksOn(s: Bytes, idx: nat, forWhat: ForWhat, os: Bytes)
    requires idx < |s| && Tracks(s, idx, os)
    ensures var p := Cut(s, idx, forWhat); Tracks(s, idx + Width(p), os + Write(p))
  {
    var p := Cut(s, idx, forWhat);
    BracketsAreCopied(s, idx, forWhat);
    if p == Raw([s[idx]]) {
      JoinOne(os, s[idx]);
    } else {
      JoinOther(os, Write(p));
    }
  }

  ghost predicate CdataEndTraced(s: Bytes, k: nat, t: Bytes) {
    forall os: Bytes :: Tracks(s, k, os) && HasCdataEnd(os + t) ==> "]]>" <= s
  }

  lemma TracedBack(s: Bytes, k: nat, forWhat: ForWhat, rest: Bytes)
    requires k < |s| && CdataEndTraced(s, k + Width(Cut(s, k, forWhat)), rest)
    ensures CdataEndTraced(s, k, Write(Cut(s, k, forWhat)) + rest)
  {
    var w := Write(Cut(s, k, forWhat));
    forall os: Bytes | Tracks(s, k, os) && HasCdataEnd(os + (w + rest)) ensures "]]>" <= s {
      TracksOn(s, k, forWhat, os);
      Assoc(os, w, rest);
    }
  }

  lemma TracedAtEnd(s: Bytes)
    ensures CdataEndTraced(s, |s|, [])
  {
    forall os: Bytes ensures os + [] == os {}
  }

  lemma TracedFromStart(s: Bytes, t: Bytes)
    requires CdataEndTraced(s, 0, t) && HasCdataEnd(t)
    ensures "]]>" <= s
  {
    assert [] + t == t && Tracks(s, 0, []);
  }

  lemma CdataEndComesFromStart(s: Bytes, forWhat: ForWhat)
    ensures CdataEndTraced(s, 0, Encoded(s, forWhat))
  {
    var P := (k: nat, t: Bytes) => CdataEndTraced(s, k, t);
    forall k: nat, rest: Bytes | k < |s| ensures GoesBack(s, forWhat, P, k, rest) {
      if P(k + Width(Cut(s, k, forWhat)), rest) {
        TracedBack(s, k, forWhat, rest);
      }
    }
    TracedAtEnd(s);
    OverEncoded(s, 0, forWhat, P);
    assert P(0, Encoded(s, forWhat));
  }

  lemma BracketIsCopied(s: Bytes, idx: nat, forWhat: ForWhat)
    requires "]]>" <= s && idx < 3
    ensures EncodedFrom(s, idx, forWhat) == [s[idx]] + EncodedFrom(s, idx + 1, forWhat)
  {
    assert s[0] == ']' && s[1] == ']' && s[2] == '>';
    assert Cut(s, idx, forWhat) == Raw([s[idx]]);
  }

  lemma {:induction false} StartIsCopied(s: Bytes, idx: nat, forWhat: ForWhat) returns (rest: Bytes)
    requires "]]>" <= s && idx <= 3
    ensures EncodedFrom(s, idx, forWhat) == s[idx..3] + rest
    decreases 3 - idx
  {
    if idx == 3 {
      return EncodedFrom(s, 3, forWhat);
    }
    rest := StartIsCopied(s, idx + 1, forWhat);
    BracketIsCopied(s, idx, forWhat);
    Prepend(s, idx, 3, rest);
  }

  lemma CdataEndAtStart(s: Bytes, forWhat: ForWhat)
    requires "]]>" <= s
    ensures HasCdataEnd(Encoded(s, forWhat))
  {
    var rest := StartIsCopied(s, 0, forWhat);
    var t := s[..3] + rest;
    assert Encoded(s, forWhat) == t && CdataEndAt(t, 0);
  }

  /** The mark is in the output exactly when the text begins with it. */
  lemma CdataEndOnlyAtStart(s: Bytes, forWhat: ForWhat)
    ensures HasCdataEnd(Encoded(s, forWhat)) <==> "]]>" <= s
  {
    if HasCdataEnd(Encoded(s, forWhat)) {
      CdataEndComesFromStart(s, forWhat);
      TracedFromStart(s, Encoded(s, forWhat));
    }
    if "]]>" <= s {
      CdataEndAtStart(s, forWhat);
    }
  }
}
