/**
 * The encoder in front of every text and attribute value of doctest's XML report: what it
 * lets through, what it rewrites, and that a reader of the XML gets the text back.
 */
module XmlEncode {
  import opened Common

  type Byte = c: char | c as int < 256

  type Bytes = seq<Byte>

  datatype ForWhat = ForTextNodes | ForAttributes

  // ---------------------------------------------------------------------------------------
  // Multi-byte groups
  // ---------------------------------------------------------------------------------------

  /** 110xxxxx, 1110xxxx or 11110xxx. */
  predicate IsLead(c: Byte) {
    0xC0 <= c as int < 0xF8
  }

  function TrailingBytes(c: Byte): (n: nat)
    requires IsLead(c)
  {
    if c as int < 0xE0 then 2 else if c as int < 0xF0 then 3 else 4
  }

  function HeaderValue(c: Byte): (v: nat)
    requires IsLead(c)
  {
    if c as int < 0xE0 then c as int % 0x20 else if c as int < 0xF0 then c as int % 0x10 else c as int % 0x08
  }

  /** The bit masks of the source, on machine bytes, say the same as the ranges used here. */
  lemma MasksAreRanges(c: bv8)
    ensures (c & 0xE0 == 0xC0) <==> 0xC0 <= c < 0xE0
    ensures (c & 0xF0 == 0xE0) <==> 0xE0 <= c < 0xF0
    ensures (c & 0xF8 == 0xF0) <==> 0xF0 <= c < 0xF8
    ensures (c & 0xC0 == 0x80) <==> 0x80 <= c < 0xC0
    ensures 0xC0 <= c < 0xE0 ==> c & 0x1F == c - 0xC0
    ensures 0xE0 <= c < 0xF0 ==> c & 0x0F == c - 0xE0
    ensures 0xF0 <= c < 0xF8 ==> c & 0x07 == c - 0xF0
    ensures 0x80 <= c < 0xC0 ==> c & 0x3F == c - 0x80
  {
  }

  predicate IsContinuation(c: Byte) {
    0x80 <= c as int < 0xC0
  }

  /** The value collected from the lead byte at `idx` and the `n - 1` bytes after it. */
  function GroupValue(s: Bytes, idx: nat, n: nat): (v: nat)
    requires 1 <= n && idx + n <= |s| && IsLead(s[idx])
  {
    if n == 1 then HeaderValue(s[idx]) else GroupValue(s, idx, n - 1) * 64 + s[idx + n - 1] as int % 64
  }

  predicate SaneValue(value: nat, n: nat) {
    && value >= 0x80
    && !(value < 0x800 && n > 2)
    && !(0x800 < value < 0x10000 && n > 3)
    && value < 0x110000
  }

  /** At `idx` there is a multi-byte group the encoder passes on as it is. */
  predicate StartsGroup(s: Bytes, idx: nat)
    requires idx < |s|
  {
    && IsLead(s[idx])
    && var n := TrailingBytes(s[idx]);
       && idx + n <= |s|
       && (forall k :: idx < k < idx + n ==> IsContinuation(s[k]))
       && SaneValue(GroupValue(s, idx, n), n)
  }

  predicate IsControl(c: Byte) {
    c as int < 0x09 || 0x0D < c as int < 0x20 || c as int == 0x7F
  }

  function HexDigit(n: nat): (r: Byte)
    requires n < 16
  {
    if n < 10 then ('0' as int + n) as char else ('A' as int + n - 10) as char
  }

  function HexEscape(c: Byte): (r: Bytes) {
    ['\\', 'x', HexDigit(c as int / 16), HexDigit(c as int % 16)]
  }

  // ---------------------------------------------------------------------------------------
  // The encoder
  // ---------------------------------------------------------------------------------------

  const LT: Bytes := "&lt;"
  const AMP: Bytes := "&amp;"
  const GT: Bytes := "&gt;"
  const QUOT: Bytes := "&quot;"

  /** A `>` behind two closing brackets; the source asks for `idx > 2`, so the first possible place is missed. */
  predicate EndsCdata(s: Bytes, idx: nat)
    requires idx < |s|
  {
    idx > 2 && s[idx - 1] == ']' && s[idx - 2] == ']'
  }

  /** One round of the loop: a character written as an entity or as a hex escape, or bytes passed on. */
  datatype Piece = Entity(c: Byte) | Hex(c: Byte) | Raw(bytes: Bytes)

  function Width(p: Piece): (r: nat) {
    if p.Raw? then |p.bytes| else 1
  }

  /** The default branch: control characters, plain ASCII, and everything above it. */
  function CutDefault(s: Bytes, idx: nat): (p: Piece)
    requires idx < |s|
    ensures 1 <= Width(p) <= |s| - idx
  {
    var c := s[idx];
    if IsControl(c) then Hex(c)
    else if c as int < 0x7F then Raw([c])
    else if StartsGroup(s, idx) then Raw(s[idx..idx + TrailingBytes(c)])
    else Hex(c)
  }

  function Cut(s: Bytes, idx: nat, forWhat: ForWhat): (p: Piece)
    requires idx < |s|
    ensures 1 <= Width(p) <= |s| - idx
  {
    var c := s[idx];
    if c == '<' || c == '&' then Entity(c)
    else if c == '>' then if EndsCdata(s, idx) then Entity(c) else Raw([c])
    else if c == '\"' then if forWhat == ForAttributes then Entity(c) else Raw([c])
    else CutDefault(s, idx)
  }

  function Write(p: Piece): (r: Bytes) {
    match p
    case Entity(c) => if c == '<' then LT else if c == '&' then AMP else if c == '>' then GT else QUOT
    case Hex(c) => HexEscape(c)
    case Raw(bytes) => bytes
  }

  /** What the loop writes from `idx` on. */
  function EncodedFrom(s: Bytes, idx: nat, forWhat: ForWhat): (out: Bytes)
    requires idx <= |s|
    decreases |s| - idx
  {
    if idx == |s| then []
    else
      var p := Cut(s, idx, forWhat);
      Write(p) + EncodedFrom(s, idx + Width(p), forWhat)
  }

  function Encoded(s: Bytes, forWhat: ForWhat): (out: Bytes) {
    EncodedFrom(s, 0, forWhat)
  }

  /** What is still to be written from `idx` on completes `os` to `all`. */
  ghost predicate Completes(s: Bytes, idx: nat, forWhat: ForWhat, os: Bytes, all: Bytes) {
    idx <= |s| && os + EncodedFrom(s, idx, forWhat) == all
  }

  /** `XmlEncode::encodeTo`. */
  method EncodeTo(str: Bytes, forWhat: ForWhat) returns (os: Bytes)
    ensures os == Encoded(str, forWhat)
  {
    os := [];
    var idx := 0;
    ghost var all := Encoded(str, forWhat);
    while idx < |str|
      invariant Completes(str, idx, forWhat, os, all)
    {
      os, idx := EncodeAt(str, idx, forWhat, os, all);
    }
  }

  /** The body of the loop. */
  method EncodeAt(str: Bytes, idx: nat, forWhat: ForWhat, os: Bytes, ghost all: Bytes)
    returns (os': Bytes, idx': nat)
    requires idx < |str| && Completes(str, idx, forWhat, os, all)
    ensures idx < idx' && Completes(str, idx', forWhat, os', all)
  {
    var chunk, consumed := EncodeChar(str, idx, forWhat);
    WritesNext(str, idx, forWhat, os, all);
    return os + chunk, idx + consumed;
  }

  /** The switch in that loop. */
  method EncodeChar(str: Bytes, idx: nat, forWhat: ForWhat) returns (chunk: Bytes, consumed: nat)
    requires idx < |str|
    ensures chunk == Write(Cut(str, idx, forWhat)) && consumed == Width(Cut(str, idx, forWhat))
  {
    var c := str[idx];
    if c == '<' {
      return LT, 1;
    } else if c == '&' {
      return AMP, 1;
    } else if c == '>' {
      return if idx > 2 && str[idx - 1] == ']' && str[idx - 2] == ']' then GT else [c], 1;
    } else if c == '\"' {
      return if forWhat == ForAttributes then QUOT else [c], 1;
    } else {
      chunk, consumed := EncodeDefault(str, idx);
    }
  }

  lemma WritesNext(s: Bytes, idx: nat, forWhat: ForWhat, os: Bytes, all: Bytes)
    requires idx < |s| && Completes(s, idx, forWhat, os, all)
    ensures var p := Cut(s, idx, forWhat);
            Completes(s, idx + Width(p), forWhat, os + Write(p), all)
  {
    var p := Cut(s, idx, forWhat);
    Assoc(os, Write(p), EncodedFrom(s, idx + Width(p), forWhat));
  }

  method EncodeDefault(str: Bytes, idx: nat) returns (chunk: Bytes, consumed: nat)
    requires idx < |str|
    ensures chunk == Write(CutDefault(str, idx)) && consumed == Width(CutDefault(str, idx))
  {
    var c := str[idx];
    if c as int < 0x09 || (c as int > 0x0D && (c as int) < 0x20) || c as int == 0x7F {
      return HexEscape(c), 1;
    }
    if c as int < 0x7F {
      return [c], 1;
    }
    if (c as int) < 0xC0 || c as int >= 0xF8 {
      return HexEscape(c), 1;
    }
    var encBytes := TrailingBytes(c);
    if idx + encBytes - 1 >= |str| {
      return HexEscape(c), 1;
    }
    var valid, value := CollectGroup(str, idx, encBytes);
    if !valid || value < 0x80 || (value < 0x800 && encBytes > 2)
       || (0x800 < value < 0x10000 && encBytes > 3) || value >= 0x110000 {
      return HexEscape(c), 1;
    }
    return str[idx..idx + encBytes], encBytes;
  }

  /** The inner loop over the bytes behind a lead byte. */
  method CollectGroup(str: Bytes, idx: nat, encBytes: nat) returns (valid: bool, value: nat)
    requires idx < |str| && IsLead(str[idx]) && encBytes == TrailingBytes(str[idx]) <= |str| - idx
    ensures valid <==> forall k :: idx < k < idx + encBytes ==> IsContinuation(str[k])
    ensures value == GroupValue(str, idx, encBytes)
  {
    valid := true;
    value := HeaderValue(str[idx]);
    for n := 1 to encBytes
      invariant valid <==> forall k :: idx < k < idx + n ==> IsContinuation(str[k])
      invariant value == GroupValue(str, idx, n)
    {
      var nc := str[idx + n];
      valid := valid && IsContinuation(nc);
      value := value * 64 + nc as int % 64;
    }
  }
}
