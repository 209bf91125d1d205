/**
 * A reader of XML, one character at a time, that accepts no more than XML 1.0 does: the
 * characters of section 2.2, tags that match, attributes that differ, entities that exist, no
 * `]]>` in text, one root. It gives back the tags and texts in their order, with white space as
 * sections 2.11 and 3.3.3 have it.
 */
module XmlReader {
  import opened Common
  import opened XmlEncode
  import opened XmlDecode
  import opened XmlChars
  import opened XmlLines

  datatype Att = Att(name: Bytes, value: Bytes)

  datatype Event = Open(name: Bytes, atts: seq<Att>) | Close(name: Bytes) | Text(text: Bytes)

  /** `atStart` until the first character. */
  datatype Mode =
    | Content(atStart: bool)
    | Lt(atStart: bool)
    | Declaration(said: Bytes)
    | DeclarationEnd(said: Bytes)
    | StartName(name: Bytes)
    | Spaced(name: Bytes, atts: seq<Att>)
    | AttName(name: Bytes, atts: seq<Att>, att: Bytes)
    | AttEquals(name: Bytes, atts: seq<Att>, att: Bytes)
    | InValue(name: Bytes, atts: seq<Att>, att: Bytes, raw: Bytes)
    | AfterValue(name: Bytes, atts: seq<Att>)
    | Slash(name: Bytes, atts: seq<Att>)
    | EndName(name: Bytes)
    | Broken

  /**
   * `text` is what came since the last tag, as it stands in the file. `fatal` marks an error
   * after which the reader could go on, but the file is refused.
   */
  datatype Reader = Reader(mode: Mode, tags: seq<Bytes>, log: seq<Event>, text: Bytes, fatal: bool)

  predicate IsWhite(c: Byte) {
    c == ' ' || c == '\n' || c == '\t' || c == '\r'
  }

  predicate White(t: Bytes) {
    forall k :: 0 <= k < |t| ==> IsWhite(t[k])
  }

  function TrimLeft(t: Bytes): (r: Bytes) {
    if t != [] && IsWhite(t[0]) then TrimLeft(t[1..]) else t
  }

  function TrimRight(t: Bytes): (r: Bytes) {
    if t != [] && IsWhite(t[|t| - 1]) then TrimRight(t[..|t| - 1]) else t
  }

  function Trim(t: Bytes): (r: Bytes) {
    TrimRight(TrimLeft(t))
  }

  /** Text without the white space around it; none if there is nothing else. */
  function Said(t: Bytes): (events: seq<Event>) {
    if Trim(t) == [] then [] else [Text(Trim(t))]
  }

  /** What is read of character data. */
  function Heard(raw: Bytes): (events: seq<Event>) {
    Said(Unescape(LineEnds(raw)))
  }

  predicate NameStart(c: Byte) {
    'a' <= c <= 'z' || 'A' <= c <= 'Z' || c == '_'
  }

  predicate NameChar(c: Byte) {
    NameStart(c) || '0' <= c <= '9'
  }

  predicate IsName(t: Bytes) {
    t != [] && NameStart(t[0]) && forall k :: 0 <= k < |t| ==> NameChar(t[k])
  }

  type Name = t: Bytes | IsName(t) witness "x"

  /** The XML declaration, without the question marks (section 2.8 of XML 1.0); of the possible ones this only. */
  predicate IsDeclaration(t: Bytes) {
    t == "xml version=\"1.0\"" + " encoding=\"UTF-8\""
  }

  predicate HasAtt(atts: seq<Att>, name: Bytes) {
    exists k :: 0 <= k < |atts| && atts[k].name == name
  }

  /** The mode inside a start tag, after a piece of it that may be its last. */
  function InsideTag(name: Bytes, atts: seq<Att>, c: Byte): (m: Mode) {
    if c == ' ' then Spaced(name, atts) else if c == '/' then Slash(name, atts) else Broken
  }

  function InContent(r: Reader, c: Byte): (r': Reader)
    requires r.mode.Content?
  {
    if c == '<' then Reader(Lt(r.mode.atStart), r.tags, r.log + Heard(r.text), [], r.fatal || !Amps(r.text))
    else Reader(Content(false), r.tags, r.log, r.text + [c], r.fatal || (c == '>' && BracketsBefore(r.text, |r.text|)))
  }

  function AfterLt(r: Reader, c: Byte): (r': Reader)
    requires r.mode.Lt?
  {
    if c == '/' then r.(mode := EndName([]))
    else if c == '?' then r.(mode := Declaration([]), fatal := r.fatal || !r.mode.atStart)
    else if NameStart(c) then r.(mode := StartName([c]))
    else r.(mode := Broken)
  }

  function InAttribute(r: Reader, c: Byte): (r': Reader)
    requires r.mode.InValue?
  {
    var InValue(n, atts, a, raw) := r.mode;
    if c == '\"' then
      r.(mode := AfterValue(n, atts + [Att(a, Unescape(AttValue(raw)))]), fatal := r.fatal || HasAtt(atts, a) || !Amps(raw))
    else if c == '<' then r.(mode := Broken)
    else r.(mode := InValue(n, atts, a, raw + [c]))
  }

  function Step(r: Reader, c: Byte): (r': Reader) {
    match r.mode
    case Content(_) => InContent(r, c)
    case Lt(_) => AfterLt(r, c)
    case Declaration(said) => r.(mode := if c == '?' then DeclarationEnd(said) else Declaration(said + [c]))
    case DeclarationEnd(said) =>
      if c == '>' then r.(mode := Content(false), fatal := r.fatal || !IsDeclaration(said)) else r.(mode := Broken)
    case StartName(n) =>
      if NameChar(c) then r.(mode := StartName(n + [c]))
      else if c == '>' then Reader(Content(false), r.tags + [n], r.log + [Open(n, [])], [], r.fatal)
      else r.(mode := InsideTag(n, [], c))
    case Spaced(n, atts) => r.(mode := if NameStart(c) then AttName(n, atts, [c]) else Broken)
    case AttName(n, atts, a) =>
      r.(mode := if NameChar(c) then AttName(n, atts, a + [c])
                 else if c == '=' then AttEquals(n, atts, a) else Broken)
    case AttEquals(n, atts, a) => r.(mode := if c == '\"' then InValue(n, atts, a, []) else Broken)
    case InValue(_, _, _, _) => InAttribute(r, c)
    case AfterValue(n, atts) =>
      if c == '>' then Reader(Content(false), r.tags + [n], r.log + [Open(n, atts)], [], r.fatal)
      else r.(mode := InsideTag(n, atts, c))
    case Slash(n, atts) =>
      if c == '>' then Reader(Content(false), r.tags, r.log + [Open(n, atts), Close(n)], [], r.fatal)
      else r.(mode := Broken)
    case EndName(n) =>
      if NameChar(c) then r.(mode := EndName(n + [c]))
      else if c == '>' && r.tags != [] && r.tags[|r.tags| - 1] == n then
        Reader(Content(false), r.tags[..|r.tags| - 1], r.log + [Close(n)], [], r.fatal)
      else r.(mode := Broken)
    case Broken => r
  }

  const START := Reader(Content(true), [], [], [], false)

  function Run(r: Reader, t: Bytes): (r': Reader)
    decreases |t|
  {
    if t == [] then r else Run(Step(r, t[0]), t[1..])
  }

  // ---------------------------------------------------------------------------------------
  // Whole files
  // ---------------------------------------------------------------------------------------

  /** How deep `log` leads from depth `d`, unless it leaves the element it began in. */
  function Walk(d: nat, log: seq<Event>): (depth: Option<nat>)
    decreases |log|
  {
    if log == [] then Some(d)
    else
      match log[0]
      case Open(_, _) => Walk(d + 1, log[1..])
      case Close(_) => if d <= 1 then None else Walk(d - 1, log[1..])
      case Text(_) => Walk(d, log[1..])
  }

  /** One element around everything. */
  predicate OneRoot(log: seq<Event>) {
    && |log| >= 2 && log[0].Open? && log[|log| - 1].Close?
    && Walk(1, log[1..|log| - 1]) == Some(1)
  }

  /** The document in a file, if it is one. */
  ghost function Read(file: Bytes): (document: Option<seq<Event>>) {
    var r := Run(START, file);
    var log := r.log + Heard(r.text);
    if Chars(file) && r.mode.Content? && r.tags == [] && !r.fatal && Amps(r.text) && OneRoot(log)
    then Some(log) else None
  }

  lemma {:induction false} RunJoins(r: Reader, a: Bytes, b: Bytes)
    ensures Run(r, a + b) == Run(Run(r, a), b)
    decreases |a|
  {
    if a == [] {
      assert a + b == b;
    } else {
      assert (a + b)[0] == a[0] && (a + b)[1..] == a[1..] + b;
      RunJoins(Step(r, a[0]), a[1..], b);
    }
  }

  lemma RunOne(r: Reader, c: Byte)
    ensures Run(r, [c]) == Step(r, c)
  {
    assert [c][1..] == [];
  }

  lemma RunTwo(r: Reader, c: Byte, d: Byte)
    ensures Run(r, [c, d]) == Step(Step(r, c), d)
  {
    assert [c, d][1..] == [d];
    RunOne(Step(r, c), d);
  }

  // ---------------------------------------------------------------------------------------
  // Documents under construction
  // ---------------------------------------------------------------------------------------

  /** Unclosed elements, and all tags and text so far, with what is still being written. */
  datatype Doc = Doc(tags: seq<Bytes>, log: seq<Event>)

  predicate InStartTag(m: Mode) {
    m.StartName? || m.AfterValue?
  }

  function AttsSoFar(m: Mode): (atts: seq<Att>)
    requires InStartTag(m)
  {
    if m.StartName? then [] else m.atts
  }

  function DocOf(r: Reader): (d: Doc) {
    if InStartTag(r.mode) then Doc(r.tags + [r.mode.name], r.log + [Open(r.mode.name, AttsSoFar(r.mode))])
    else Doc(r.tags, r.log + Heard(r.text))
  }

  function WithAtt(d: Doc, att: Att): (d': Doc)
    requires d.log != [] && d.log[|d.log| - 1].Open?
    ensures |d'.log| == |d.log| && d'.log[|d.log| - 1].Open?
  {
    var last := |d.log| - 1;
    Doc(d.tags, d.log[..last] + [Open(d.log[last].name, d.log[last].atts + [att])])
  }

  // ---------------------------------------------------------------------------------------
  // White space around text
  // ---------------------------------------------------------------------------------------

  lemma {:induction false} TrimLeftDrops(w: Bytes, t: Bytes)
    requires White(w)
    ensures TrimLeft(w + t) == TrimLeft(t)
    decreases |w|
  {
    if w == [] {
      assert w + t == t;
    } else {
      assert (w + t)[0] == w[0] && (w + t)[1..] == w[1..] + t;
      TrimLeftDrops(w[1..], t);
    }
  }

  lemma {:induction false} TrimRightDrops(t: Bytes, w: Bytes)
    requires White(w)
    ensures TrimRight(t + w) == TrimRight(t)
    decreases |w|
  {
    if w == [] {
      assert t + w == t;
    } else {
      var last := |w| - 1;
      assert (t + w)[|t + w| - 1] == w[last] && (t + w)[..|t + w| - 1] == t + w[..last];
      TrimRightDrops(t, w[..last]);
    }
  }

  lemma {:induction false} TrimIgnores(t: Bytes, w: Bytes)
    requires White(w)
    ensures Trim(t + w) == Trim(t)
    decreases |t|
  {
    if t == [] {
      TrimLeftDrops(w, []);
      assert w + [] == w == t + w;
    } else if IsWhite(t[0]) {
      assert (t + w)[0] == t[0] && (t + w)[1..] == t[1..] + w;
      TrimIgnores(t[1..], w);
    } else {
      assert (t + w)[0] == t[0];
      TrimRightDrops(t, w);
    }
  }

  lemma PrefixEndsBefore(e: Bytes, a: Bytes, w: Bytes)
    requires White(w) && forall k :: 0 <= k < |e| ==> !IsWhite(e[k])
    ensures e <= a + w <==> e <= a
  {
    if |e| > |a| && w != [] {
      assert (a + w)[|a|] == w[0];
    }
  }

  lemma SymbolBeforeWhite(a: Bytes, w: Bytes)
    requires a != [] && White(w)
    ensures Symbol(a + w) == Symbol(a)
  {
    PrefixEndsBefore(LT, a, w);
    PrefixEndsBefore(AMP, a, w);
    PrefixEndsBefore(GT, a, w);
    PrefixEndsBefore(QUOT, a, w);
    assert (a + w)[0] == a[0];
  }

  /** White space is never part of an entity. */
  lemma {:induction false} UnescapeWhite(a: Bytes, w: Bytes)
    requires White(w)
    ensures Unescape(a + w) == Unescape(a) + w
    decreases |a|
  {
    if a == [] {
      assert a + w == w + [] == w;
      UnescapePlain(w, []);
    } else {
      var (c, n) := Symbol(a);
      SymbolBeforeWhite(a, w);
      assert (a + w)[n..] == a[n..] + w;
      UnescapeWhite(a[n..], w);
      Assoc([c], Unescape(a[n..]), w);
    }
  }

  // ---------------------------------------------------------------------------------------
  // Indentation and line ends around text
  // ---------------------------------------------------------------------------------------

  /** What the writer puts between tags. */
  predicate Filler(w: Bytes) {
    forall k :: 0 <= k < |w| ==> w[k] == ' ' || w[k] == '\n'
  }

  lemma {:induction false} LineEndsBeforeFiller(raw: Bytes, w: Bytes) returns (x: Bytes)
    requires Filler(w)
    ensures White(x) && LineEnds(raw + w) == LineEnds(raw) + x
    decreases |raw|
  {
    if raw == [] {
      assert raw + w == w && [] + w == w && '\r' !in w;
      LineEndsUnchanged(w);
      return w;
    }
    var n := if raw[0] == '\r' && |raw| > 1 && raw[1] == '\n' then 2 else 1;
    if raw == "\r" && w != [] && w[0] == '\n' {
      assert (raw + w)[2..] == w[1..] && raw[1..] == [];
      assert '\r' !in w[1..];
      LineEndsUnchanged(w[1..]);
      return w[1..];
    }
    assert (raw + w)[n..] == raw[n..] + w && (raw + w)[0] == raw[0];
    assert |raw| > 1 ==> (raw + w)[1] == raw[1];
    x := LineEndsBeforeFiller(raw[n..], w);
    Assoc(LineEnds(raw)[..1], LineEnds(raw[n..]), x);
  }

  lemma {:induction false} LineEndsAfterFiller(w: Bytes, raw: Bytes)
    requires Filler(w)
    ensures LineEnds(w + raw) == w + LineEnds(raw)
    decreases |w|
  {
    if w == [] {
      assert w + raw == raw && w + LineEnds(raw) == LineEnds(raw);
    } else {
      assert (w + raw)[0] == w[0] && (w + raw)[1..] == w[1..] + raw;
      LineEndsAfterFiller(w[1..], raw);
      Assoc([w[0]], w[1..], LineEnds(raw));
      assert [w[0]] + w[1..] == w;
    }
  }

  lemma HeardBeforeFiller(raw: Bytes, w: Bytes)
    requires Filler(w)
    ensures Heard(raw + w) == Heard(raw)
  {
    var x := LineEndsBeforeFiller(raw, w);
    UnescapeWhite(LineEnds(raw), x);
    TrimIgnores(Unescape(LineEnds(raw)), x);
  }

  lemma HeardAfterFiller(w: Bytes, raw: Bytes)
    requires Filler(w)
    ensures Heard(w + raw) == Heard(raw)
  {
    LineEndsAfterFiller(w, raw);
    UnescapePlain(w, LineEnds(raw));
    TrimLeftDrops(w, Unescape(LineEnds(raw)));
  }

  lemma CdataEndBeforeFiller(raw: Bytes, w: Bytes)
    requires Filler(w)
    ensures HasCdataEnd(raw + w) <==> HasCdataEnd(raw)
  {
    if k: nat :| CdataEndAt(raw, k) {
      assert CdataEndAt(raw + w, k);
    }
    if k: nat :| CdataEndAt(raw + w, k) {
      assert (raw + w)[k + 2] == '>';
      assert CdataEndAt(raw, k);
    }
  }

  lemma CdataEndAfterFiller(w: Bytes, raw: Bytes)
    requires Filler(w)
    ensures HasCdataEnd(w + raw) <==> HasCdataEnd(raw)
  {
    if k: nat :| CdataEndAt(raw, k) {
      assert CdataEndAt(w + raw, |w| + k);
    }
    if k: nat :| CdataEndAt(w + raw, k) {
      assert (w + raw)[k] == ']';
      assert CdataEndAt(raw, k - |w|);
    }
  }

  lemma AmpsOfFiller(w: Bytes)
    requires Filler(w)
    ensures Amps(w)
  {
  }

  // ---------------------------------------------------------------------------------------
  // What the reader makes of each thing the writer writes
  // ---------------------------------------------------------------------------------------

  lemma {:induction false} RunContent(r: Reader, t: Bytes)
    requires r.mode.Content? && '<' !in t && t != [] && (HasCdataEnd(r.text) ==> r.fatal)
    ensures Run(r, t) == Reader(Content(false), r.tags, r.log, r.text + t, r.fatal || HasCdataEnd(r.text + t))
    decreases |t|
  {
    var r1 := Step(r, t[0]);
    JoinOne(r.text, t[0]);
    if |t| == 1 {
      RunOne(r, t[0]);
      assert t == [t[0]];
    } else {
      RunContent(r1, t[1..]);
      Assoc(r.text, [t[0]], t[1..]);
      assert [t[0]] + t[1..] == t;
      if HasCdataEnd(r1.text) {
        CdataEndStays(r1.text, t[1..]);
      }
    }
  }

  lemma CdataEndStays(a: Bytes, b: Bytes)
    requires HasCdataEnd(a)
    ensures HasCdataEnd(a + b)
  {
    var k: nat :| CdataEndAt(a, k);
    assert CdataEndAt(a + b, k);
  }

  lemma {:induction false} RunStartName(r: Reader, n: Bytes)
    requires r.mode.StartName? && forall k :: 0 <= k < |n| ==> NameChar(n[k])
    ensures Run(r, n) == r.(mode := StartName(r.mode.name + n))
    decreases |n|
  {
    if n == [] {
      assert r.mode.name + n == r.mode.name;
    } else {
      RunStartName(Step(r, n[0]), n[1..]);
      Assoc(r.mode.name, [n[0]], n[1..]);
      assert [n[0]] + n[1..] == n;
    }
  }

  lemma RunStartTag(r: Reader, n: Bytes)
    requires r.mode.Content? && IsName(n) && Amps(r.text)
    ensures Run(r, "<" + n) == Reader(StartName(n), r.tags, DocOf(r).log, [], r.fatal)
  {
    var lt := Reader(Lt(r.mode.atStart), r.tags, DocOf(r).log, [], r.fatal);
    RunJoins(r, "<", n);
    RunOne(r, '<');
    assert Step(r, '<') == lt;
    RunWholeName(lt, n);
  }

  lemma RunWholeName(r: Reader, n: Bytes)
    requires r.mode.Lt? && IsName(n)
    ensures Run(r, n) == r.(mode := StartName(n))
  {
    RunStartName(Step(r, n[0]), n[1..]);
    assert [n[0]] + n[1..] == n;
  }

  lemma {:induction false} RunEndName(r: Reader, n: Bytes)
    requires r.mode.EndName? && forall k :: 0 <= k < |n| ==> NameChar(n[k])
    ensures Run(r, n) == r.(mode := EndName(r.mode.name + n))
    decreases |n|
  {
    if n == [] {
      assert r.mode.name + n == r.mode.name;
    } else {
      RunEndName(Step(r, n[0]), n[1..]);
      Assoc(r.mode.name, [n[0]], n[1..]);
      assert [n[0]] + n[1..] == n;
    }
  }

  lemma EndTagCloses(r: Reader, n: Bytes)
    requires r.mode == EndName(n) && r.tags != [] && r.tags[|r.tags| - 1] == n
    ensures Run(r, ">") == Reader(Content(false), r.tags[..|r.tags| - 1], r.log + [Close(n)], [], r.fatal)
  {
    RunOne(r, '>');
  }

  lemma RunEndTagName(r: Reader, n: Bytes)
    requires r.mode == EndName([]) && IsName(n) && r.tags != [] && r.tags[|r.tags| - 1] == n
    ensures Run(r, n + ">") == Reader(Content(false), r.tags[..|r.tags| - 1], r.log + [Close(n)], [], r.fatal)
  {
    RunEndName(r, n);
    assert [] + n == n;
    RunJoins(r, n, ">");
    EndTagCloses(r.(mode := EndName(n)), n);
  }

  lemma RunEndTag(r: Reader, n: Bytes)
    requires r.mode.Content? && IsName(n) && r.tags != [] && r.tags[|r.tags| - 1] == n && Amps(r.text)
    ensures Run(r, "</" + (n + ">"))
         == Reader(Content(false), r.tags[..|r.tags| - 1], DocOf(r).log + [Close(n)], [], r.fatal)
  {
    RunTwo(r, '<', '/');
    RunJoins(r, "</", n + ">");
    RunEndTagName(Reader(EndName([]), r.tags, DocOf(r).log, [], r.fatal), n);
  }

  lemma RunTagClosed(r: Reader)
    requires InStartTag(r.mode)
    ensures Run(r, ">") == Reader(Content(false), DocOf(r).tags, DocOf(r).log, [], r.fatal)
  {
    RunOne(r, '>');
  }

  lemma RunEmptyTag(r: Reader)
    requires InStartTag(r.mode)
    ensures Run(r, "/>") == Reader(Content(false), r.tags, DocOf(r).log + [Close(r.mode.name)], [], r.fatal)
  {
    RunTwo(r, '/', '>');
    var n, atts := r.mode.name, AttsSoFar(r.mode);
    SlashSeen(r);
    assert r.log + [Open(n, atts), Close(n)] == (r.log + [Open(n, atts)]) + [Close(n)];
  }

  lemma SlashSeen(r: Reader)
    requires InStartTag(r.mode)
    ensures Step(r, '/') == r.(mode := Slash(r.mode.name, AttsSoFar(r.mode)))
  {
  }

  lemma {:induction false} RunAttName(r: Reader, n: Bytes)
    requires r.mode.AttName? && forall k :: 0 <= k < |n| ==> NameChar(n[k])
    ensures Run(r, n) == r.(mode := AttName(r.mode.name, r.mode.atts, r.mode.att + n))
    decreases |n|
  {
    if n == [] {
      assert r.mode.att + n == r.mode.att;
    } else {
      RunAttName(Step(r, n[0]), n[1..]);
      Assoc(r.mode.att, [n[0]], n[1..]);
      assert [n[0]] + n[1..] == n;
    }
  }

  lemma {:induction false} RunInValue(r: Reader, v: Bytes)
    requires r.mode.InValue? && '<' !in v && '\"' !in v
    ensures Run(r, v) == r.(mode := InValue(r.mode.name, r.mode.atts, r.mode.att, r.mode.raw + v))
    decreases |v|
  {
    if v == [] {
      assert r.mode.raw + v == r.mode.raw;
    } else {
      RunInValue(Step(r, v[0]), v[1..]);
      Assoc(r.mode.raw, [v[0]], v[1..]);
      assert [v[0]] + v[1..] == v;
    }
  }

  lemma RunAttStart(r: Reader, a: Bytes)
    requires InStartTag(r.mode) && IsName(a)
    ensures Run(r, " " + a) == r.(mode := AttName(r.mode.name, AttsSoFar(r.mode), a))
  {
    RunJoins(r, " ", a);
    RunOne(r, ' ');
    RunAttName(Step(Step(r, ' '), a[0]), a[1..]);
    assert [a[0]] + a[1..] == a;
  }

  lemma ValueEnds(r: Reader)
    requires r.mode.InValue? && Amps(r.mode.raw)
    ensures var InValue(n, atts, a, raw) := r.mode;
            Run(r, "\"") == r.(mode := AfterValue(n, atts + [Att(a, Unescape(AttValue(raw)))]),
                               fatal := r.fatal || HasAtt(atts, a))
  {
    RunOne(r, '\"');
  }

  lemma ValueBegins(r: Reader)
    requires r.mode.AttName?
    ensures Run(r, "=\"") == r.(mode := InValue(r.mode.name, r.mode.atts, r.mode.att, []))
  {
    RunTwo(r, '=', '\"');
  }

  lemma RunAttRest(r: Reader, v: Bytes)
    requires r.mode.AttName? && '<' !in v && '\"' !in v && Amps(v)
    ensures Run(r, "=\"" + v + "\"")
         == r.(mode := AfterValue(r.mode.name, r.mode.atts + [Att(r.mode.att, Unescape(AttValue(v)))]),
               fatal := r.fatal || HasAtt(r.mode.atts, r.mode.att))
  {
    var inside := r.(mode := InValue(r.mode.name, r.mode.atts, r.mode.att, []));
    ValueBegins(r);
    RunJoins(r, "=\"", v);
    RunInValue(inside, v);
    assert [] + v == v;
    RunJoins(r, "=\"" + v, "\"");
    ValueEnds(r.(mode := InValue(r.mode.name, r.mode.atts, r.mode.att, v)));
  }

  /** An attribute written into an open start tag is read back with its decoded value. */
  lemma RunAttribute(r: Reader, a: Bytes, v: Bytes)
    requires InStartTag(r.mode) && IsName(a) && '<' !in v && '\"' !in v && Amps(v)
    ensures var after := Run(Run(r, " " + a), "=\"" + v + "\"");
            && after.mode.AfterValue? && after.tags == r.tags && after.text == r.text && after.mode.name == r.mode.name
            && after.fatal == (r.fatal || HasAtt(AttsSoFar(r.mode), a))
            && DocOf(after) == WithAtt(DocOf(r), Att(a, Unescape(AttValue(v))))
  {
    RunAttStart(r, a);
    RunAttRest(Run(r, " " + a), v);
  }

  // ---------------------------------------------------------------------------------------
  // What it refuses
  // ---------------------------------------------------------------------------------------

  /** The encoder leaves a `]]>` at the start of a text as it is; an element with such a text is no XML. */
  lemma LeadingCdataEndIsRefused(text: Bytes)
    requires "]]>" <= text
    ensures Read("<a>" + (Encoded(text, ForTextNodes) + "</a>")) == None
  {
    var t := Encoded(text, ForTextNodes);
    CdataEndOnlyAtStart(text, ForTextNodes);
    OutputIsClean(text, ForTextNodes);
    RunJoins(START, "<a>", t + "</a>");
    RunOpened("a");
    RunJoins(Run(START, "<a>"), t, "</a>");
    CdataEndIsFatal(Run(START, "<a>"), t);
    StaysFatal(Run(Run(START, "<a>"), t), "</a>");
  }

  lemma RunOpened(n: Name)
    ensures Run(START, "<" + n + ">") == Reader(Content(false), [n], [Open(n, [])], [], false)
  {
    RunJoins(START, "<" + n, ">");
    RunStartTag(START, n);
    RunTagClosed(Run(START, "<" + n));
  }

  lemma CdataEndIsFatal(r: Reader, t: Bytes)
    requires r.mode.Content? && r.text == [] && '<' !in t && HasCdataEnd(t)
    ensures Run(r, t).fatal
  {
    RunContent(r, t);
    assert [] + t == t;
  }

  lemma {:induction false} StaysFatal(r: Reader, t: Bytes)
    requires r.fatal
    ensures Run(r, t).fatal
    decreases |t|
  {
    if t != [] {
      StaysFatal(Step(r, t[0]), t[1..]);
    }
  }
}
