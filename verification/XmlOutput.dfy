/**
 * The writer under the XML report. Its state is three fields and the output; the contracts say
 * what a reader of the output makes of it, and whether it accepts it.
 */
module XmlOutput {
  import opened Common
  import opened XmlEncode
  import opened XmlDecode
  import opened XmlChars
  import opened XmlLines
  import opened XmlReader

  function Spaces(n: nat): (t: Bytes)
    ensures |t| == n && Filler(t)
  {
    seq(n, i => ' ')
  }

  lemma Dedent(n: nat)
    requires n > 0
    ensures Spaces(2 * n)[..2 * n - 2] == Spaces(2 * (n - 1))
  {
  }

  /** The inside of an XML declaration. */
  type Instruction = t: Bytes | Ascii(t) && '?' !in t witness "x"

  const XML_VERSION: Instruction := "xml version=\"1.0\""
  const XML_ENCODING: Instruction := " encoding=\"UTF-8\""
  const DECLARATION: Instruction := XML_VERSION + XML_ENCODING

  /** The writer's fields agree with what a reader of the output has seen. */
  ghost predicate Agrees(r: Reader, tagIsOpen: bool, needsNewline: bool, tags: seq<Bytes>, indent: Bytes) {
    && (if tagIsOpen then InStartTag(r.mode) && r.text == [] && !needsNewline else r.mode.Content?)
    && tags == (if tagIsOpen then r.tags + [r.mode.name] else r.tags)
    && (forall k :: 0 <= k < |tags| ==> IsName(tags[k]))
    && indent == Spaces(2 * |tags|)
  }

  /** Text read so far that no later markup makes worse. */
  ghost predicate Settled(r: Reader) {
    Amps(r.text) && (HasCdataEnd(r.text) ==> r.fatal)
  }

  class XmlWriter {
    var tagIsOpen: bool
    var needsNewline: bool
    var tags: seq<Bytes>
    var indent: Bytes
    var os: Bytes
    ghost var read: Reader
    ghost var legal: bool

    /** `read` is a reader of the output, and `legal` says whether that is in XML characters. */
    ghost predicate InSync()
      reads this`os, this`read, this`legal
    {
      read == Run(START, os) && Transparent(os, legal) && Settled(read)
    }

    ghost predicate Valid()
      reads this
    {
      InSync() && Agrees(read, tagIsOpen, needsNewline, tags, indent)
    }

    /** Nothing has been written yet that a reader has to refuse. */
    ghost predicate Sound()
      reads this`read, this`legal
    {
      legal && !read.fatal
    }

    ghost function Log(): (log: seq<Event>)
      reads this`read
    {
      DocOf(read).log
    }

    constructor ()
      ensures Valid() && Sound() && Log() == [] && tags == [] && !tagIsOpen && read == START && os == []
    {
      tagIsOpen, needsNewline, tags, indent, os := false, false, [], [], [];
      read, legal := START, true;
      new;
      AsciiIsTransparent([]);
      NothingHeard();
    }

    // -------------------------------------------------------------------------------------
    // The stream
    // -------------------------------------------------------------------------------------

    /** `os << t`. */
    method Put(t: Bytes, ghost ok: bool)
      requires read == Run(START, os) && Transparent(os, legal) && Transparent(t, ok)
      modifies this`os, this`read, this`legal
      ensures os == old(os) + t && legal == (old(legal) && ok)
      ensures read == Run(old(read), t) == Run(START, os) && Transparent(os, legal)
    {
      RunJoins(START, os, t);
      TransparentJoins(os, t, legal, ok);
      os := os + t;
      read := Run(read, t);
      legal := legal && ok;
    }

    method PutMarkup(t: Bytes)
      requires read == Run(START, os) && Transparent(os, legal) && Ascii(t)
      modifies this`os, this`read
      ensures os == old(os) + t
      ensures read == Run(old(read), t) == Run(START, os) && Transparent(os, legal)
    {
      AsciiIsTransparent(t);
      RunJoins(START, os, t);
      TransparentJoins(os, t, legal, true);
      os := os + t;
      read := Run(read, t);
    }

    /** Indentation and line ends, between tags. */
    method PutFiller(t: Bytes)
      requires InSync() && read.mode.Content? && Filler(t)
      modifies this`os, this`read
      ensures os == old(os) + t && InSync() && Log() == old(Log()) && read.mode.Content?
      ensures read.tags == old(read).tags && read.log == old(read).log
      ensures read.text == old(read).text + t && read.fatal == old(read).fatal
    {
      if t == [] {
        assert os + t == os && read.text + t == read.text;
      } else {
        RunFiller(read, t);
        PutMarkup(t);
      }
    }

    // -------------------------------------------------------------------------------------
    // Elements
    // -------------------------------------------------------------------------------------

    method StartElement(name: Bytes)
      requires Valid() && IsName(name)
      modifies this`tagIsOpen, this`needsNewline, this`tags, this`indent, this`os, this`read
      ensures Valid() && tagIsOpen && tags == old(tags) + [name]
      ensures Log() == old(Log()) + [Open(name, [])] && read.fatal == old(read).fatal
    {
      Settle();
      PutStartTag(name);
      Pushed(read, tags, name);
      tags := tags + [name];
      indent := indent + "  ";
      tagIsOpen := true;
    }

    /** The start tag before is closed, the line ended, and the new line indented. */
    method Settle()
      requires Valid()
      modifies this`tagIsOpen, this`needsNewline, this`os, this`read
      ensures Valid() && !tagIsOpen && !needsNewline && Log() == old(Log()) && read.fatal == old(read).fatal
    {
      EnsureTagClosed();
      NewlineIfNecessary();
      PutFiller(indent);
    }

    method PutStartTag(name: Bytes)
      requires InSync() && read.mode.Content? && IsName(name)
      modifies this`os, this`read
      ensures InSync() && read == Reader(StartName(name), old(read).tags, old(Log()), [], old(read).fatal)
    {
      RunStartTag(read, name);
      NothingPending();
      PutMarkup("<" + name);
    }

    method EndElement()
      requires Valid() && tags != []
      modifies this`tagIsOpen, this`needsNewline, this`tags, this`indent, this`os, this`read
      ensures Valid() && !tagIsOpen && tags == old(tags)[..|old(tags)| - 1]
      ensures Log() == old(Log()) + [Close(old(tags)[|old(tags)| - 1])] && read.fatal == old(read).fatal
    {
      NewlineIfNecessary();
      EndLine();
    }

    method EndLine()
      requires Valid() && tags != [] && !needsNewline
      modifies this`tagIsOpen, this`tags, this`indent, this`os, this`read
      ensures Valid() && !tagIsOpen && tags == old(tags)[..|old(tags)| - 1]
      ensures Log() == old(Log()) + [Close(old(tags)[|old(tags)| - 1])] && read.fatal == old(read).fatal
    {
      var name := tags[|tags| - 1];
      Dedent(|tags|);
      indent := indent[..|indent| - 2];
      PutEnd(name);
      Popped(read, tags);
      tags := tags[..|tags| - 1];
    }

    /** The end of an element: its start tag is made an empty one, or it gets an end tag. */
    method PutEnd(name: Bytes)
      requires InSync() && Filler(indent) && IsName(name)
      requires if tagIsOpen then InStartTag(read.mode) && read.mode.name == name
               else read.mode.Content? && read.tags != [] && read.tags[|read.tags| - 1] == name
      modifies this`tagIsOpen, this`os, this`read
      ensures InSync() && read.mode.Content? && !tagIsOpen
      ensures read.tags == if old(tagIsOpen) then old(read).tags else old(read).tags[..|old(read).tags| - 1]
      ensures Log() == old(Log()) + [Close(name)] && read.fatal == old(read).fatal
    {
      if tagIsOpen {
        PutEmptyTag();
        tagIsOpen := false;
      } else {
        PutFiller(indent);
        PutEndTag(name);
      }
    }

    method PutEmptyTag()
      requires InSync() && InStartTag(read.mode)
      modifies this`os, this`read
      ensures InSync() && read.mode.Content? && read.tags == old(read).tags && read.fatal == old(read).fatal
      ensures Log() == old(Log()) + [Close(old(read).mode.name)]
    {
      RunEmptyTag(read);
      NothingPending();
      PutMarkup("/>");
      NothingHeardAfter(read);
      PutFiller("\n");
    }

    method PutEndTag(name: Bytes)
      requires InSync() && read.mode.Content? && read.tags != []
      requires IsName(name) && name == read.tags[|read.tags| - 1]
      modifies this`os, this`read
      ensures InSync() && read.mode.Content? && read.tags == old(read).tags[..|old(read).tags| - 1]
      ensures Log() == old(Log()) + [Close(name)] && read.fatal == old(read).fatal
    {
      RunEndTag(read, name);
      NothingPending();
      PutMarkup("</" + (name + ">"));
      NothingHeardAfter(read);
      PutFiller("\n");
    }

    // -------------------------------------------------------------------------------------
    // Attributes and text
    // -------------------------------------------------------------------------------------

    /**
     * In an open start tag the reader gets the attribute, elsewhere it sees plain text; attributes
     * without a value are not written. The file is refused if the value is not printable or the
     * attribute is there already.
     */
    method WriteAttribute(name: Bytes, attribute: Bytes)
      requires Valid() && (name == [] || IsName(name))
      modifies this`os, this`read, this`legal
      ensures Valid()
      ensures tagIsOpen ==> old(Log()) != [] && old(Log())[|old(Log())| - 1].Open?
      ensures name == [] || attribute == [] ==> read == old(read) && legal == old(legal)
      ensures name != [] && attribute != [] ==> legal == (old(legal) && Printable(attribute))
      ensures tagIsOpen && name != [] && attribute != [] ==>
                && DocOf(read) == WithAtt(old(DocOf(read)), Att(name, AttValue(Scrubbed(attribute, 0))))
                && read.fatal == (old(read).fatal || HasAtt(AttsSoFar(old(read).mode), name))
      ensures !tagIsOpen ==> read.tags == old(read).tags && read.log == old(read).log
    {
      if name != [] && attribute != [] {
        var value := EncodeTo(attribute, ForAttributes);
        OutputIsClean(attribute, ForAttributes);
        LegalIffPrintable(attribute, ForAttributes);
        if tagIsOpen {
          AttributeComesBack(attribute);
          PutAttribute(name, value, Printable(attribute), AttValue(Scrubbed(attribute, 0)));
        } else {
          PutStray(name, value, Printable(attribute));
        }
      }
    }

    method PutAttribute(name: Bytes, value: Bytes, ghost ok: bool, ghost seen: Bytes)
      requires InSync() && InStartTag(read.mode) && read.text == [] && IsName(name)
      requires '<' !in value && '\"' !in value && Amps(value) && Transparent(value, ok)
      requires seen == Unescape(AttValue(value))
      modifies this`os, this`read, this`legal
      ensures InSync() && read.mode.AfterValue? && read.mode.name == old(read).mode.name
      ensures read.tags == old(read).tags && read.text == [] && legal == (old(legal) && ok)
      ensures DocOf(read) == WithAtt(old(DocOf(read)), Att(name, seen))
      ensures read.fatal == (old(read).fatal || HasAtt(AttsSoFar(old(read).mode), name))
    {
      AttributeRead(read, name, value, seen);
      PutQuoted(name, value, ok);
    }

    method PutQuoted(name: Bytes, value: Bytes, ghost ok: bool)
      requires read == Run(START, os) && Transparent(os, legal) && Transparent(value, ok) && IsName(name)
      modifies this`os, this`read, this`legal
      ensures read == Run(Run(old(read), " " + name), "=\"" + value + "\"") == Run(START, os)
      ensures Transparent(os, legal) && legal == (old(legal) && ok)
    {
      PutMarkup(" " + name);
      QuotedIsTransparent(value, ok);
      Put("=\"" + value + "\"", ok);
    }

    /** Outside a start tag an attribute is a piece of text. */
    method PutStray(name: Bytes, value: Bytes, ghost ok: bool)
      requires InSync() && read.mode.Content? && IsName(name)
      requires '<' !in value && Amps(value) && Transparent(value, ok)
      modifies this`os, this`read, this`legal
      ensures InSync() && read.mode.Content? && legal == (old(legal) && ok)
      ensures read.tags == old(read).tags && read.log == old(read).log
    {
      StrayRead(read, name, value);
      PutQuoted(name, value, ok);
    }

    /**
     * Text right behind a start tag is read back, up to the white space around it; text
     * further on joins the text before it. Either way it is no markup. The file is refused if the
     * text is not printable, or if it makes `]]>` appear.
     */
    method WriteText(text: Bytes, indented: bool)
      requires Valid()
      modifies this`tagIsOpen, this`needsNewline, this`os, this`read, this`legal
      ensures Valid() && tags == old(tags)
      ensures text == [] ==> read == old(read) && legal == old(legal) && tagIsOpen == old(tagIsOpen)
      ensures text != [] ==> !tagIsOpen && legal == (old(legal) && Printable(text))
      ensures old(tagIsOpen) ==> Log() == old(Log()) + Said(LineEnds(Scrubbed(text, 0)))
      ensures old(tagIsOpen) ==> read.fatal == (old(read).fatal || "]]>" <= text)
      ensures text != [] && !old(tagIsOpen) ==>
                read.tags == old(read).tags && read.log == old(read).log
                && read.text == old(read).text + Encoded(text, ForTextNodes)
      ensures text != [] && !old(tagIsOpen) ==>
                read.fatal == (old(read).fatal || HasCdataEnd(old(read).text + Encoded(text, ForTextNodes)))
    {
      if text == [] {
        NothingHeard();
        assert Log() + [] == Log();
        return;
      }
      WriteSome(text, indented);
    }

    method WriteSome(text: Bytes, indented: bool)
      requires Valid() && text != []
      modifies this`tagIsOpen, this`needsNewline, this`os, this`read, this`legal
      ensures Valid() && !tagIsOpen && legal == (old(legal) && Printable(text))
      ensures if old(tagIsOpen)
              then Log() == old(Log()) + Said(LineEnds(Scrubbed(text, 0)))
                   && read.fatal == (old(read).fatal || "]]>" <= text)
              else read.tags == old(read).tags && read.log == old(read).log
                   && read.text == old(read).text + Encoded(text, ForTextNodes)
                   && read.fatal == (old(read).fatal || HasCdataEnd(read.text))
    {
      var tagWasOpen := tagIsOpen;
      Approach(indented);
      ghost var before := read.text;
      PutText(text);
      if tagWasOpen {
        TextHeard(before, text);
      }
      needsNewline := true;
    }

    /** An open start tag is closed and the new line indented; otherwise nothing is written. */
    method Approach(indented: bool)
      requires Valid()
      modifies this`tagIsOpen, this`os, this`read
      ensures Valid() && !tagIsOpen && read.fatal == old(read).fatal
      ensures if old(tagIsOpen) then Filler(read.text) && read.log == old(Log()) else read == old(read)
    {
      var tagWasOpen := tagIsOpen;
      EnsureTagClosed();
      if tagWasOpen && indented {
        PutFiller(indent);
      }
    }

    method PutText(text: Bytes)
      requires InSync() && read.mode.Content? && text != []
      modifies this`os, this`read, this`legal
      ensures InSync() && read.mode.Content? && read.tags == old(read).tags && read.log == old(read).log
      ensures read.text == old(read).text + Encoded(text, ForTextNodes) && legal == (old(legal) && Printable(text))
      ensures read.fatal == (old(read).fatal || HasCdataEnd(read.text))
    {
      var encoded := EncodeTo(text, ForTextNodes);
      OutputIsClean(text, ForTextNodes);
      SomethingIsWritten(text, ForTextNodes);
      LegalIffPrintable(text, ForTextNodes);
      RunText(read, encoded);
      Put(encoded, Printable(text));
    }

    method EnsureTagClosed()
      requires Valid()
      modifies this`tagIsOpen, this`os, this`read
      ensures Valid() && !tagIsOpen && Log() == old(Log()) && read.fatal == old(read).fatal
      ensures if old(tagIsOpen) then read.text == "\n" && read.log == old(Log()) else read == old(read)
    {
      if tagIsOpen {
        RunTagClosed(read);
        NothingPending();
        PutMarkup(">");
        NothingHeardAfter(read);
        PutFiller("\n");
        tagIsOpen := false;
      }
    }

    method NewlineIfNecessary()
      requires Valid()
      modifies this`needsNewline, this`os, this`read
      ensures Valid() && !needsNewline && Log() == old(Log()) && read.fatal == old(read).fatal
    {
      if needsNewline {
        PutFiller("\n");
        needsNewline := false;
      }
    }

    /** A reader accepts the declaration at the beginning of the file only. */
    method WriteDeclaration()
      requires Valid() && !tagIsOpen
      modifies this`os, this`read
      ensures Valid() && Log() == old(Log()) && read.fatal == (old(read).fatal || !old(read).mode.atStart)
    {
      PutDeclaration(DECLARATION);
    }

    method PutDeclaration(text: Instruction)
      requires Valid() && !tagIsOpen
      modifies this`os, this`read
      ensures Valid() && Log() == old(Log())
      ensures read.fatal == (old(read).fatal || !old(read).mode.atStart || !IsDeclaration(text))
    {
      PutInstruction(text);
      NothingPending();
      NothingHeardAfter(read);
      PutFiller("\n");
    }

    method PutInstruction(text: Instruction)
      requires read == Run(START, os) && Transparent(os, legal)
      requires read.mode.Content? && Amps(read.text)
      modifies this`os, this`read
      ensures read == Run(START, os) && Transparent(os, legal)
      ensures read == Reader(Content(false), old(read).tags, old(Log()), [],
                             old(read).fatal || !old(read).mode.atStart || !IsDeclaration(text))
    {
      RunDeclaration(read, text);
      PutMarkup("<?");
      PutMarkup(text);
      PutMarkup("?>");
    }

    /** The destructor closes what is still open, innermost first. */
    method Destroy()
      requires Valid()
      modifies this`tagIsOpen, this`needsNewline, this`tags, this`indent, this`os, this`read
      ensures Valid() && tags == [] && Log() == old(Log()) + Closes(old(tags)) && Sound() == old(Sound())
    {
      ghost var all := Log() + Closes(tags);
      while tags != []
        invariant Valid() && Log() + Closes(tags) == all && read.fatal == old(read).fatal
        decreases |tags|
      {
        CloseNext(Log(), tags);
        EndElement();
      }
    }
  }

  // ---------------------------------------------------------------------------------------
  // Lemmas about single pieces
  // ---------------------------------------------------------------------------------------

  lemma Pushed(r: Reader, tags: seq<Bytes>, name: Bytes)
    requires r.mode == StartName(name) && r.text == [] && r.tags == tags && IsName(name)
    requires forall k :: 0 <= k < |tags| ==> IsName(tags[k])
    ensures Agrees(r, true, false, tags + [name], Spaces(2 * |tags|) + "  ")
  {
    assert Spaces(2 * |tags|) + "  " == Spaces(2 * (|tags| + 1));
  }

  lemma Popped(r: Reader, tags: seq<Bytes>)
    requires tags != [] && r.mode.Content? && r.tags == tags[..|tags| - 1]
    requires forall k :: 0 <= k < |tags| ==> IsName(tags[k])
    ensures Agrees(r, false, false, tags[..|tags| - 1], Spaces(2 * (|tags| - 1)))
  {
  }

  lemma NothingHeard()
    ensures Heard([]) == [] && Said(LineEnds(Scrubbed([], 0))) == []
  {
  }

  lemma NothingHeardAfter(r: Reader)
    requires r.text == []
    ensures r.log + Heard(r.text) == r.log
  {
    NothingHeard();
  }

  lemma NothingPending()
    ensures Amps([]) && !HasCdataEnd([])
  {
  }

  lemma RunFiller(r: Reader, w: Bytes)
    requires r.mode.Content? && Filler(w) && w != [] && Settled(r)
    ensures Run(r, w) == Reader(Content(false), r.tags, r.log, r.text + w, r.fatal)
    ensures Settled(Run(r, w)) && DocOf(Run(r, w)) == DocOf(r)
  {
    RunContent(r, w);
    CdataEndBeforeFiller(r.text, w);
    AmpsOfFiller(w);
    AmpsJoin(r.text, w);
    HeardBeforeFiller(r.text, w);
  }

  lemma RunText(r: Reader, t: Bytes)
    requires r.mode.Content? && t != [] && '<' !in t && Amps(t) && Settled(r)
    ensures Run(r, t) == Reader(Content(false), r.tags, r.log, r.text + t, r.fatal || HasCdataEnd(r.text + t))
    ensures Settled(Run(r, t))
  {
    RunContent(r, t);
    AmpsJoin(r.text, t);
  }

  lemma NoAmpsIn(t: Bytes)
    requires '&' !in t
    ensures Amps(t)
  {
  }

  lemma QuotedAmps(value: Bytes)
    requires Amps(value)
    ensures Amps("=\"" + value + "\"")
  {
    NoAmpsIn("=\"");
    NoAmpsIn("\"");
    AmpsJoin("=\"", value);
    AmpsJoin("=\"" + value, "\"");
  }

  lemma QuotedIsTransparent(value: Bytes, ok: bool)
    requires Transparent(value, ok)
    ensures Transparent("=\"" + value + "\"", ok)
  {
    AsciiIsTransparent("=\"");
    AsciiIsTransparent("\"");
    TransparentJoins("=\"", value, true, ok);
    TransparentJoins("=\"" + value, "\"", ok, true);
  }

  lemma SomethingIsWritten(s: Bytes, forWhat: ForWhat)
    requires s != []
    ensures Encoded(s, forWhat) != []
  {
    assert |Write(Cut(s, 0, forWhat))| >= 1;
  }

  lemma StrayRead(r: Reader, name: Bytes, value: Bytes)
    requires r.mode.Content? && Settled(r) && IsName(name) && '<' !in value && Amps(value)
    ensures var after := Run(Run(r, " " + name), "=\"" + value + "\"");
            && Settled(after) && after.mode.Content? && after.tags == r.tags && after.log == r.log
  {
    NoAmpsIn(" " + name);
    QuotedAmps(value);
    RunText(r, " " + name);
    RunText(Run(r, " " + name), "=\"" + value + "\"");
  }

  lemma AttributeRead(r: Reader, name: Bytes, value: Bytes, seen: Bytes)
    requires InStartTag(r.mode) && r.text == [] && IsName(name) && seen == Unescape(AttValue(value))
    requires '<' !in value && '\"' !in value && Amps(value)
    ensures var after := Run(Run(r, " " + name), "=\"" + value + "\"");
            && Settled(after) && after.mode.AfterValue? && after.mode.name == r.mode.name
            && after.tags == r.tags && after.text == [] && DocOf(after) == WithAtt(DocOf(r), Att(name, seen))
            && after.fatal == (r.fatal || HasAtt(AttsSoFar(r.mode), name))
  {
    RunAttribute(r, name, value);
    NothingPending();
  }

  /** What is heard of a text behind a start tag, its line end and the indentation. */
  lemma TextHeard(before: Bytes, text: Bytes)
    requires Filler(before)
    ensures Heard(before + Encoded(text, ForTextNodes)) == Said(LineEnds(Scrubbed(text, 0)))
    ensures HasCdataEnd(before + Encoded(text, ForTextNodes)) <==> "]]>" <= text
  {
    HeardAfterFiller(before, Encoded(text, ForTextNodes));
    TextComesBack(text);
    CdataEndAfterFiller(before, Encoded(text, ForTextNodes));
    CdataEndOnlyAtStart(text, ForTextNodes);
  }

  function Closes(tags: seq<Bytes>): (events: seq<Event>) {
    if tags == [] then [] else [Close(tags[|tags| - 1])] + Closes(tags[..|tags| - 1])
  }

  lemma CloseNext(log: seq<Event>, tags: seq<Bytes>)
    requires tags != []
    ensures (log + [Close(tags[|tags| - 1])]) + Closes(tags[..|tags| - 1]) == log + Closes(tags)
  {
    Assoc(log, [Close(tags[|tags| - 1])], Closes(tags[..|tags| - 1]));
  }

  lemma {:induction false} RunInDeclaration(r: Reader, t: Bytes)
    requires r.mode.Declaration? && '?' !in t
    ensures Run(r, t) == r.(mode := Declaration(r.mode.said + t))
    decreases |t|
  {
    if t == [] {
      assert r.mode.said + t == r.mode.said;
    } else {
      RunInDeclaration(Step(r, t[0]), t[1..]);
      Assoc(r.mode.said, [t[0]], t[1..]);
      assert [t[0]] + t[1..] == t;
    }
  }

  lemma RunDeclaration(r: Reader, text: Bytes)
    requires r.mode.Content? && '?' !in text && Amps(r.text)
    ensures Run(Run(Run(r, "<?"), text), "?>")
         == Reader(Content(false), r.tags, DocOf(r).log, [], r.fatal || !r.mode.atStart || !IsDeclaration(text))
  {
    DeclarationBegins(r);
    RunInDeclaration(Run(r, "<?"), text);
    assert [] + text == text;
    DeclarationEnds(Run(r, "<?").(mode := Declaration(text)));
  }

  lemma DeclarationBegins(r: Reader)
    requires r.mode.Content? && Amps(r.text)
    ensures Run(r, "<?") == Reader(Declaration([]), r.tags, DocOf(r).log, [], r.fatal || !r.mode.atStart)
  {
    RunTwo(r, '<', '?');
  }

  lemma DeclarationEnds(r: Reader)
    requires r.mode.Declaration?
    ensures Run(r, "?>") == r.(mode := Content(false), fatal := r.fatal || !IsDeclaration(r.mode.said))
  {
    RunTwo(r, '?', '>');
  }
}
