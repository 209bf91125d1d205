/**
 * The XML reporter: the callbacks of a test run drive the writer. A reader accepts the output
 * exactly if the names and texts of the run are fit for it, and then gets the prescribed document.
 */
module XmlReport {
  import opened Common
  import opened XmlEncode
  import opened XmlDecode
  import opened XmlChars
  import opened XmlLines
  import opened XmlReader
  import opened XmlOutput
  import opened XmlDocument

  class XmlReporter {
    const xml: XmlWriter
    const opt: Options
    var tc: Option<TestCaseData>

    /** The elements, attributes and texts handed to the writer. */
    ghost var log: seq<Event>

    /** `SeenAll` and `FitsAll` as values, so that proofs about callbacks need not look inside them. */
    ghost const seen: seq<Event> -> seq<Event>
    ghost const fits: seq<Event> -> bool

    ghost predicate Valid()
      reads this, xml
    {
      && xml.Valid() && xml.Log() == seen(log) && xml.Sound() == fits(log)
      && (forall x {:trigger SeenAll(x)} :: seen(x) == SeenAll(x))
      && (forall x {:trigger FitsAll(x)} :: fits(x) == FitsAll(x))
    }

    constructor (opt: Options)
      ensures Valid() && fresh(xml) && this.opt == opt && tc == None && log == []
      ensures xml.tags == [] && !xml.tagIsOpen && xml.read == START && xml.os == []
    {
      xml := new XmlWriter();
      this.opt, tc, log := opt, None, [];
      seen, fits := x => SeenAll(x), x => FitsAll(x);
      new;
      assert SeenAll([]) == [] && FitsAll([]);
    }

    // -------------------------------------------------------------------------------------
    // Elements
    // -------------------------------------------------------------------------------------

    /** Behind `before` the start tag of `name` is being written, with `atts` so far. */
    ghost predicate Writing(before: seq<Event>, fit: bool, name: Bytes, atts: seq<Att>)
      reads xml
    {
      && xml.Valid() && xml.tagIsOpen && xml.Log() == before + [Open(name, SeenAtts(atts))]
      && xml.Sound() == (fit && FitsAtts(atts))
    }

    /** `startElement` and a chain of `writeAttribute`. */
    method Begin(name: Name, atts: seq<Att>)
      requires Valid() && Distinct(atts)
      modifies this`log, xml
      ensures Valid() && xml.tagIsOpen && xml.tags == old(xml.tags) + [name]
      ensures log == old(log) + [Open(name, atts)]
    {
      xml.StartElement(name);
      WriteAttributes(name, atts, seen(log), fits(log));
      SeenNext(log, Open(name, atts));
      log := log + [Open(name, atts)];
    }

    method WriteAttributes(name: Name, atts: seq<Att>, ghost before: seq<Event>, ghost fit: bool)
      requires Writing(before, fit, name, []) && Distinct(atts)
      modifies xml`os, xml`read, xml`legal
      ensures Writing(before, fit, name, atts)
    {
      for k := 0 to |atts|
        invariant Writing(before, fit, name, atts[..k])
      {
        NotYetSeen(atts, k);
        Attribute(atts[k], before, fit, name, atts[..k]);
        assert atts[..k] + [atts[k]] == atts[..k + 1];
      }
      assert atts[..|atts|] == atts;
    }

    method Attribute(att: Att, ghost before: seq<Event>, ghost fit: bool, ghost name: Bytes, ghost atts: seq<Att>)
      requires Writing(before, fit, name, atts) && IsName(att.name) && !HasAtt(SeenAtts(atts), att.name)
      modifies xml`os, xml`read, xml`legal
      ensures Writing(before, fit, name, atts + [att])
    {
      SeenAttsLast(atts, att);
      WriteAttribute(att, before, name, SeenAtts(atts));
    }

    method WriteAttribute(att: Att, ghost base: seq<Event>, ghost name: Bytes, ghost sofar: seq<Att>)
      requires xml.Valid() && xml.tagIsOpen && IsName(att.name)
      requires xml.Log() == base + [Open(name, sofar)] && !HasAtt(sofar, att.name)
      modifies xml`os, xml`read, xml`legal
      ensures xml.Valid() && xml.Log() == base + [Open(name, sofar + SeenAtt(att))]
      ensures xml.Sound() == (old(xml.Sound()) && Printable(att.value))
    {
      LastIsOpen(xml.read, base, name, sofar);
      if att.value == [] {
        assert sofar + [] == sofar;
      } else {
        ExtendsLast(base, name, sofar, Att(att.name, AttValue(Scrubbed(att.value, 0))), DocOf(xml.read).tags);
      }
      xml.WriteAttribute(att.name, att.value);
    }

    method Say(text: Bytes)
      requires Valid() && xml.tagIsOpen
      modifies this`log, xml
      ensures Valid() && xml.tags == old(xml.tags) && log == old(log) + [Text(text)]
    {
      NothingIsSaid();
      xml.WriteText(text, true);
      SeenNext(log, Text(text));
      log := log + [Text(text)];
    }

    method End()
      requires Valid() && xml.tags != []
      modifies this`log, xml
      ensures Valid() && !xml.tagIsOpen && xml.tags == old(xml.tags)[..|old(xml.tags)| - 1]
      ensures log == old(log) + [Close(old(xml.tags)[|old(xml.tags)| - 1])]
    {
      ghost var close := Close(xml.tags[|xml.tags| - 1]);
      xml.EndElement();
      SeenNext(log, close);
      log := log + [close];
    }

    /** `scopedElement`, its attributes and its text, closed at the end of the statement. */
    method Scoped(name: Name, atts: seq<Att>, text: Bytes)
      requires Valid() && Distinct(atts)
      modifies this`log, xml
      ensures Valid() && !xml.tagIsOpen && xml.tags == old(xml.tags)
      ensures log == old(log) + Elem(name, atts, [Text(text)])
    {
      Begin(name, atts);
      Say(text);
      End();
      Wrapped(old(log), name, atts, [Text(text)], log);
    }

    /** An element with attributes only. */
    method Empty(name: Name, atts: seq<Att>)
      requires Valid() && Distinct(atts)
      modifies this`log, xml
      ensures Valid() && !xml.tagIsOpen && xml.tags == old(xml.tags)
      ensures log == old(log) + Elem(name, atts, [])
    {
      Begin(name, atts);
      assert log + [] == log;
      End();
      Wrapped(old(log), name, atts, [], log);
    }

    method ScopedIf(c: bool, name: Name, text: Bytes) returns (ghost events: seq<Event>)
      requires Valid()
      modifies this`log, xml
      ensures Valid() && xml.tags == old(xml.tags) && log == old(log) + events
      ensures events == When(c, name, text)
    {
      events := When(c, name, text);
      if c {
        Scoped(name, [], text);
      }
    }

    method LogContexts(infos: seq<Bytes>)
      requires Valid()
      modifies this`log, xml
      ensures Valid() && xml.tags == old(xml.tags) && log == old(log) + Infos(infos)
    {
      for k := 0 to |infos|
        invariant Valid() && xml.tags == old(xml.tags) && log == old(log) + Infos(infos[..k])
      {
        Scoped(INFO, [], infos[k]);
        assert infos[..k + 1][..k] == infos[..k];
        Assoc(old(log), Infos(infos[..k]), Leaf(INFO, infos[k]));
      }
      assert infos[..|infos|] == infos;
    }

    method LogParts(a: AssertData, infos: seq<Bytes>)
      requires Valid()
      modifies this`log, xml
      ensures Valid() && xml.tags == old(xml.tags) && log == old(log) + CheckParts(a, infos)
    {
      Scoped(ORIGINAL, [], a.expr);
      var thrown := ScopedIf(a.threw, EXCEPTION, a.exception);
      var parts := Joined(old(log), Leaf(ORIGINAL, a.expr), thrown, log);
      LogOutcome(a);
      parts := Joined(old(log), parts, Outcome(a), log);
      LogContexts(infos);
      parts := Joined(old(log), parts, Infos(infos), log);
    }

    method LogOutcome(a: AssertData)
      requires Valid()
      modifies this`log, xml
      ensures Valid() && xml.tags == old(xml.tags) && log == old(log) + Outcome(a)
    {
      var parts := ScopedIf(a.throwsAs, EXPECTED_EXCEPTION, a.exceptionType);
      var message := ScopedIf(a.throwsWith, EXPECTED_EXCEPTION_STRING, a.exceptionString);
      parts := Joined(old(log), parts, message, log);
      var expanded := ScopedIf(a.normal && !a.threw, EXPANDED, a.decomp);
      parts := Joined(old(log), parts, expanded, log);
    }

    method LogAssert(a: AssertData, infos: seq<Bytes>)
      requires Valid()
      modifies this`log, xml
      ensures Valid() && xml.tags == old(xml.tags) && log == old(log) + CheckEvents(opt, a, infos)
    {
      if !a.failed && !opt.success {
        return;
      }
      CheckAttsDistinct(opt, a);
      Begin(EXPRESSION, CheckAtts(opt, a));
      LogParts(a, infos);
      End();
      Wrapped(old(log), EXPRESSION, CheckAtts(opt, a), CheckParts(a, infos), log);
    }

    method LogMessage(m: MessageData, infos: seq<Bytes>)
      requires Valid()
      modifies this`log, xml
      ensures Valid() && xml.tags == old(xml.tags) && log == old(log) + NoteEvents(opt, m, infos)
    {
      NoteAttsDistinct(opt, m);
      Begin(MESSAGE, NoteAtts(opt, m));
      ghost var before := log;
      Scoped(TEXT, [], m.text);
      LogContexts(infos);
      var inner := Joined(before, Leaf(TEXT, m.text), Infos(infos), log);
      End();
      Wrapped(old(log), MESSAGE, NoteAtts(opt, m), inner, log);
    }

    // The callbacks of a run.

    /** Between two test cases: inside the root element, and inside a suite once there was a case. */
    ghost predicate BetweenCases()
      reads this, xml
    {
      Valid() && xml.tags == [DOCTEST] + (if tc.Some? then [TEST_SUITE] else [])
    }

    method TestRunStart()
      requires Valid() && xml.tags == [] && !xml.tagIsOpen && tc == None && log == [] && xml.read == START
      modifies this`log, xml
      ensures BetweenCases() && log == [Open(DOCTEST, RunAtts(opt))] + Elem(OPTIONS, OptionAtts(opt), [])
    {
      Declare();
      OpenRoot();
      ShowOptions();
    }

    method Declare()
      requires Valid() && xml.tags == [] && !xml.tagIsOpen && xml.read == START
      modifies xml
      ensures Valid() && xml.tags == []
    {
      xml.WriteDeclaration();
    }

    method OpenRoot()
      requires Valid() && xml.tags == [] && log == []
      modifies this`log, xml
      ensures Valid() && xml.tags == [DOCTEST] && log == [Open(DOCTEST, RunAtts(opt))]
    {
      RunAttsDistinct(opt);
      Begin(DOCTEST, RunAtts(opt));
    }

    method ShowOptions()
      requires Valid()
      modifies this`log, xml
      ensures Valid() && xml.tags == old(xml.tags) && log == old(log) + Elem(OPTIONS, OptionAtts(opt), [])
    {
      OptionAttsDistinct(opt);
      Empty(OPTIONS, OptionAtts(opt));
    }

    method TestRunEnd(p: RunStats)
      requires BetweenCases()
      modifies this`log, xml
      ensures Valid() && xml.tags == [] && !xml.tagIsOpen
      ensures log == old(log) + CloseSuite(tc) + Totals(opt, p) + [Close(DOCTEST)]
    {
      LeaveSuite();
      RunTotals(p);
      End();
    }

    /** Closes the suite of the last case, if there was a case. */
    method LeaveSuite()
      requires BetweenCases()
      modifies this`log, xml
      ensures Valid() && xml.tags == [DOCTEST] && log == old(log) + CloseSuite(tc)
    {
      if tc.Some? {
        End();
      }
    }

    method RunTotals(p: RunStats)
      requires Valid()
      modifies this`log, xml
      ensures Valid() && xml.tags == old(xml.tags) && log == old(log) + Totals(opt, p)
    {
      TotalsDistinct(opt, p);
      Empty(OVERALL_RESULTS_ASSERTS, AssertResults(p));
      Empty(OVERALL_RESULTS_TEST_CASES, CaseTotals(opt, p));
      var totals := Joined(old(log), Elem(OVERALL_RESULTS_ASSERTS, AssertResults(p), []),
                           Elem(OVERALL_RESULTS_TEST_CASES, CaseTotals(opt, p), []), log);
    }

    method TestCaseStartImpl(tc': TestCaseData)
      requires BetweenCases()
      modifies this, xml
      ensures Valid() && xml.tagIsOpen && xml.tags == [DOCTEST, TEST_SUITE, TEST_CASE] && tc == Some(tc')
      ensures log == old(log) + SuiteChange(old(tc), tc') + [Open(TEST_CASE, CaseAtts(opt, tc'))]
    {
      ChangeSuite(tc');
      tc := Some(tc');
      CaseAttsDistinct(opt, tc');
      Begin(TEST_CASE, CaseAtts(opt, tc'));
    }

    /** Leaves the suite of the case before, if there is one, and enters that of the next case. */
    method ChangeSuite(next: TestCaseData)
      requires BetweenCases()
      modifies this`log, xml
      ensures Valid() && xml.tags == [DOCTEST, TEST_SUITE]
      ensures log == old(log) + SuiteChange(tc, next)
    {
      var openSuite := false;
      if tc.Some? {
        if tc.value.suite != next.suite {
          End();
          openSuite := true;
        }
      } else {
        openSuite := true;
      }
      if openSuite {
        OpenSuite(next.suite);
      }
    }

    method OpenSuite(suite: Bytes)
      requires Valid() && xml.tags == [DOCTEST]
      modifies this`log, xml
      ensures Valid() && xml.tags == [DOCTEST, TEST_SUITE]
      ensures log == old(log) + [Open(TEST_SUITE, [Att(NAME, suite)])]
    {
      Begin(TEST_SUITE, [Att(NAME, suite)]);
    }

    method TestCaseStart(tc': TestCaseData)
      requires BetweenCases()
      modifies this, xml
      ensures Valid() && !xml.tagIsOpen && xml.tags == [DOCTEST, TEST_SUITE, TEST_CASE] && tc == Some(tc')
      ensures log == old(log) + SuiteChange(old(tc), tc') + [Open(TEST_CASE, CaseAtts(opt, tc'))]
    {
      TestCaseStartImpl(tc');
      xml.EnsureTagClosed();
    }

    method TestCaseEnd(st: CaseStats)
      requires Valid() && xml.tags != [] && tc.Some?
      modifies this`log, xml
      ensures Valid() && xml.tags == old(xml.tags)[..|old(xml.tags)| - 1]
      ensures log == old(log) + Elem(OVERALL_RESULTS_ASSERTS, CaseResults(opt, tc.value, st), [])
                   + [Close(old(xml.tags)[|old(xml.tags)| - 1])]
    {
      ResultsOfCase(st);
      End();
    }

    method ResultsOfCase(st: CaseStats)
      requires Valid() && tc.Some?
      modifies this`log, xml
      ensures Valid() && xml.tags == old(xml.tags)
      ensures log == old(log) + Elem(OVERALL_RESULTS_ASSERTS, CaseResults(opt, tc.value, st), [])
    {
      CaseResultsDistinct(opt, tc.value, st);
      Empty(OVERALL_RESULTS_ASSERTS, CaseResults(opt, tc.value, st));
    }

    method TestCaseSkipped(tc': TestCaseData)
      requires BetweenCases()
      modifies this, xml
      ensures BetweenCases() && tc == if opt.noSkippedSummary then old(tc) else Some(tc')
      ensures log == if opt.noSkippedSummary then old(log)
                     else old(log) + SuiteChange(old(tc), tc') + CaseEvents(opt, Skipped(tc'))
    {
      if !opt.noSkippedSummary {
        ghost var base := log + SuiteChange(tc, tc');
        TestCaseStartImpl(tc');
        MarkSkipped(tc', base);
      }
    }

    method MarkSkipped(tc': TestCaseData, ghost base: seq<Event>)
      requires Valid() && xml.tagIsOpen && xml.tags != [] && xml.tags[|xml.tags| - 1] == TEST_CASE
      requires log == base + [Open(TEST_CASE, CaseAtts(opt, tc'))]
      modifies this`log, xml
      ensures Valid() && xml.tags == old(xml.tags)[..|old(xml.tags)| - 1]
      ensures log == base + CaseEvents(opt, Skipped(tc'))
    {
      AddSkipped(tc', base);
      assert log + [] == log;
      End();
      Wrapped(base, TEST_CASE, CaseAtts(opt, tc') + [Att(SKIPPED, "true")], [], log);
    }

    method AddSkipped(tc': TestCaseData, ghost base: seq<Event>)
      requires Valid() && xml.tagIsOpen && log == base + [Open(TEST_CASE, CaseAtts(opt, tc'))]
      modifies this`log, xml`os, xml`read, xml`legal
      ensures Valid() && log == base + [Open(TEST_CASE, CaseAtts(opt, tc') + [Att(SKIPPED, "true")])]
    {
      var skipped := Att(SKIPPED, "true");
      ghost var atts := CaseAtts(opt, tc');
      SkippedIsNew(opt, tc');
      SeenNext(base, Open(TEST_CASE, atts));
      Attribute(skipped, SeenAll(base), FitsAll(base), TEST_CASE, atts);
      SeenNext(base, Open(TEST_CASE, atts + [skipped]));
      log := base + [Open(TEST_CASE, atts + [skipped])];
    }

    method TestCaseException(error: Bytes, isCrash: bool)
      requires Valid()
      modifies this`log, xml
      ensures Valid() && xml.tags == old(xml.tags)
      ensures log == old(log) + Elem(EXCEPTION, [Att(CRASH, Truth(isCrash))], [Text(error)])
    {
      Scoped(EXCEPTION, [Att(CRASH, Truth(isCrash))], error);
    }

    method SubcaseStart(sig: SubcaseData)
      requires Valid()
      modifies this`log, xml
      ensures Valid() && !xml.tagIsOpen && xml.tags == old(xml.tags) + [SUB_CASE]
      ensures log == old(log) + [Open(SUB_CASE, SubAtts(opt, sig))]
    {
      SubAttsDistinct(opt, sig);
      Begin(SUB_CASE, SubAtts(opt, sig));
      xml.EnsureTagClosed();
    }

    method SubcaseEnd()
      requires Valid() && xml.tags != []
      modifies this`log, xml
      ensures Valid() && xml.tags == old(xml.tags)[..|old(xml.tags)| - 1]
      ensures log == old(log) + [Close(old(xml.tags)[|old(xml.tags)| - 1])]
    {
      End();
    }

    // Whole test cases.

    method RunItems(items: seq<Item>)
      requires Valid()
      modifies this`log, xml
      ensures Valid() && xml.tags == old(xml.tags) && log == old(log) + ItemsEvents(opt, items)
      decreases items, 0
    {
      if items != [] {
        RunItem(items[0]);
        RunItems(items[1..]);
        Assoc(old(log), ItemEvents(opt, items[0]), ItemsEvents(opt, items[1..]));
      }
    }

    method RunItem(item: Item)
      requires Valid()
      modifies this`log, xml
      ensures Valid() && xml.tags == old(xml.tags) && log == old(log) + ItemEvents(opt, item)
      decreases item, 1
    {
      match item
      case Check(a, infos) => LogAssert(a, infos);
      case Note(m, infos) => LogMessage(m, infos);
      case Crash(error, isCrash) => TestCaseException(error, isCrash);
      case Sub(sig, body) =>
        SubcaseStart(sig);
        RunItems(body);
        SubcaseEnd();
        Wrapped(old(log), SUB_CASE, SubAtts(opt, sig), ItemsEvents(opt, body), log);
    }

    method RunCase(c: Case)
      requires BetweenCases()
      modifies this, xml
      ensures BetweenCases()
      ensures if Shows(opt, c) then tc == Some(c.tc) && log == old(log) + SuiteChange(old(tc), c.tc) + CaseEvents(opt, c)
              else tc == old(tc) && log == old(log)
    {
      match c
      case Skipped(data) => TestCaseSkipped(data);
      case Ran(_, _, _) => RunFully(c);
    }

    method RunFully(c: Case)
      requires BetweenCases() && c.Ran?
      modifies this, xml
      ensures BetweenCases() && tc == Some(c.tc)
      ensures log == old(log) + SuiteChange(old(tc), c.tc) + CaseEvents(opt, c)
    {
      TestCaseStart(c.tc);
      FinishCase(c, old(log) + SuiteChange(old(tc), c.tc));
    }

    method FinishCase(c: Case, ghost base: seq<Event>)
      requires Valid() && c.Ran? && tc == Some(c.tc) && xml.tags != [] && xml.tags[|xml.tags| - 1] == TEST_CASE
      requires log == base + [Open(TEST_CASE, CaseAtts(opt, c.tc))]
      modifies this`log, xml
      ensures Valid() && xml.tags == old(xml.tags)[..|old(xml.tags)| - 1] && log == base + CaseEvents(opt, c)
    {
      RunItems(c.body);
      TestCaseEnd(c.stats);
      RanCase(opt, c, base, old(log), log);
    }

    /** The cases in their order, then the end of the run. */
    method RunCases(cases: seq<Case>, p: RunStats)
      requires BetweenCases() && tc == None
      modifies this, xml
      ensures Valid() && xml.tags == [] && !xml.tagIsOpen
      ensures log == old(log) + Suites(opt, Reported(opt, cases)) + Totals(opt, p) + [Close(DOCTEST)]
    {
      ghost var all := old(log) + Rest(opt, None, Reported(opt, cases));
      for k := 0 to |cases|
        invariant BetweenCases() && log + Rest(opt, tc, Reported(opt, cases[k..])) == all
      {
        ghost var before, tcBefore := log, tc;
        RunCase(cases[k]);
        RestNext(opt, tcBefore, cases[k..], before, log);
      }
      RestIsSuites(opt, Reported(opt, cases));
      TestRunEnd(p);
    }
  }

  lemma Joined(base: seq<Event>, a: seq<Event>, b: seq<Event>, all: seq<Event>) returns (ab: seq<Event>)
    requires all == (base + a) + b
    ensures ab == a + b && all == base + ab
  {
    Assoc(base, a, b);
    ab := a + b;
  }

  lemma Wrapped(base: seq<Event>, name: Name, atts: seq<Att>, inner: seq<Event>, all: seq<Event>)
    requires all == (base + [Open(name, atts)]) + inner + [Close(name)]
    ensures all == base + Elem(name, atts, inner)
  {
    Assoc(base, [Open(name, atts)], inner);
    Assoc(base, [Open(name, atts)] + inner, [Close(name)]);
  }

  lemma RanCase(opt: Options, c: Case, base: seq<Event>, before: seq<Event>, after: seq<Event>)
    requires c.Ran? && before == base + [Open(TEST_CASE, CaseAtts(opt, c.tc))]
    requires after == before + ItemsEvents(opt, c.body)
                      + Elem(OVERALL_RESULTS_ASSERTS, CaseResults(opt, c.tc, c.stats), []) + [Close(TEST_CASE)]
    ensures after == base + CaseEvents(opt, c)
  {
    var results := Elem(OVERALL_RESULTS_ASSERTS, CaseResults(opt, c.tc, c.stats), []);
    var inner := Joined(before, ItemsEvents(opt, c.body), results, before + ItemsEvents(opt, c.body) + results);
    Wrapped(base, TEST_CASE, CaseAtts(opt, c.tc), inner, after);
  }

  lemma LastIsOpen(r: Reader, base: seq<Event>, name: Bytes, seen: seq<Att>)
    requires InStartTag(r.mode) && DocOf(r).log == base + [Open(name, seen)]
    ensures AttsSoFar(r.mode) == seen && r.mode.name == name && r.log == base
  {
    var log := base + [Open(name, seen)];
    assert log[|log| - 1] == Open(name, seen) && log[..|log| - 1] == base;
    assert DocOf(r).log[|DocOf(r).log| - 1] == Open(r.mode.name, AttsSoFar(r.mode));
    assert DocOf(r).log[..|DocOf(r).log| - 1] == r.log;
  }

  lemma ExtendsLast(base: seq<Event>, name: Bytes, atts: seq<Att>, att: Att, tags: seq<Bytes>)
    ensures WithAtt(XmlReader.Doc(tags, base + [Open(name, atts)]), att).log == base + [Open(name, atts + [att])]
  {
    var log := base + [Open(name, atts)];
    assert log[..|log| - 1] == base;
  }

  lemma NothingIsSaid()
    ensures SeenOne(Text([])) == [] && FitsOne(Text([])) && Printable([])
  {
  }
}
