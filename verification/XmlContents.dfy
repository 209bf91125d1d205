/**
 * What a report says, row by row: every element with the elements it stands in, its attributes and
 * its text, written down from the data of the run with the names as they stand in the file.
 */
module XmlContents {
  import opened Common
  import opened XmlEncode
  import opened XmlDecode
  import opened XmlLines
  import opened XmlReader
  import opened XmlDocument

  datatype Head = Head(tag: Bytes, atts: seq<Att>)

  /** An element: the open elements around it, outermost first, and the text it begins with. */
  datatype Row = Row(within: seq<Head>, head: Head, text: Bytes)

  function TextOf(events: seq<Event>): (text: Bytes) {
    if events != [] && events[0].Text? then events[0].text else []
  }

  /** The elements of a document in the order of their start tags. */
  function Rows(within: seq<Head>, events: seq<Event>): (rows: seq<Row>)
    decreases |events|
  {
    if events == [] then []
    else
      match events[0]
      case Open(tag, atts) =>
        [Row(within, Head(tag, atts), TextOf(events[1..]))] + Rows(within + [Head(tag, atts)], events[1..])
      case Close(_) => Rows(if within == [] then [] else within[..|within| - 1], events[1..])
      case Text(_) => Rows(within, events[1..])
  }

  // ---------------------------------------------------------------------------------------
  // The rows a run should give
  // ---------------------------------------------------------------------------------------

  /** A text as a reader gets it: white space around it is not part of it. */
  ghost function Words(text: Bytes): (t: Bytes) {
    Trim(LineEnds(Scrubbed(text, 0)))
  }

  ghost function Says(within: seq<Head>, tag: Bytes, text: Bytes): (row: Row) {
    Row(within, Head(tag, []), Words(text))
  }

  ghost function InfoRows(within: seq<Head>, infos: seq<Bytes>): (rows: seq<Row>) {
    if infos == [] then [] else InfoRows(within, infos[..|infos| - 1]) + [Says(within, "Info", infos[|infos| - 1])]
  }

  /** The file and the line, as far as the options let them be shown. */
  function Place(opt: Options, file: Bytes, line: nat): (atts: seq<Att>) {
    [Att("filename", if opt.noPathInFilenames then BaseName(file) else file),
     Att("line", if opt.noLineNumbers then "0" else Decimal(line))]
  }

  ghost function CheckHead(opt: Options, a: AssertData): (head: Head) {
    Head("Expression",
      SeenAtts([Att("success", if a.failed then "false" else "true"), Att("type", a.kind)] + Place(opt, a.file, a.line)))
  }

  ghost function OutcomeRows(within: seq<Head>, a: AssertData): (rows: seq<Row>) {
    (if a.throwsAs then [Says(within, "ExpectedException", a.exceptionType)] else [])
    + (if a.throwsWith then [Says(within, "ExpectedExceptionString", a.exceptionString)] else [])
    + (if a.normal && !a.threw then [Says(within, "Expanded", a.decomp)] else [])
  }

  ghost function PartRows(within: seq<Head>, a: AssertData, infos: seq<Bytes>): (rows: seq<Row>) {
    [Says(within, "Original", a.expr)] + (if a.threw then [Says(within, "Exception", a.exception)] else [])
    + OutcomeRows(within, a) + InfoRows(within, infos)
  }

  ghost function CheckRows(opt: Options, within: seq<Head>, a: AssertData, infos: seq<Bytes>): (rows: seq<Row>) {
    if a.failed || opt.success then
      [Row(within, CheckHead(opt, a), [])] + PartRows(within + [CheckHead(opt, a)], a, infos)
    else []
  }

  ghost function NoteRows(opt: Options, within: seq<Head>, m: MessageData, infos: seq<Bytes>): (rows: seq<Row>) {
    var head := Head("Message", SeenAtts([Att("type", m.severity)] + Place(opt, m.file, m.line)));
    var inside := within + [head];
    [Row(within, head, [])] + ([Says(inside, "Text", m.text)] + InfoRows(inside, infos))
  }

  ghost function ItemRows(opt: Options, within: seq<Head>, item: Item): (rows: seq<Row>)
    decreases item, 1
  {
    match item
    case Check(a, infos) => CheckRows(opt, within, a, infos)
    case Note(m, infos) => NoteRows(opt, within, m, infos)
    case Crash(error, isCrash) =>
      [Row(within, Head("Exception", SeenAtts([Att("crash", if isCrash then "true" else "false")])), Words(error))]
    case Sub(sig, body) =>
      var head := Head("SubCase", SeenAtts([Att("name", sig.name)] + Place(opt, sig.file, sig.line)));
      [Row(within, head, [])] + ItemsRows(opt, within + [head], body)
  }

  ghost function ItemsRows(opt: Options, within: seq<Head>, items: seq<Item>): (rows: seq<Row>)
    decreases items, 0
  {
    if items == [] then [] else ItemRows(opt, within, items[0]) + ItemsRows(opt, within, items[1..])
  }

  /** The attributes of a test case; a skipped one says so. */
  ghost function CaseHead(opt: Options, c: Case): (head: Head) {
    Head("TestCase",
      SeenAtts([Att("name", c.tc.name)] + Place(opt, c.tc.file, c.tc.line)
               + [Att("description", c.tc.description), Att("timeout", c.tc.timeout),
                  Att("may_fail", if c.tc.mayFail then "true" else ""),
                  Att("should_fail", if c.tc.shouldFail then "true" else "")]
               + if c.Skipped? then [Att("skipped", "true")] else []))
  }

  /** What came of a test case that was run. */
  ghost function ResultHead(opt: Options, tc: TestCaseData, st: CaseStats): (head: Head) {
    Head("OverallResultsAsserts",
      SeenAtts([Att("successes", Decimal(st.asserts - st.failed)), Att("failures", Decimal(st.failed)),
                Att("test_case_success", if st.success then "true" else "false"),
                Att("duration", if opt.duration then st.seconds else ""),
                Att("expected_failures", if tc.expectedFailures == 0 then "" else Decimal(tc.expectedFailures))]))
  }

  ghost function CaseRows(opt: Options, within: seq<Head>, c: Case): (rows: seq<Row>) {
    var inside := within + [CaseHead(opt, c)];
    [Row(within, CaseHead(opt, c), [])]
    + if c.Skipped? then []
      else ItemsRows(opt, inside, c.body) + [Row(inside, ResultHead(opt, c.tc, c.stats), [])]
  }

  ghost function SuiteHead(suite: Bytes): (head: Head) {
    Head("TestSuite", SeenAtts([Att("name", suite)]))
  }

  /** A suite begins with the first case, and wherever a case belongs to another suite than the one before. */
  ghost function CasesRows(opt: Options, within: seq<Head>, suite: Option<Bytes>, cases: seq<Case>): (rows: seq<Row>)
    decreases |cases|
  {
    if cases == [] then []
    else if cases[0].Skipped? && opt.noSkippedSummary then CasesRows(opt, within, suite, cases[1..])
    else
      var own := cases[0].tc.suite;
      (if suite == Some(own) then [] else [Row(within, SuiteHead(own), [])])
      + CaseRows(opt, within + [SuiteHead(own)], cases[0])
      + CasesRows(opt, within, Some(own), cases[1..])
  }

  ghost function RunHead(opt: Options): (head: Head) {
    Head("doctest", SeenAtts([Att("binary", if opt.noPathInFilenames then BaseName(opt.binaryName) else opt.binaryName),
                              Att("version", if opt.noVersion then "" else "2.4.11")]))
  }

  ghost function OptionsHead(opt: Options): (head: Head) {
    Head("Options",
      SeenAtts([Att("order_by", opt.orderBy), Att("rand_seed", Decimal(opt.randSeed)), Att("first", Decimal(opt.first)),
                Att("last", Decimal(opt.last)), Att("abort_after", Decimal(opt.abortAfter)),
                Att("subcase_filter_levels", Decimal(opt.subcaseFilterLevels)),
                Att("case_sensitive", if opt.caseSensitive then "true" else "false"),
                Att("no_throw", if opt.noThrow then "true" else "false"),
                Att("no_skip", if opt.noSkip then "true" else "false")]))
  }

  ghost function TotalRows(opt: Options, within: seq<Head>, p: RunStats): (rows: seq<Row>) {
    [Row(within, Head("OverallResultsAsserts",
       SeenAtts([Att("successes", Decimal(p.asserts - p.assertsFailed)), Att("failures", Decimal(p.assertsFailed))])), [])]
    + [Row(within, Head("OverallResultsTestCases",
         SeenAtts([Att("successes", Decimal(p.passing - p.casesFailed)), Att("failures", Decimal(p.casesFailed)),
                   Att("skipped", if opt.noSkippedSummary then "" else Decimal(p.cases - p.passing))])), [])]
  }

  /** The whole report. */
  ghost function Report(opt: Options, run: TestRun): (rows: seq<Row>) {
    var inside := [RunHead(opt)];
    [Row([], RunHead(opt), [])]
    + ([Row(inside, OptionsHead(opt), [])] + CasesRows(opt, inside, None, run.cases) + TotalRows(opt, inside, run.stats))
  }

  // ---------------------------------------------------------------------------------------
  // Composing documents
  // ---------------------------------------------------------------------------------------

  /** Whatever follows is read in the same place. */
  ghost predicate Whole(y: seq<Event>) {
    forall within: seq<Head>, rest: seq<Event> :: Rows(within, y + rest) == Rows(within, y) + Rows(within, rest)
  }

  /** Seen where it stands, `x` is a row of whole elements, and these are their rows. */
  ghost predicate Gives(within: seq<Head>, x: seq<Event>, rows: seq<Row>) {
    Whole(SeenAll(x)) && Rows(within, SeenAll(x)) == rows && TextOf(SeenAll(x)) == []
  }

  lemma WholeNothing()
    ensures Whole([])
  {
    forall within: seq<Head>, rest: seq<Event> ensures Rows(within, [] + rest) == Rows(within, []) + Rows(within, rest) {
      assert [] + rest == rest;
    }
  }

  lemma WholeJoins(a: seq<Event>, b: seq<Event>)
    requires Whole(a) && Whole(b)
    ensures Whole(a + b)
  {
    forall within: seq<Head>, rest: seq<Event>
      ensures Rows(within, (a + b) + rest) == Rows(within, a + b) + Rows(within, rest)
    {
      Assoc(a, b, rest);
      assert Rows(within, a + (b + rest)) == Rows(within, a) + Rows(within, b + rest);
      Assoc(Rows(within, a), Rows(within, b), Rows(within, rest));
    }
  }

  lemma WholeText(t: Bytes)
    ensures Whole([Text(t)])
  {
    forall within: seq<Head>, rest: seq<Event>
      ensures Rows(within, [Text(t)] + rest) == Rows(within, [Text(t)]) + Rows(within, rest)
    {
      assert ([Text(t)] + rest)[1..] == rest && [Text(t)][1..] == [];
    }
  }

  /** An element around `y`, read where something follows it. */
  lemma RowsOfElem(within: seq<Head>, tag: Bytes, atts: seq<Att>, y: seq<Event>, rest: seq<Event>)
    requires Whole(y)
    ensures Rows(within, ([Open(tag, atts)] + y + [Close(tag)]) + rest)
         == [Row(within, Head(tag, atts), TextOf(y))] + Rows(within + [Head(tag, atts)], y) + Rows(within, rest)
  {
    var inside, end := within + [Head(tag, atts)], [Close(tag)] + rest;
    var e := ([Open(tag, atts)] + y + [Close(tag)]) + rest;
    assert e[0] == Open(tag, atts) && e[1..] == y + end;
    assert TextOf(y + end) == TextOf(y);
    assert Rows(inside, y + end) == Rows(inside, y) + Rows(inside, end);
    assert end[1..] == rest && inside[..|inside| - 1] == within;
    Assoc([Row(within, Head(tag, atts), TextOf(y))], Rows(inside, y), Rows(within, rest));
  }

  lemma WholeElem(within: seq<Head>, tag: Bytes, atts: seq<Att>, y: seq<Event>)
    requires Whole(y)
    ensures Whole([Open(tag, atts)] + y + [Close(tag)])
    ensures Rows(within, [Open(tag, atts)] + y + [Close(tag)])
         == [Row(within, Head(tag, atts), TextOf(y))] + Rows(within + [Head(tag, atts)], y)
  {
    var e := [Open(tag, atts)] + y + [Close(tag)];
    forall w: seq<Head>, rest: seq<Event> ensures Rows(w, e + rest) == Rows(w, e) + Rows(w, rest) {
      RowsOfElem(w, tag, atts, y, rest);
      ElemAlone(w, tag, atts, y);
    }
    ElemAlone(within, tag, atts, y);
  }

  lemma ElemAlone(within: seq<Head>, tag: Bytes, atts: seq<Att>, y: seq<Event>)
    requires Whole(y)
    ensures Rows(within, [Open(tag, atts)] + y + [Close(tag)])
         == [Row(within, Head(tag, atts), TextOf(y))] + Rows(within + [Head(tag, atts)], y)
  {
    RowsOfElem(within, tag, atts, y, []);
    var e := [Open(tag, atts)] + y + [Close(tag)];
    var rows := [Row(within, Head(tag, atts), TextOf(y))] + Rows(within + [Head(tag, atts)], y);
    assert e + [] == e && rows + [] == rows;
  }

  lemma GivesNothing(within: seq<Head>)
    ensures Gives(within, [], [])
  {
    WholeNothing();
  }

  lemma GivesBoth(within: seq<Head>, a: seq<Event>, ra: seq<Row>, b: seq<Event>, rb: seq<Row>)
    requires Gives(within, a, ra) && Gives(within, b, rb)
    ensures Gives(within, a + b, ra + rb)
  {
    SeenJoins(a, b);
    WholeJoins(SeenAll(a), SeenAll(b));
    assert Rows(within, SeenAll(a) + SeenAll(b)) == Rows(within, SeenAll(a)) + Rows(within, SeenAll(b));
    TextOfBoth(SeenAll(a), SeenAll(b));
  }

  lemma TextOfBoth(a: seq<Event>, b: seq<Event>)
    requires TextOf(a) == [] && TextOf(b) == []
    ensures TextOf(a + b) == []
  {
    if a == [] { assert a + b == b; }
  }

  lemma GivesElem(within: seq<Head>, name: Name, atts: seq<Att>, inner: seq<Event>, rows: seq<Row>)
    requires Gives(within + [Head(name, SeenAtts(atts))], inner, rows)
    ensures Gives(within, Elem(name, atts, inner), [Row(within, Head(name, SeenAtts(atts)), [])] + rows)
  {
    SeenElem(name, atts, inner);
    WholeElem(within, name, SeenAtts(atts), SeenAll(inner));
  }

  lemma SeenText(text: Bytes)
    ensures SeenAll([Text(text)]) == Said(LineEnds(Scrubbed(text, 0)))
    ensures Whole(SeenAll([Text(text)])) && TextOf(SeenAll([Text(text)])) == Words(text)
    ensures forall within :: Rows(within, SeenAll([Text(text)])) == []
  {
    SeenNext([], Text(text));
    assert [] + [Text(text)] == [Text(text)];
    var said := Said(LineEnds(Scrubbed(text, 0)));
    assert [] + said == said;
    assert said == if Words(text) == [] then [] else [Text(Words(text))];
    OneText(Words(text));
    WholeNothing();
  }

  lemma OneText(t: Bytes)
    ensures Whole([Text(t)]) && TextOf([Text(t)]) == t
    ensures forall within :: Rows(within, [Text(t)]) == []
  {
    WholeText(t);
    assert [Text(t)][1..] == [];
  }

  /** An element with a text in it. */
  lemma GivesTextElem(within: seq<Head>, name: Name, atts: seq<Att>, text: Bytes)
    ensures Gives(within, Elem(name, atts, [Text(text)]), [Row(within, Head(name, SeenAtts(atts)), Words(text))])
  {
    SeenElem(name, atts, [Text(text)]);
    SeenText(text);
    WholeElem(within, name, SeenAtts(atts), SeenAll([Text(text)]));
  }

  lemma GivesLeaf(within: seq<Head>, name: Name, text: Bytes)
    ensures Gives(within, Leaf(name, text), [Says(within, name, text)])
  {
    GivesTextElem(within, name, [], text);
  }

  lemma GivesWhen(within: seq<Head>, c: bool, name: Name, text: Bytes)
    ensures Gives(within, When(c, name, text), if c then [Says(within, name, text)] else [])
  {
    if c { GivesLeaf(within, name, text); } else { GivesNothing(within); }
  }

  lemma GivesEmpty(within: seq<Head>, name: Name, atts: seq<Att>)
    ensures Gives(within, Elem(name, atts, []), [Row(within, Head(name, SeenAtts(atts)), [])])
  {
    var row := [Row(within, Head(name, SeenAtts(atts)), [])];
    GivesNothing(within + [Head(name, SeenAtts(atts))]);
    GivesElem(within, name, atts, [], []);
    assert row + [] == row;
  }
}
