/**
 * The XML document a test run prescribes: its elements, attributes and texts as the reporter is
 * given them, what a reader gets to see of them, and when a reader accepts them.
 */
module XmlDocument {
  import opened Common
  import opened XmlEncode
  import opened XmlDecode
  import opened XmlChars
  import opened XmlLines
  import opened XmlReader

  // Element and attribute names.
  const INFO: Name := "Info"
  const ORIGINAL: Name := "Original"
  const EXCEPTION: Name := "Exception"
  const EXPECTED_EXCEPTION: Name := "ExpectedException"
  const EXPECTED_EXCEPTION_STRING: Name := "ExpectedExceptionString"
  const EXPANDED: Name := "Expanded"
  const EXPRESSION: Name := "Expression"
  const MESSAGE: Name := "Message"
  const TEXT: Name := "Text"
  const SUB_CASE: Name := "SubCase"
  const TEST_CASE: Name := "TestCase"
  const OVERALL_RESULTS_ASSERTS: Name := "OverallResultsAsserts"
  const OVERALL_RESULTS_TEST_CASES: Name := "OverallResultsTestCases"
  const TEST_SUITE: Name := "TestSuite"
  const OPTIONS: Name := "Options"
  const DOCTEST: Name := "doctest"

  const FILENAME: Name := "filename"
  const LINE: Name := "line"
  const SUCCESS: Name := "success"
  const TYPE: Name := "type"
  const CRASH: Name := "crash"
  const NAME: Name := "name"
  const DESCRIPTION: Name := "description"
  const TIMEOUT: Name := "timeout"
  const MAY_FAIL: Name := "may_fail"
  const SHOULD_FAIL: Name := "should_fail"
  const SUCCESSES: Name := "successes"
  const FAILURES: Name := "failures"
  const TEST_CASE_SUCCESS: Name := "test_case_success"
  const DURATION: Name := "duration"
  const EXPECTED_FAILURES: Name := "expected_failures"
  const SKIPPED: Name := "skipped"
  const ORDER_BY: Name := "order_by"
  const RAND_SEED: Name := "rand_seed"
  const FIRST: Name := "first"
  const LAST: Name := "last"
  const ABORT_AFTER: Name := "abort_after"
  const SUBCASE_FILTER_LEVELS: Name := "subcase_filter_levels"
  const CASE_SENSITIVE: Name := "case_sensitive"
  const NO_THROW: Name := "no_throw"
  const NO_SKIP: Name := "no_skip"
  const BINARY: Name := "binary"
  const VERSION: Name := "version"

  datatype Options = Options(
    binaryName: Bytes, orderBy: Bytes, randSeed: nat, first: nat, last: nat, abortAfter: int,
    subcaseFilterLevels: int, caseSensitive: bool, noThrow: bool, noSkip: bool,
    noVersion: bool, noSkippedSummary: bool, noLineNumbers: bool, noPathInFilenames: bool, success: bool, duration: bool)

  /** `timeout` as the stream prints it, empty when it is about 0. */
  datatype TestCaseData = TestCaseData(
    name: Bytes, suite: Bytes, file: Bytes, line: nat, description: Bytes, timeout: Bytes,
    mayFail: bool, shouldFail: bool, expectedFailures: int)

  datatype CaseStats = CaseStats(asserts: int, failed: int, success: bool, seconds: Bytes)

  datatype RunStats = RunStats(asserts: int, assertsFailed: int, cases: nat, passing: nat, casesFailed: nat)

  datatype SubcaseData = SubcaseData(name: Bytes, file: Bytes, line: nat)

  datatype AssertData = AssertData(
    failed: bool, kind: Bytes, file: Bytes, line: nat, expr: Bytes, threw: bool, exception: Bytes,
    throwsAs: bool, exceptionType: Bytes, throwsWith: bool, exceptionString: Bytes,
    normal: bool, decomp: Bytes)

  datatype MessageData = MessageData(severity: Bytes, file: Bytes, line: nat, text: Bytes)

  /** What happens inside a test case; `infos` are the active contexts. */
  datatype Item =
    | Check(check: AssertData, infos: seq<Bytes>)
    | Note(note: MessageData, infos: seq<Bytes>)
    | Crash(error: Bytes, isCrash: bool)
    | Sub(sig: SubcaseData, body: seq<Item>)

  datatype Case = Skipped(tc: TestCaseData) | Ran(tc: TestCaseData, body: seq<Item>, stats: CaseStats)

  datatype TestRun = TestRun(cases: seq<Case>, stats: RunStats)

  // ---------------------------------------------------------------------------------------
  // The document a run prescribes
  // ---------------------------------------------------------------------------------------

  function Digits(n: nat): (t: Bytes)
    ensures t != []
  {
    (if n < 10 then [] else Digits(n / 10)) + [('0' as int + n % 10) as char]
  }

  function Decimal(n: int): (t: Bytes)
    ensures t != []
  {
    if n < 0 then "-" + Digits(-n) else Digits(n)
  }

  function Truth(b: bool): (t: Bytes)
    ensures t != []
  {
    if b then "true" else "false"
  }

  predicate IsSeparator(c: Byte) {
    c == '/' || c == '\\'
  }

  /** What stands behind the last separator. */
  function BaseName(file: Bytes): (base: Bytes)
    ensures forall k :: 0 <= k < |base| ==> !IsSeparator(base[k])
    ensures |base| <= |file| && file[|file| - |base|..] == base
    ensures |base| < |file| ==> IsSeparator(file[|file| - |base| - 1])
  {
    if file == [] || IsSeparator(file[|file| - 1]) then []
    else BaseName(file[..|file| - 1]) + [file[|file| - 1]]
  }

  /** `skipPathFromFilename`. */
  function ShortName(opt: Options, file: Bytes): (name: Bytes) {
    if opt.noPathInFilenames then BaseName(file) else file
  }

  function Elem(name: Name, atts: seq<Att>, inner: seq<Event>): (events: seq<Event>) {
    [Open(name, atts)] + inner + [Close(name)]
  }

  /** An element around a text. */
  function Leaf(name: Name, text: Bytes): (events: seq<Event>) {
    Elem(name, [], [Text(text)])
  }

  function Line(opt: Options, l: nat): (t: Bytes) {
    Decimal(if opt.noLineNumbers then 0 else l)
  }

  function Infos(infos: seq<Bytes>): (events: seq<Event>) {
    if infos == [] then [] else Infos(infos[..|infos| - 1]) + Leaf(INFO, infos[|infos| - 1])
  }

  function When(c: bool, name: Name, text: Bytes): (events: seq<Event>) {
    if c then Leaf(name, text) else []
  }

  function CheckParts(a: AssertData, infos: seq<Bytes>): (events: seq<Event>) {
    Leaf(ORIGINAL, a.expr) + When(a.threw, EXCEPTION, a.exception) + Outcome(a) + Infos(infos)
  }

  function Outcome(a: AssertData): (events: seq<Event>) {
    When(a.throwsAs, EXPECTED_EXCEPTION, a.exceptionType)
    + When(a.throwsWith, EXPECTED_EXCEPTION_STRING, a.exceptionString)
    + When(a.normal && !a.threw, EXPANDED, a.decomp)
  }

  function CheckEvents(opt: Options, a: AssertData, infos: seq<Bytes>): (events: seq<Event>) {
    if !a.failed && !opt.success then [] else Elem(EXPRESSION, CheckAtts(opt, a), CheckParts(a, infos))
  }

  function CheckAtts(opt: Options, a: AssertData): (atts: seq<Att>) {
    [Att(SUCCESS, Truth(!a.failed)), Att(TYPE, a.kind),
     Att(FILENAME, ShortName(opt, a.file)), Att(LINE, Line(opt, a.line))]
  }

  function NoteEvents(opt: Options, m: MessageData, infos: seq<Bytes>): (events: seq<Event>) {
    Elem(MESSAGE, NoteAtts(opt, m), Leaf(TEXT, m.text) + Infos(infos))
  }

  function NoteAtts(opt: Options, m: MessageData): (atts: seq<Att>) {
    [Att(TYPE, m.severity), Att(FILENAME, ShortName(opt, m.file)), Att(LINE, Line(opt, m.line))]
  }

  function ItemsEvents(opt: Options, items: seq<Item>): (events: seq<Event>) {
    if items == [] then [] else ItemEvents(opt, items[0]) + ItemsEvents(opt, items[1..])
  }

  function ItemEvents(opt: Options, item: Item): (events: seq<Event>) {
    match item
    case Check(a, infos) => CheckEvents(opt, a, infos)
    case Note(m, infos) => NoteEvents(opt, m, infos)
    case Crash(error, isCrash) => Elem(EXCEPTION, [Att(CRASH, Truth(isCrash))], [Text(error)])
    case Sub(sig, body) => Elem(SUB_CASE, SubAtts(opt, sig), ItemsEvents(opt, body))
  }

  function SubAtts(opt: Options, sig: SubcaseData): (atts: seq<Att>) {
    [Att(NAME, sig.name), Att(FILENAME, ShortName(opt, sig.file)), Att(LINE, Line(opt, sig.line))]
  }

  function CaseAtts(opt: Options, tc: TestCaseData): (atts: seq<Att>) {
    [Att(NAME, tc.name), Att(FILENAME, ShortName(opt, tc.file)), Att(LINE, Line(opt, tc.line)),
     Att(DESCRIPTION, tc.description), Att(TIMEOUT, tc.timeout),
     Att(MAY_FAIL, if tc.mayFail then "true" else ""), Att(SHOULD_FAIL, if tc.shouldFail then "true" else "")]
  }

  function CaseResults(opt: Options, tc: TestCaseData, st: CaseStats): (atts: seq<Att>) {
    [Att(SUCCESSES, Decimal(st.asserts - st.failed)), Att(FAILURES, Decimal(st.failed)),
     Att(TEST_CASE_SUCCESS, Truth(st.success)), Att(DURATION, if opt.duration then st.seconds else ""),
     Att(EXPECTED_FAILURES, if tc.expectedFailures != 0 then Decimal(tc.expectedFailures) else "")]
  }

  function CaseEvents(opt: Options, c: Case): (events: seq<Event>) {
    match c
    case Skipped(tc) => Elem(TEST_CASE, CaseAtts(opt, tc) + [Att(SKIPPED, "true")], [])
    case Ran(tc, body, st) =>
      Elem(TEST_CASE, CaseAtts(opt, tc),
        ItemsEvents(opt, body) + Elem(OVERALL_RESULTS_ASSERTS, CaseResults(opt, tc, st), []))
  }

  /** Skipped cases can be left out of the report. */
  function Reported(opt: Options, cases: seq<Case>): (reported: seq<Case>) {
    if cases == [] then []
    else (if Shows(opt, cases[0]) then [cases[0]] else []) + Reported(opt, cases[1..])
  }

  predicate Shows(opt: Options, c: Case) {
    !(c.Skipped? && opt.noSkippedSummary)
  }

  /** How many cases from the start on belong to the suite. */
  function SuiteLength(cases: seq<Case>, suite: Bytes): (n: nat)
    ensures n <= |cases|
  {
    if cases == [] || cases[0].tc.suite != suite then 0 else 1 + SuiteLength(cases[1..], suite)
  }

  function CasesEvents(opt: Options, cases: seq<Case>): (events: seq<Event>) {
    if cases == [] then [] else CaseEvents(opt, cases[0]) + CasesEvents(opt, cases[1..])
  }

  /** The suite element ends with the run, or where the next case belongs to another suite. */
  function CloseSuite(tc: Option<TestCaseData>): (events: seq<Event>) {
    if tc.Some? then [Close(TEST_SUITE)] else []
  }

  function SuiteChange(tc: Option<TestCaseData>, next: TestCaseData): (events: seq<Event>) {
    if tc.Some? && tc.value.suite == next.suite then []
    else CloseSuite(tc) + [Open(TEST_SUITE, [Att(NAME, next.suite)])]
  }

  /** One element for each longest row of cases from the same suite. */
  function Suites(opt: Options, cases: seq<Case>): (r: seq<Event>)
    decreases |cases|
  {
    if cases == [] then []
    else
      var suite := cases[0].tc.suite;
      var n := SuiteLength(cases, suite);
      Elem(TEST_SUITE, [Att(NAME, suite)], CasesEvents(opt, cases[..n])) + Suites(opt, cases[n..])
  }

  function OptionAtts(opt: Options): (atts: seq<Att>) {
    [Att(ORDER_BY, opt.orderBy), Att(RAND_SEED, Decimal(opt.randSeed)),
     Att(FIRST, Decimal(opt.first)), Att(LAST, Decimal(opt.last)),
     Att(ABORT_AFTER, Decimal(opt.abortAfter)),
     Att(SUBCASE_FILTER_LEVELS, Decimal(opt.subcaseFilterLevels)),
     Att(CASE_SENSITIVE, Truth(opt.caseSensitive)), Att(NO_THROW, Truth(opt.noThrow)),
     Att(NO_SKIP, Truth(opt.noSkip))]
  }

  function RunAtts(opt: Options): (atts: seq<Att>) {
    [Att(BINARY, ShortName(opt, opt.binaryName)), Att(VERSION, if opt.noVersion then "" else "2.4.11")]
  }

  function AssertResults(p: RunStats): (atts: seq<Att>) {
    [Att(SUCCESSES, Decimal(p.asserts - p.assertsFailed)), Att(FAILURES, Decimal(p.assertsFailed))]
  }

  function CaseTotals(opt: Options, p: RunStats): (atts: seq<Att>) {
    [Att(SUCCESSES, Decimal(p.passing - p.casesFailed)), Att(FAILURES, Decimal(p.casesFailed)),
     Att(SKIPPED, if opt.noSkippedSummary then "" else Decimal(p.cases - p.passing))]
  }

  function Totals(opt: Options, p: RunStats): (events: seq<Event>) {
    Elem(OVERALL_RESULTS_ASSERTS, AssertResults(p), [])
    + Elem(OVERALL_RESULTS_TEST_CASES, CaseTotals(opt, p), [])
  }

  /** The inside of the root element. */
  function Inside(opt: Options, run: TestRun): (events: seq<Event>) {
    Elem(OPTIONS, OptionAtts(opt), []) + Suites(opt, Reported(opt, run.cases)) + Totals(opt, run.stats)
  }

  /** One root element around everything. */
  function Document(opt: Options, run: TestRun): (events: seq<Event>) {
    Elem(DOCTEST, RunAtts(opt), Inside(opt, run))
  }

  // ---------------------------------------------------------------------------------------
  // What a reader gets to see, and when
  // ---------------------------------------------------------------------------------------

  /** An attribute that is empty is not written; one that is not is read with its breaks as spaces. */
  ghost function SeenAtt(att: Att): (atts: seq<Att>) {
    if att.value == [] then [] else [Att(att.name, AttValue(Scrubbed(att.value, 0)))]
  }

  ghost function SeenAtts(atts: seq<Att>): (seen: seq<Att>) {
    if atts == [] then []
    else
      var last := |atts| - 1;
      SeenAtts(atts[..last]) + SeenAtt(atts[last])
  }

  ghost function SeenOne(e: Event): (events: seq<Event>) {
    match e
    case Open(name, atts) => [Open(name, SeenAtts(atts))]
    case Close(name) => [Close(name)]
    case Text(text) => Said(LineEnds(Scrubbed(text, 0)))
  }

  ghost function SeenAll(log: seq<Event>): (events: seq<Event>) {
    if log == [] then []
    else
      var last := |log| - 1;
      SeenAll(log[..last]) + SeenOne(log[last])
  }

  ghost predicate FitsAtts(atts: seq<Att>) {
    forall k :: 0 <= k < |atts| ==> Printable(atts[k].value)
  }

  /** The values and texts a reader accepts from the encoder. */
  ghost predicate FitsOne(e: Event) {
    match e
    case Open(_, atts) => FitsAtts(atts)
    case Close(_) => true
    case Text(text) => Printable(text) && !("]]>" <= text)
  }

  ghost predicate FitsAll(log: seq<Event>) {
    forall k :: 0 <= k < |log| ==> FitsOne(log[k])
  }

  lemma SeenNext(log: seq<Event>, e: Event)
    ensures SeenAll(log + [e]) == SeenAll(log) + SeenOne(e)
    ensures FitsAll(log + [e]) <==> FitsAll(log) && FitsOne(e)
  {
    var all := log + [e];
    assert all[..|log|] == log;
    if FitsAll(all) {
      forall k | 0 <= k < |log| ensures FitsOne(log[k]) {
        assert all[k] == log[k];
      }
      assert all[|log|] == e;
    }
  }

  lemma {:induction false} SeenJoins(a: seq<Event>, b: seq<Event>)
    ensures SeenAll(a + b) == SeenAll(a) + SeenAll(b)
    decreases |b|
  {
    if b == [] {
      assert a + b == a && SeenAll(a) + [] == SeenAll(a);
    } else {
      var last := |b| - 1;
      assert a + b == (a + b[..last]) + [b[last]];
      SeenNext(a + b[..last], b[last]);
      SeenJoins(a, b[..last]);
      Assoc(SeenAll(a), SeenAll(b[..last]), SeenOne(b[last]));
    }
  }

  lemma SeenAttsNext(atts: seq<Att>, k: nat)
    requires k < |atts|
    ensures SeenAtts(atts[..k + 1]) == SeenAtts(atts[..k]) + SeenAtt(atts[k])
    ensures FitsAtts(atts[..k + 1]) <==> FitsAtts(atts[..k]) && Printable(atts[k].value)
  {
    assert atts[..k + 1][..k] == atts[..k];
    var all := atts[..k + 1];
    if FitsAtts(all) {
      forall j | 0 <= j < k ensures Printable(atts[..k][j].value) {
        assert all[j] == atts[..k][j];
      }
      assert all[k] == atts[k];
    }
  }

  lemma SeenAttsLast(atts: seq<Att>, att: Att)
    ensures SeenAtts(atts + [att]) == SeenAtts(atts) + SeenAtt(att)
    ensures FitsAtts(atts + [att]) <==> FitsAtts(atts) && Printable(att.value)
  {
    var all := atts + [att];
    SeenAttsNext(all, |atts|);
    assert all[..|atts|] == atts && all[..|atts| + 1] == all;
  }

  /** A list of attributes that makes a start tag. */
  predicate Distinct(atts: seq<Att>) {
    && (forall k :: 0 <= k < |atts| ==> IsName(atts[k].name))
    && (forall i, j :: 0 <= i < j < |atts| ==> atts[i].name != atts[j].name)
  }

  lemma {:induction false} SeenNames(atts: seq<Att>, name: Bytes)
    requires HasAtt(SeenAtts(atts), name)
    ensures exists k :: 0 <= k < |atts| && atts[k].name == name
    decreases |atts|
  {
    var last := |atts| - 1;
    if HasAtt(SeenAtts(atts[..last]), name) {
      SeenNames(atts[..last], name);
      var k :| 0 <= k < last && atts[..last][k].name == name;
      assert atts[k].name == name;
    } else {
      assert atts[last].name == name;
    }
  }

  lemma NotYetSeen(atts: seq<Att>, k: nat)
    requires Distinct(atts) && k < |atts|
    ensures !HasAtt(SeenAtts(atts[..k]), atts[k].name)
  {
    if HasAtt(SeenAtts(atts[..k]), atts[k].name) {
      SeenNames(atts[..k], atts[k].name);
    }
  }

  // ---------------------------------------------------------------------------------------
  // The lists of attributes hold no name twice
  // ---------------------------------------------------------------------------------------

  lemma NamesDiffer()
    ensures |NAME| == 4 && NAME[0] == 'n' && |LINE| == 4 && LINE[0] == 'l' && |TYPE| == 4
    ensures |FILENAME| == 8 && FILENAME[0] == 'f' && |MAY_FAIL| == 8 && MAY_FAIL[0] == 'm'
    ensures |SUCCESS| == 7 && SUCCESS[0] == 's' && |TIMEOUT| == 7 && TIMEOUT[0] == 't' && |SKIPPED| == 7 && SKIPPED[1] == 'k'
    ensures |DESCRIPTION| == 11 && DESCRIPTION[0] == 'd' && |SHOULD_FAIL| == 11 && SHOULD_FAIL[0] == 's'
  {
  }

  lemma ResultNamesDiffer()
    ensures |SUCCESSES| == 9 && |FAILURES| == 8 && FAILURES[0] == 'f' && |TEST_CASE_SUCCESS| == 17 && TEST_CASE_SUCCESS[0] == 't'
    ensures |DURATION| == 8 && DURATION[0] == 'd' && |EXPECTED_FAILURES| == 17 && EXPECTED_FAILURES[0] == 'e'
    ensures |SKIPPED| == 7 && |BINARY| == 6 && |VERSION| == 7
  {
  }

  lemma OptionNamesDiffer()
    ensures |ORDER_BY| == 8 && ORDER_BY[0] == 'o' && |NO_THROW| == 8 && NO_THROW[0] == 'n'
    ensures |RAND_SEED| == 9 && |FIRST| == 5 && |LAST| == 4 && |ABORT_AFTER| == 11
    ensures |SUBCASE_FILTER_LEVELS| == 21 && |CASE_SENSITIVE| == 14 && |NO_SKIP| == 7
  {
  }

  lemma CaseAttsDistinct(opt: Options, tc: TestCaseData)
    ensures Distinct(CaseAtts(opt, tc)) && Distinct(CaseAtts(opt, tc) + [Att(SKIPPED, "true")])
  {
    NamesDiffer();
  }

  lemma SkippedIsNew(opt: Options, tc: TestCaseData)
    ensures !HasAtt(SeenAtts(CaseAtts(opt, tc)), SKIPPED)
  {
    var atts := CaseAtts(opt, tc);
    var all := atts + [Att(SKIPPED, "true")];
    CaseAttsDistinct(opt, tc);
    NotYetSeen(all, |atts|);
    assert all[..|atts|] == atts;
  }

  lemma CheckAttsDistinct(opt: Options, a: AssertData)
    ensures Distinct(CheckAtts(opt, a))
  {
    NamesDiffer();
  }

  lemma NoteAttsDistinct(opt: Options, m: MessageData)
    ensures Distinct(NoteAtts(opt, m))
  {
    NamesDiffer();
  }

  lemma SubAttsDistinct(opt: Options, sig: SubcaseData)
    ensures Distinct(SubAtts(opt, sig))
  {
    NamesDiffer();
  }

  lemma CaseResultsDistinct(opt: Options, tc: TestCaseData, st: CaseStats)
    ensures Distinct(CaseResults(opt, tc, st))
  {
    ResultNamesDiffer();
  }

  lemma TotalsDistinct(opt: Options, p: RunStats)
    ensures Distinct(AssertResults(p)) && Distinct(CaseTotals(opt, p))
  {
    ResultNamesDiffer();
  }

  lemma RunAttsDistinct(opt: Options)
    ensures Distinct(RunAtts(opt))
  {
    ResultNamesDiffer();
  }

  lemma OptionAttsDistinct(opt: Options)
    ensures Distinct(OptionAtts(opt))
  {
    OptionNamesDiffer();
  }

  // ---------------------------------------------------------------------------------------
  // Suites
  // ---------------------------------------------------------------------------------------

  /** What the reporter still writes for the cases, and to close the last suite. */
  function Rest(opt: Options, tc: Option<TestCaseData>, cases: seq<Case>): (r: seq<Event>)
    decreases |cases|
  {
    if cases == [] then CloseSuite(tc)
    else SuiteChange(tc, cases[0].tc) + CaseEvents(opt, cases[0]) + Rest(opt, Some(cases[0].tc), cases[1..])
  }

  lemma RestNext(opt: Options, tc: Option<TestCaseData>, cases: seq<Case>, before: seq<Event>, after: seq<Event>)
    requires cases != []
    requires after == if Shows(opt, cases[0]) then before + SuiteChange(tc, cases[0].tc) + CaseEvents(opt, cases[0])
                      else before
    ensures before + Rest(opt, tc, Reported(opt, cases))
         == after + Rest(opt, if Shows(opt, cases[0]) then Some(cases[0].tc) else tc, Reported(opt, cases[1..]))
  {
    var c, rest := cases[0], Reported(opt, cases[1..]);
    if Shows(opt, c) {
      assert ([c] + rest)[1..] == rest;
      Assoc(before, SuiteChange(tc, c.tc), CaseEvents(opt, c));
      Assoc(before, SuiteChange(tc, c.tc) + CaseEvents(opt, c), Rest(opt, Some(c.tc), rest));
    } else {
      assert [] + rest == rest;
    }
  }

  lemma RestClosed(opt: Options, tc: TestCaseData, cases: seq<Case>)
    requires SuiteLength(cases, tc.suite) == 0
    ensures Rest(opt, Some(tc), cases) == [Close(TEST_SUITE)] + Rest(opt, None, cases)
  {
    if cases != [] {
      var open := [Open(TEST_SUITE, [Att(NAME, cases[0].tc.suite)])];
      Assoc([Close(TEST_SUITE)], open, CaseEvents(opt, cases[0]));
      Assoc([Close(TEST_SUITE)], open + CaseEvents(opt, cases[0]), Rest(opt, Some(cases[0].tc), cases[1..]));
      assert [] + open == open;
    }
  }

  lemma RestSame(opt: Options, tc: TestCaseData, cases: seq<Case>)
    requires cases != [] && cases[0].tc.suite == tc.suite
    ensures Rest(opt, Some(tc), cases) == CaseEvents(opt, cases[0]) + Rest(opt, Some(cases[0].tc), cases[1..])
  {
    assert [] + CaseEvents(opt, cases[0]) == CaseEvents(opt, cases[0]);
  }

  /** The first suite of the list, its first case taken apart from the others. */
  lemma SuiteSplits(opt: Options, cases: seq<Case>, suite: Bytes, n: nat)
    requires n == SuiteLength(cases, suite) && n > 0
    ensures n - 1 == SuiteLength(cases[1..], suite) && cases[n..] == cases[1..][n - 1..]
    ensures CasesEvents(opt, cases[..n]) == CaseEvents(opt, cases[0]) + CasesEvents(opt, cases[1..][..n - 1])
  {
    assert cases[..n][1..] == cases[1..][..n - 1];
  }

  lemma Regroup(a: seq<Event>, b: seq<Event>, c: seq<Event>, d: seq<Event>)
    ensures a + (b + c + d) == (a + b) + c + d
  {
    Assoc(a, b, c);
    Assoc(a, b + c, d);
  }

  lemma SuiteEnds(opt: Options, tc: TestCaseData, cases: seq<Case>)
    requires SuiteLength(cases, tc.suite) == 0 && Rest(opt, None, cases) == Suites(opt, cases)
    ensures Rest(opt, Some(tc), cases) == CasesEvents(opt, cases[..0]) + [Close(TEST_SUITE)] + Suites(opt, cases[0..])
  {
    RestClosed(opt, tc, cases);
    assert cases[0..] == cases && cases[..0] == [] && [] + [Close(TEST_SUITE)] == [Close(TEST_SUITE)];
  }

  lemma SuiteGoesOn(opt: Options, tc: TestCaseData, cases: seq<Case>, n: nat, others: seq<Event>, suites: seq<Event>)
    requires cases != [] && cases[0].tc.suite == tc.suite && n <= |cases|
    requires CasesEvents(opt, cases[..n]) == CaseEvents(opt, cases[0]) + others
    requires Rest(opt, Some(cases[0].tc), cases[1..]) == others + [Close(TEST_SUITE)] + suites
    ensures Rest(opt, Some(tc), cases) == CasesEvents(opt, cases[..n]) + [Close(TEST_SUITE)] + suites
  {
    RestSame(opt, tc, cases);
    Regroup(CaseEvents(opt, cases[0]), others, [Close(TEST_SUITE)], suites);
  }

  lemma {:induction false} RestInSuite(opt: Options, tc: TestCaseData, cases: seq<Case>, n: nat)
    requires n == SuiteLength(cases, tc.suite)
    ensures Rest(opt, Some(tc), cases)
         == CasesEvents(opt, cases[..n]) + [Close(TEST_SUITE)] + Suites(opt, cases[n..])
    decreases |cases|, 1
  {
    if n == 0 {
      RestIsSuites(opt, cases);
      SuiteEnds(opt, tc, cases);
    } else {
      var tail := cases[1..];
      SuiteSplits(opt, cases, tc.suite, n);
      RestInSuite(opt, cases[0].tc, tail, n - 1);
      SuiteGoesOn(opt, tc, cases, n, CasesEvents(opt, tail[..n - 1]), Suites(opt, tail[n - 1..]));
    }
  }

  /** Opening and closing suites as the cases come gives one element for each row of equal suites. */
  lemma {:induction false} RestIsSuites(opt: Options, cases: seq<Case>)
    ensures Rest(opt, None, cases) == Suites(opt, cases)
    decreases |cases|, 0
  {
    if cases != [] {
      var tail, suite := cases[1..], cases[0].tc.suite;
      var n := SuiteLength(cases, suite);
      SuiteSplits(opt, cases, suite, n);
      RestInSuite(opt, cases[0].tc, tail, n - 1);
      FirstSuite(opt, cases, n, CasesEvents(opt, tail[..n - 1]), Suites(opt, tail[n - 1..]));
    }
  }

  lemma FirstSuite(opt: Options, cases: seq<Case>, n: nat, others: seq<Event>, suites: seq<Event>)
    requires cases != [] && n == SuiteLength(cases, cases[0].tc.suite) && suites == Suites(opt, cases[n..])
    requires CasesEvents(opt, cases[..n]) == CaseEvents(opt, cases[0]) + others
    requires Rest(opt, Some(cases[0].tc), cases[1..]) == others + [Close(TEST_SUITE)] + suites
    ensures Rest(opt, None, cases) == Suites(opt, cases)
  {
    var open := [Open(TEST_SUITE, [Att(NAME, cases[0].tc.suite)])];
    var first := CaseEvents(opt, cases[0]);
    assert [] + open == open;
    Regroup(open + first, others, [Close(TEST_SUITE)], suites);
    Assoc(open, first, others);
  }

  // ---------------------------------------------------------------------------------------
  // One root
  // ---------------------------------------------------------------------------------------

  /** What is seen of `x` stays inside the element it is written into, and closes all it opens. */
  ghost predicate Nested(x: seq<Event>) {
    forall d: nat :: d >= 1 ==> Walk(d, SeenAll(x)) == Some(d)
  }

  lemma {:induction false} WalkJoins(d: nat, a: seq<Event>, b: seq<Event>)
    requires Walk(d, a).Some?
    ensures Walk(d, a + b) == Walk(Walk(d, a).value, b)
    decreases |a|
  {
    if a == [] {
      assert a + b == b;
    } else {
      assert (a + b)[0] == a[0] && (a + b)[1..] == a[1..] + b;
      match a[0]
      case Open(_, _) => WalkJoins(d + 1, a[1..], b);
      case Close(_) => WalkJoins(d - 1, a[1..], b);
      case Text(_) => WalkJoins(d, a[1..], b);
    }
  }

  lemma NestedJoins(a: seq<Event>, b: seq<Event>)
    requires Nested(a) && Nested(b)
    ensures Nested(a + b)
  {
    SeenJoins(a, b);
    forall d: nat | d >= 1 ensures Walk(d, SeenAll(a + b)) == Some(d) {
      WalkJoins(d, SeenAll(a), SeenAll(b));
    }
  }

  lemma NothingIsNested()
    ensures Nested([])
  {
  }

  lemma TextIsNested(text: Bytes)
    ensures Nested([Text(text)])
  {
    var said := Said(LineEnds(Scrubbed(text, 0)));
    SeenNext([], Text(text));
    assert [] + [Text(text)] == [Text(text)] && [] + said == said;
    assert said != [] ==> said[1..] == [];
  }

  lemma SeenElem(name: Name, atts: seq<Att>, inner: seq<Event>)
    ensures SeenAll(Elem(name, atts, inner)) == [Open(name, SeenAtts(atts))] + SeenAll(inner) + [Close(name)]
  {
    SeenNext([Open(name, atts)] + inner, Close(name));
    SeenJoins([Open(name, atts)], inner);
    SeenNext([], Open(name, atts));
    assert [] + [Open(name, atts)] == [Open(name, atts)];
    assert [] + [Open(name, SeenAtts(atts))] == [Open(name, SeenAtts(atts))];
  }

  lemma WalkElem(d: nat, name: Name, atts: seq<Att>, x: seq<Event>)
    requires d >= 1 && Walk(d + 1, x) == Some(d + 1)
    ensures Walk(d, [Open(name, atts)] + x + [Close(name)]) == Some(d)
  {
    var t := [Open(name, atts)] + x + [Close(name)];
    assert t[0] == Open(name, atts) && t[1..] == x + [Close(name)];
    WalkJoins(d + 1, x, [Close(name)]);
    assert [Close(name)][1..] == [];
  }

  lemma ElemIsNested(name: Name, atts: seq<Att>, inner: seq<Event>)
    requires Nested(inner)
    ensures Nested(Elem(name, atts, inner))
  {
    SeenElem(name, atts, inner);
    forall d: nat | d >= 1 ensures Walk(d, SeenAll(Elem(name, atts, inner))) == Some(d) {
      WalkElem(d, name, SeenAtts(atts), SeenAll(inner));
    }
  }

  lemma LeafIsNested(name: Name, text: Bytes)
    ensures Nested(Leaf(name, text))
  {
    TextIsNested(text);
    ElemIsNested(name, [], [Text(text)]);
  }

  lemma WhenIsNested(c: bool, name: Name, text: Bytes)
    ensures Nested(When(c, name, text))
  {
    NothingIsNested();
    LeafIsNested(name, text);
  }

  lemma {:induction false} InfosAreNested(infos: seq<Bytes>)
    ensures Nested(Infos(infos))
    decreases |infos|
  {
    NothingIsNested();
    if infos != [] {
      InfosAreNested(infos[..|infos| - 1]);
      LeafIsNested(INFO, infos[|infos| - 1]);
      NestedJoins(Infos(infos[..|infos| - 1]), Leaf(INFO, infos[|infos| - 1]));
    }
  }

  lemma OutcomeIsNested(a: AssertData)
    ensures Nested(Outcome(a))
  {
    var one := When(a.throwsAs, EXPECTED_EXCEPTION, a.exceptionType);
    var two := When(a.throwsWith, EXPECTED_EXCEPTION_STRING, a.exceptionString);
    WhenIsNested(a.throwsAs, EXPECTED_EXCEPTION, a.exceptionType);
    WhenIsNested(a.throwsWith, EXPECTED_EXCEPTION_STRING, a.exceptionString);
    WhenIsNested(a.normal && !a.threw, EXPANDED, a.decomp);
    NestedJoins(one, two);
    NestedJoins(one + two, When(a.normal && !a.threw, EXPANDED, a.decomp));
  }

  lemma CheckIsNested(opt: Options, a: AssertData, infos: seq<Bytes>)
    ensures Nested(CheckEvents(opt, a, infos))
  {
    NothingIsNested();
    var one := Leaf(ORIGINAL, a.expr) + When(a.threw, EXCEPTION, a.exception);
    LeafIsNested(ORIGINAL, a.expr);
    WhenIsNested(a.threw, EXCEPTION, a.exception);
    NestedJoins(Leaf(ORIGINAL, a.expr), When(a.threw, EXCEPTION, a.exception));
    OutcomeIsNested(a);
    NestedJoins(one, Outcome(a));
    InfosAreNested(infos);
    NestedJoins(one + Outcome(a), Infos(infos));
    ElemIsNested(EXPRESSION, CheckAtts(opt, a), CheckParts(a, infos));
  }

  lemma NoteIsNested(opt: Options, m: MessageData, infos: seq<Bytes>)
    ensures Nested(NoteEvents(opt, m, infos))
  {
    LeafIsNested(TEXT, m.text);
    InfosAreNested(infos);
    NestedJoins(Leaf(TEXT, m.text), Infos(infos));
    ElemIsNested(MESSAGE, NoteAtts(opt, m), Leaf(TEXT, m.text) + Infos(infos));
  }

  lemma {:induction false} ItemsAreNested(opt: Options, items: seq<Item>)
    ensures Nested(ItemsEvents(opt, items))
    decreases items, 0
  {
    NothingIsNested();
    if items != [] {
      ItemIsNested(opt, items[0]);
      ItemsAreNested(opt, items[1..]);
      NestedJoins(ItemEvents(opt, items[0]), ItemsEvents(opt, items[1..]));
    }
  }

  lemma {:induction false} ItemIsNested(opt: Options, item: Item)
    ensures Nested(ItemEvents(opt, item))
    decreases item, 1
  {
    match item
    case Check(a, infos) => CheckIsNested(opt, a, infos);
    case Note(m, infos) => NoteIsNested(opt, m, infos);
    case Crash(error, isCrash) =>
      TextIsNested(error);
      ElemIsNested(EXCEPTION, [Att(CRASH, Truth(isCrash))], [Text(error)]);
    case Sub(sig, body) =>
      ItemsAreNested(opt, body);
      ElemIsNested(SUB_CASE, SubAtts(opt, sig), ItemsEvents(opt, body));
  }

  lemma CaseIsNested(opt: Options, c: Case)
    ensures Nested(CaseEvents(opt, c))
  {
    NothingIsNested();
    match c
    case Skipped(tc) => ElemIsNested(TEST_CASE, CaseAtts(opt, tc) + [Att(SKIPPED, "true")], []);
    case Ran(tc, body, st) =>
      var results := Elem(OVERALL_RESULTS_ASSERTS, CaseResults(opt, tc, st), []);
      ItemsAreNested(opt, body);
      ElemIsNested(OVERALL_RESULTS_ASSERTS, CaseResults(opt, tc, st), []);
      NestedJoins(ItemsEvents(opt, body), results);
      ElemIsNested(TEST_CASE, CaseAtts(opt, tc), ItemsEvents(opt, body) + results);
  }

  lemma {:induction false} CasesAreNested(opt: Options, cases: seq<Case>)
    ensures Nested(CasesEvents(opt, cases))
    decreases |cases|
  {
    NothingIsNested();
    if cases != [] {
      CaseIsNested(opt, cases[0]);
      CasesAreNested(opt, cases[1..]);
      NestedJoins(CaseEvents(opt, cases[0]), CasesEvents(opt, cases[1..]));
    }
  }

  lemma {:induction false} SuitesAreNested(opt: Options, cases: seq<Case>)
    ensures Nested(Suites(opt, cases))
    decreases |cases|
  {
    NothingIsNested();
    if cases != [] {
      var suite := cases[0].tc.suite;
      var n := SuiteLength(cases, suite);
      CasesAreNested(opt, cases[..n]);
      ElemIsNested(TEST_SUITE, [Att(NAME, suite)], CasesEvents(opt, cases[..n]));
      SuitesAreNested(opt, cases[n..]);
      NestedJoins(Elem(TEST_SUITE, [Att(NAME, suite)], CasesEvents(opt, cases[..n])), Suites(opt, cases[n..]));
    }
  }

  lemma InsideIsNested(opt: Options, run: TestRun)
    ensures Nested(Inside(opt, run))
  {
    var options, suites := Elem(OPTIONS, OptionAtts(opt), []), Suites(opt, Reported(opt, run.cases));
    NothingIsNested();
    ElemIsNested(OPTIONS, OptionAtts(opt), []);
    SuitesAreNested(opt, Reported(opt, run.cases));
    NestedJoins(options, suites);
    ElemIsNested(OVERALL_RESULTS_ASSERTS, AssertResults(run.stats), []);
    ElemIsNested(OVERALL_RESULTS_TEST_CASES, CaseTotals(opt, run.stats), []);
    NestedJoins(Elem(OVERALL_RESULTS_ASSERTS, AssertResults(run.stats), []),
                Elem(OVERALL_RESULTS_TEST_CASES, CaseTotals(opt, run.stats), []));
    NestedJoins(options + suites, Totals(opt, run.stats));
  }

  /** The document of every run has one root. */
  lemma DocumentHasOneRoot(opt: Options, run: TestRun)
    ensures OneRoot(SeenAll(Document(opt, run)))
  {
    InsideIsNested(opt, run);
    SeenElem(DOCTEST, RunAtts(opt), Inside(opt, run));
    var seen := [Open(DOCTEST, SeenAtts(RunAtts(opt)))] + SeenAll(Inside(opt, run)) + [Close(DOCTEST)];
    assert seen[1..|seen| - 1] == SeenAll(Inside(opt, run));
  }
}
