/** The document of any run gives exactly the rows that are due; and what can be counted in it. */
module XmlRows {
  import opened Common
  import opened XmlEncode
  import opened XmlDecode
  import opened XmlLines
  import opened XmlReader
  import opened XmlDocument
  import opened XmlContents

  // ---------------------------------------------------------------------------------------
  // Lists of attributes
  // ---------------------------------------------------------------------------------------

  lemma PlaceIs(opt: Options, file: Bytes, line: nat)
    ensures Place(opt, file, line) == [Att(FILENAME, ShortName(opt, file)), Att(LINE, Line(opt, line))]
  {
    assert Digits(0) == ['0'] == "0";
  }

  lemma CheckAttsAre(opt: Options, a: AssertData)
    ensures CheckHead(opt, a) == Head(EXPRESSION, SeenAtts(CheckAtts(opt, a)))
  {
    PlaceIs(opt, a.file, a.line);
    assert [Att("success", if a.failed then "false" else "true"), Att("type", a.kind)] + Place(opt, a.file, a.line)
        == CheckAtts(opt, a);
  }

  lemma NoteAttsAre(opt: Options, m: MessageData)
    ensures [Att("type", m.severity)] + Place(opt, m.file, m.line) == NoteAtts(opt, m)
  {
    PlaceIs(opt, m.file, m.line);
  }

  lemma SubAttsAre(opt: Options, sig: SubcaseData)
    ensures [Att("name", sig.name)] + Place(opt, sig.file, sig.line) == SubAtts(opt, sig)
  {
    PlaceIs(opt, sig.file, sig.line);
  }

  lemma CaseAttsAre(opt: Options, c: Case)
    ensures CaseHead(opt, c)
         == Head(TEST_CASE, SeenAtts(CaseAtts(opt, c.tc) + if c.Skipped? then [Att(SKIPPED, "true")] else []))
  {
    var tc := c.tc;
    PlaceIs(opt, tc.file, tc.line);
    assert [Att("name", tc.name)] + Place(opt, tc.file, tc.line)
           + [Att("description", tc.description), Att("timeout", tc.timeout),
              Att("may_fail", if tc.mayFail then "true" else ""), Att("should_fail", if tc.shouldFail then "true" else "")]
        == CaseAtts(opt, tc);
  }

  lemma ResultsAre(opt: Options, tc: TestCaseData, st: CaseStats)
    ensures ResultHead(opt, tc, st) == Head(OVERALL_RESULTS_ASSERTS, SeenAtts(CaseResults(opt, tc, st)))
  {
  }

  lemma RunAttsAre(opt: Options)
    ensures RunHead(opt) == Head(DOCTEST, SeenAtts(RunAtts(opt)))
  {
  }

  lemma OptionAttsAre(opt: Options)
    ensures OptionsHead(opt) == Head(OPTIONS, SeenAtts(OptionAtts(opt)))
  {
  }

  // ---------------------------------------------------------------------------------------
  // Items
  // ---------------------------------------------------------------------------------------

  lemma {:induction false} GivesInfos(within: seq<Head>, infos: seq<Bytes>)
    ensures Gives(within, Infos(infos), InfoRows(within, infos))
    decreases |infos|
  {
    if infos == [] {
      GivesNothing(within);
    } else {
      var front, last := infos[..|infos| - 1], infos[|infos| - 1];
      GivesInfos(within, front);
      GivesLeaf(within, INFO, last);
      GivesBoth(within, Infos(front), InfoRows(within, front), Leaf(INFO, last), [Says(within, "Info", last)]);
    }
  }

  lemma GivesOutcome(within: seq<Head>, a: AssertData)
    ensures Gives(within, Outcome(a), OutcomeRows(within, a))
  {
    var one := When(a.throwsAs, EXPECTED_EXCEPTION, a.exceptionType);
    var two := When(a.throwsWith, EXPECTED_EXCEPTION_STRING, a.exceptionString);
    var three := When(a.normal && !a.threw, EXPANDED, a.decomp);
    var r1 := if a.throwsAs then [Says(within, "ExpectedException", a.exceptionType)] else [];
    var r2 := if a.throwsWith then [Says(within, "ExpectedExceptionString", a.exceptionString)] else [];
    var r3 := if a.normal && !a.threw then [Says(within, "Expanded", a.decomp)] else [];
    GivesWhen(within, a.throwsAs, EXPECTED_EXCEPTION, a.exceptionType);
    GivesWhen(within, a.throwsWith, EXPECTED_EXCEPTION_STRING, a.exceptionString);
    GivesWhen(within, a.normal && !a.threw, EXPANDED, a.decomp);
    GivesBoth(within, one, r1, two, r2);
    GivesBoth(within, one + two, r1 + r2, three, r3);
  }

  lemma GivesParts(within: seq<Head>, a: AssertData, infos: seq<Bytes>)
    ensures Gives(within, CheckParts(a, infos), PartRows(within, a, infos))
  {
    var one, two := Leaf(ORIGINAL, a.expr), When(a.threw, EXCEPTION, a.exception);
    var r1, r2 := [Says(within, "Original", a.expr)], if a.threw then [Says(within, "Exception", a.exception)] else [];
    GivesLeaf(within, ORIGINAL, a.expr);
    GivesWhen(within, a.threw, EXCEPTION, a.exception);
    GivesOutcome(within, a);
    GivesInfos(within, infos);
    GivesBoth(within, one, r1, two, r2);
    GivesBoth(within, one + two, r1 + r2, Outcome(a), OutcomeRows(within, a));
    GivesBoth(within, one + two + Outcome(a), r1 + r2 + OutcomeRows(within, a), Infos(infos), InfoRows(within, infos));
  }

  lemma GivesCheck(opt: Options, within: seq<Head>, a: AssertData, infos: seq<Bytes>)
    ensures Gives(within, CheckEvents(opt, a, infos), CheckRows(opt, within, a, infos))
  {
    if a.failed || opt.success {
      CheckAttsAre(opt, a);
      GivesParts(within + [CheckHead(opt, a)], a, infos);
      GivesElem(within, EXPRESSION, CheckAtts(opt, a), CheckParts(a, infos), PartRows(within + [CheckHead(opt, a)], a, infos));
    } else {
      GivesNothing(within);
    }
  }

  lemma GivesNote(opt: Options, within: seq<Head>, m: MessageData, infos: seq<Bytes>)
    ensures Gives(within, NoteEvents(opt, m, infos), NoteRows(opt, within, m, infos))
  {
    NoteAttsAre(opt, m);
    var inside := within + [Head(MESSAGE, SeenAtts(NoteAtts(opt, m)))];
    GivesLeaf(inside, TEXT, m.text);
    GivesInfos(inside, infos);
    GivesBoth(inside, Leaf(TEXT, m.text), [Says(inside, "Text", m.text)], Infos(infos), InfoRows(inside, infos));
    GivesElem(within, MESSAGE, NoteAtts(opt, m), Leaf(TEXT, m.text) + Infos(infos),
              [Says(inside, "Text", m.text)] + InfoRows(inside, infos));
  }

  lemma {:induction false} GivesItem(opt: Options, within: seq<Head>, item: Item)
    ensures Gives(within, ItemEvents(opt, item), ItemRows(opt, within, item))
    decreases item, 1
  {
    match item
    case Check(a, infos) => GivesCheck(opt, within, a, infos);
    case Note(m, infos) => GivesNote(opt, within, m, infos);
    case Crash(error, isCrash) => GivesTextElem(within, EXCEPTION, [Att(CRASH, Truth(isCrash))], error);
    case Sub(sig, body) =>
      SubAttsAre(opt, sig);
      var inside := within + [Head(SUB_CASE, SeenAtts(SubAtts(opt, sig)))];
      GivesItems(opt, inside, body);
      GivesElem(within, SUB_CASE, SubAtts(opt, sig), ItemsEvents(opt, body), ItemsRows(opt, inside, body));
  }

  lemma {:induction false} GivesItems(opt: Options, within: seq<Head>, items: seq<Item>)
    ensures Gives(within, ItemsEvents(opt, items), ItemsRows(opt, within, items))
    decreases items, 0
  {
    if items == [] {
      GivesNothing(within);
    } else {
      GivesItem(opt, within, items[0]);
      GivesItems(opt, within, items[1..]);
      GivesBoth(within, ItemEvents(opt, items[0]), ItemRows(opt, within, items[0]),
                ItemsEvents(opt, items[1..]), ItemsRows(opt, within, items[1..]));
    }
  }

  // ---------------------------------------------------------------------------------------
  // Test cases and suites
  // ---------------------------------------------------------------------------------------

  lemma GivesSkipped(opt: Options, within: seq<Head>, c: Case)
    requires c.Skipped?
    ensures Gives(within, CaseEvents(opt, c), CaseRows(opt, within, c))
  {
    CaseAttsAre(opt, c);
    GivesEmpty(within, TEST_CASE, CaseAtts(opt, c.tc) + [Att(SKIPPED, "true")]);
    assert [Row(within, CaseHead(opt, c), [])] + [] == [Row(within, CaseHead(opt, c), [])];
  }

  lemma GivesRan(opt: Options, within: seq<Head>, c: Case)
    requires c.Ran?
    ensures Gives(within, CaseEvents(opt, c), CaseRows(opt, within, c))
  {
    var atts, results := CaseAtts(opt, c.tc), CaseResults(opt, c.tc, c.stats);
    CaseAttsAre(opt, c);
    assert atts + [] == atts;
    ResultsAre(opt, c.tc, c.stats);
    var inside := within + [CaseHead(opt, c)];
    GivesItems(opt, inside, c.body);
    GivesEmpty(inside, OVERALL_RESULTS_ASSERTS, results);
    var rows, last := ItemsRows(opt, inside, c.body), [Row(inside, ResultHead(opt, c.tc, c.stats), [])];
    GivesBoth(inside, ItemsEvents(opt, c.body), rows, Elem(OVERALL_RESULTS_ASSERTS, results, []), last);
    GivesElem(within, TEST_CASE, atts, ItemsEvents(opt, c.body) + Elem(OVERALL_RESULTS_ASSERTS, results, []), rows + last);
  }

  lemma GivesCase(opt: Options, within: seq<Head>, c: Case)
    ensures Gives(within, CaseEvents(opt, c), CaseRows(opt, within, c))
  {
    if c.Skipped? { GivesSkipped(opt, within, c); } else { GivesRan(opt, within, c); }
  }

  ghost function AllCaseRows(opt: Options, within: seq<Head>, cases: seq<Case>): (rows: seq<Row>) {
    if cases == [] then [] else CaseRows(opt, within, cases[0]) + AllCaseRows(opt, within, cases[1..])
  }

  lemma {:induction false} GivesCases(opt: Options, within: seq<Head>, cases: seq<Case>)
    ensures Gives(within, CasesEvents(opt, cases), AllCaseRows(opt, within, cases))
    decreases |cases|
  {
    if cases == [] {
      GivesNothing(within);
    } else {
      GivesCase(opt, within, cases[0]);
      GivesCases(opt, within, cases[1..]);
      GivesBoth(within, CaseEvents(opt, cases[0]), CaseRows(opt, within, cases[0]),
                CasesEvents(opt, cases[1..]), AllCaseRows(opt, within, cases[1..]));
    }
  }

  ghost predicate AllShown(opt: Options, cases: seq<Case>) {
    forall k :: 0 <= k < |cases| ==> Shows(opt, cases[k])
  }

  lemma NextRows(opt: Options, within: seq<Head>, suite: Option<Bytes>, cases: seq<Case>)
    requires cases != [] && Shows(opt, cases[0])
    ensures CasesRows(opt, within, suite, cases)
         == (if suite == Some(cases[0].tc.suite) then [] else [Row(within, SuiteHead(cases[0].tc.suite), [])])
            + CaseRows(opt, within + [SuiteHead(cases[0].tc.suite)], cases[0])
            + CasesRows(opt, within, Some(cases[0].tc.suite), cases[1..])
  {
  }

  lemma MoreCaseRows(opt: Options, inside: seq<Head>, cases: seq<Case>, n: nat)
    requires 0 < n <= |cases|
    ensures cases[n..] == cases[1..][n - 1..]
    ensures AllCaseRows(opt, inside, cases[..n])
         == CaseRows(opt, inside, cases[0]) + AllCaseRows(opt, inside, cases[1..][..n - 1])
  {
    assert cases[..n][1..] == cases[1..][..n - 1];
  }

  /** Behind cases of one suite: first those of the same suite, then the others as if they were the first. */
  lemma {:induction false} RowsOfSuite(opt: Options, within: seq<Head>, suite: Bytes, cases: seq<Case>, n: nat)
    requires AllShown(opt, cases) && n == SuiteLength(cases, suite)
    ensures CasesRows(opt, within, Some(suite), cases)
         == AllCaseRows(opt, within + [SuiteHead(suite)], cases[..n]) + CasesRows(opt, within, None, cases[n..])
    decreases |cases|
  {
    if n > 0 {
      RowsOfSuite(opt, within, suite, cases[1..], n - 1);
      NextRows(opt, within, Some(suite), cases);
      MoreCaseRows(opt, within + [SuiteHead(suite)], cases, n);
      SuiteRowsJoin([], CaseRows(opt, within + [SuiteHead(suite)], cases[0]),
                    AllCaseRows(opt, within + [SuiteHead(suite)], cases[1..][..n - 1]), CasesRows(opt, within, None, cases[n..]));
    } else {
      OtherSuite(opt, within, suite, cases);
    }
  }

  lemma OtherSuite(opt: Options, within: seq<Head>, suite: Bytes, cases: seq<Case>)
    requires AllShown(opt, cases) && SuiteLength(cases, suite) == 0
    ensures CasesRows(opt, within, Some(suite), cases)
         == AllCaseRows(opt, within + [SuiteHead(suite)], cases[..0]) + CasesRows(opt, within, None, cases[0..])
  {
    var others := CasesRows(opt, within, None, cases);
    assert cases[0..] == cases && cases[..0] == [] && [] + others == others;
    if cases != [] {
      NextRows(opt, within, Some(suite), cases);
      NextRows(opt, within, None, cases);
    }
  }

  lemma SuiteRowsJoin(head: seq<Row>, first: seq<Row>, same: seq<Row>, others: seq<Row>)
    ensures head + first + (same + others) == (head + (first + same)) + others
    ensures [] + first == first && [] + (first + same) == first + same
  {
  }

  lemma {:induction false} GivesSuites(opt: Options, within: seq<Head>, cases: seq<Case>)
    requires AllShown(opt, cases)
    ensures Gives(within, Suites(opt, cases), CasesRows(opt, within, None, cases))
    decreases |cases|
  {
    if cases == [] {
      GivesNothing(within);
    } else {
      var suite := cases[0].tc.suite;
      var n := SuiteLength(cases, suite);
      GivesSuites(opt, within, cases[n..]);
      GivesSuite(opt, within, suite, cases[..n]);
      GivesBoth(within, Elem(TEST_SUITE, [Att(NAME, suite)], CasesEvents(opt, cases[..n])),
                [Row(within, SuiteHead(suite), [])] + AllCaseRows(opt, within + [SuiteHead(suite)], cases[..n]),
                Suites(opt, cases[n..]), CasesRows(opt, within, None, cases[n..]));
      FirstSuiteRows(opt, within, cases, n);
    }
  }

  lemma GivesSuite(opt: Options, within: seq<Head>, suite: Bytes, cases: seq<Case>)
    ensures Gives(within, Elem(TEST_SUITE, [Att(NAME, suite)], CasesEvents(opt, cases)),
                  [Row(within, SuiteHead(suite), [])] + AllCaseRows(opt, within + [SuiteHead(suite)], cases))
  {
    GivesCases(opt, within + [SuiteHead(suite)], cases);
    GivesElem(within, TEST_SUITE, [Att(NAME, suite)], CasesEvents(opt, cases),
              AllCaseRows(opt, within + [SuiteHead(suite)], cases));
  }

  lemma FirstSuiteRows(opt: Options, within: seq<Head>, cases: seq<Case>, n: nat)
    requires cases != [] && AllShown(opt, cases) && n == SuiteLength(cases, cases[0].tc.suite)
    ensures CasesRows(opt, within, None, cases)
         == ([Row(within, SuiteHead(cases[0].tc.suite), [])]
             + AllCaseRows(opt, within + [SuiteHead(cases[0].tc.suite)], cases[..n]))
            + CasesRows(opt, within, None, cases[n..])
  {
    var suite := cases[0].tc.suite;
    var inside := within + [SuiteHead(suite)];
    RowsOfSuite(opt, within, suite, cases[1..], n - 1);
    NextRows(opt, within, None, cases);
    MoreCaseRows(opt, inside, cases, n);
    SuiteRowsJoin([Row(within, SuiteHead(suite), [])], CaseRows(opt, inside, cases[0]),
                  AllCaseRows(opt, inside, cases[1..][..n - 1]), CasesRows(opt, within, None, cases[n..]));
  }

  /** Cases that are not reported leave no row. */
  lemma {:induction false} RowsOfReported(opt: Options, within: seq<Head>, suite: Option<Bytes>, cases: seq<Case>)
    ensures CasesRows(opt, within, suite, Reported(opt, cases)) == CasesRows(opt, within, suite, cases)
    ensures AllShown(opt, Reported(opt, cases))
    decreases |cases|
  {
    if cases != [] {
      var c, rest := cases[0], Reported(opt, cases[1..]);
      RowsOfReported(opt, within, if Shows(opt, c) then Some(c.tc.suite) else suite, cases[1..]);
      if Shows(opt, c) {
        NextRows(opt, within, suite, cases);
        NextRows(opt, within, suite, [c] + rest);
        assert ([c] + rest)[1..] == rest;
      } else {
        assert [] + rest == rest;
      }
    }
  }

  // ---------------------------------------------------------------------------------------
  // The whole report
  // ---------------------------------------------------------------------------------------

  lemma GivesTotals(opt: Options, within: seq<Head>, p: RunStats)
    ensures Gives(within, Totals(opt, p), TotalRows(opt, within, p))
  {
    GivesEmpty(within, OVERALL_RESULTS_ASSERTS, AssertResults(p));
    GivesEmpty(within, OVERALL_RESULTS_TEST_CASES, CaseTotals(opt, p));
    GivesBoth(within, Elem(OVERALL_RESULTS_ASSERTS, AssertResults(p), []),
              [Row(within, Head(OVERALL_RESULTS_ASSERTS, SeenAtts(AssertResults(p))), [])],
              Elem(OVERALL_RESULTS_TEST_CASES, CaseTotals(opt, p), []),
              [Row(within, Head(OVERALL_RESULTS_TEST_CASES, SeenAtts(CaseTotals(opt, p))), [])]);
  }

  lemma GivesInside(opt: Options, within: seq<Head>, run: TestRun)
    ensures Gives(within, Inside(opt, run),
                  [Row(within, OptionsHead(opt), [])] + CasesRows(opt, within, None, run.cases) + TotalRows(opt, within, run.stats))
  {
    var options, suites := Elem(OPTIONS, OptionAtts(opt), []), Suites(opt, Reported(opt, run.cases));
    var row, rows := [Row(within, OptionsHead(opt), [])], CasesRows(opt, within, None, run.cases);
    OptionAttsAre(opt);
    GivesEmpty(within, OPTIONS, OptionAtts(opt));
    RowsOfReported(opt, within, None, run.cases);
    GivesSuites(opt, within, Reported(opt, run.cases));
    GivesBoth(within, options, row, suites, rows);
    GivesTotals(opt, within, run.stats);
    GivesBoth(within, options + suites, row + rows, Totals(opt, run.stats), TotalRows(opt, within, run.stats));
  }

  /** For every run: the rows of the document a reader gets are those the run should give. */
  lemma DocumentGivesReport(opt: Options, run: TestRun)
    ensures Rows([], SeenAll(Document(opt, run))) == Report(opt, run)
  {
    RunAttsAre(opt);
    var inside := [RunHead(opt)];
    assert [] + [RunHead(opt)] == inside;
    GivesInside(opt, inside, run);
    GivesElem([], DOCTEST, RunAtts(opt), Inside(opt, run),
              [Row(inside, OptionsHead(opt), [])] + CasesRows(opt, inside, None, run.cases) + TotalRows(opt, inside, run.stats));
  }
}
