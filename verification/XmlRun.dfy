/** A whole run through the XML reporter: what a reader of the file gets in the end. */
module XmlRun {
  import opened Common
  import opened XmlEncode
  import opened XmlDecode
  import opened XmlChars
  import opened XmlLines
  import opened XmlReader
  import opened XmlOutput
  import opened XmlDocument
  import opened XmlContents
  import opened XmlRows
  import opened XmlCounts
  import opened XmlReport

  /**
   * After any run nothing is open; a reader accepts the output exactly if everything the run
   * prescribes is fit for it, and then it gets exactly the prescribed document, which says row by
   * row what happened, as many failures and successes among it as there were.
   */
  method ReportRun(opt: Options, run: TestRun) returns (os: Bytes)
    ensures Read(os) == if FitsAll(Document(opt, run)) then Some(SeenAll(Document(opt, run))) else None
    ensures Run(START, os).mode.Content? && Run(START, os).tags == []
    ensures Read(os).Some? ==>
              var rows := Rows([], Read(os).value);
              && rows == Report(opt, run)
              && Outcomes(rows, true) == RunChecks(run.cases, true)
              && Outcomes(rows, false) == if opt.success then RunChecks(run.cases, false) else 0
  {
    var reporter := new XmlReporter(opt);
    reporter.TestRunStart();
    ghost var start := reporter.log;
    reporter.RunCases(run.cases, run.stats);
    RootAround(opt, run, start, reporter.log);
    os := reporter.xml.os;
    WholeFile(opt, run, os, reporter.xml.legal);
    DocumentGivesReport(opt, run);
    ReportCounts(opt, run);
  }

  lemma RootAround(opt: Options, run: TestRun, start: seq<Event>, log: seq<Event>)
    requires start == [Open(DOCTEST, RunAtts(opt))] + Elem(OPTIONS, OptionAtts(opt), [])
    requires log == start + Suites(opt, Reported(opt, run.cases)) + Totals(opt, run.stats) + [Close(DOCTEST)]
    ensures log == Document(opt, run)
  {
    var open, options := [Open(DOCTEST, RunAtts(opt))], Elem(OPTIONS, OptionAtts(opt), []);
    var suites, totals := Suites(opt, Reported(opt, run.cases)), Totals(opt, run.stats);
    Assoc(open, options, suites);
    Assoc(open, options + suites, totals);
  }

  lemma WholeFile(opt: Options, run: TestRun, os: Bytes, legal: bool)
    requires Transparent(os, legal) && Settled(Run(START, os))
    requires var r := Run(START, os); r.mode.Content? && r.tags == [] && DocOf(r).log == SeenAll(Document(opt, run))
    requires (legal && !Run(START, os).fatal) == FitsAll(Document(opt, run))
    ensures Read(os) == if FitsAll(Document(opt, run)) then Some(SeenAll(Document(opt, run))) else None
  {
    TransparentMeans(os, legal);
    DocumentHasOneRoot(opt, run);
  }
}
