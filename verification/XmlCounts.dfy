/**
 * What can be counted in a report and read off it: as many failed and passed expressions as the
 * run had asserts that failed and passed, and numbers that are the numbers of the run.
 */
module XmlCounts {
  import opened Common
  import opened XmlEncode
  import opened XmlDecode
  import opened XmlEscapes
  import opened XmlLines
  import opened XmlReader
  import opened XmlDocument
  import opened XmlContents
  import opened XmlRows

  // ---------------------------------------------------------------------------------------
  // Values that are read as they are
  // ---------------------------------------------------------------------------------------

  predicate PlainText(t: Bytes) {
    forall k :: 0 <= k < |t| ==> 0x20 <= t[k] as int < 0x7F
  }

  lemma PlainValue(t: Bytes)
    requires PlainText(t)
    ensures AttValue(Scrubbed(t, 0)) == t
  {
    PlainsAreKept(t, 0, |t|);
    assert t[0..|t|] == t && t + [] == t;
    forall c | c in t ensures c != '\t' && c != '\n' && c != '\r' {}
    AttValueUnchanged(t);
  }

  function Natural(t: Bytes): (n: int) {
    if t == [] then 0 else 10 * Natural(t[..|t| - 1]) + (t[|t| - 1] as int - 48)
  }

  /** The number that decimal digits denote, a minus sign in front of them or not. */
  function Number(t: Bytes): (n: int) {
    if t != [] && t[0] == '-' then -Natural(t[1..]) else Natural(t)
  }

  predicate DigitsOnly(t: Bytes) {
    t != [] && forall k :: 0 <= k < |t| ==> '0' <= t[k] <= '9'
  }

  lemma {:induction false} DigitsRead(n: nat)
    ensures DigitsOnly(Digits(n)) && Natural(Digits(n)) == n && (n > 0 ==> Digits(n)[0] != '0')
  {
    var front: Bytes := if n < 10 then [] else Digits(n / 10);
    if n >= 10 { DigitsRead(n / 10); }
    LastDigit(front, n % 10);
  }

  lemma LastDigit(front: Bytes, d: nat)
    requires d < 10 && (front == [] || DigitsOnly(front))
    ensures var t := front + [('0' as int + d) as char];
            DigitsOnly(t) && Natural(t) == 10 * Natural(front) + d && t[0] == if front == [] then ('0' as int + d) as char else front[0]
  {
    var t := front + [('0' as int + d) as char];
    assert t[..|t| - 1] == front;
  }

  lemma DecimalReads(n: int)
    ensures Number(Decimal(n)) == n && PlainText(Decimal(n))
    ensures n >= 0 ==> DigitsOnly(Decimal(n))
    ensures n > 0 ==> Decimal(n)[0] != '0'
  {
    if n < 0 { NegativeReads(-n); } else { NaturalReads(n); }
  }

  /** A number in a report is the number: only digits, no zero in front, and its value. */
  lemma NumberIsRead(n: int)
    ensures Number(AttValue(Scrubbed(Decimal(n), 0))) == n
    ensures n >= 0 ==> DigitsOnly(Decimal(n))
    ensures n > 0 ==> Decimal(n)[0] != '0'
  {
    DecimalReads(n);
    PlainValue(Decimal(n));
  }

  lemma NaturalReads(n: nat)
    ensures Number(Digits(n)) == n && PlainText(Digits(n)) && DigitsOnly(Digits(n)) && (n > 0 ==> Digits(n)[0] != '0')
  {
    DigitsRead(n);
  }

  lemma NegativeReads(n: nat)
    ensures Number("-" + Digits(n)) + n == 0 && PlainText("-" + Digits(n))
  {
    DigitsRead(n);
    assert ("-" + Digits(n))[1..] == Digits(n);
  }

  // ---------------------------------------------------------------------------------------
  // Expressions by failed
  // ---------------------------------------------------------------------------------------

  /** The value of the first attribute of that name. */
  function Value(atts: seq<Att>, name: Bytes): (v: Bytes) {
    if atts == [] then [] else if atts[0].name == name then atts[0].value else Value(atts[1..], name)
  }

  /** An expression that is shown as failed, or as passed. */
  predicate IsCheck(row: Row, failed: bool) {
    row.head.tag == "Expression" && Value(row.head.atts, "success") == if failed then "false" else "true"
  }

  /** How many expressions the rows show as failed, or as passed. */
  ghost function Outcomes(rows: seq<Row>, failed: bool): (n: nat) {
    if rows == [] then 0 else One(IsCheck(rows[0], failed)) + Outcomes(rows[1..], failed)
  }

  /** How many asserts of the items failed, or passed. */
  ghost function Checks(items: seq<Item>, failed: bool): (n: nat)
    decreases items, 0
  {
    if items == [] then 0 else ChecksIn(items[0], failed) + Checks(items[1..], failed)
  }

  ghost function ChecksIn(item: Item, failed: bool): (n: nat)
    decreases item, 1
  {
    match item
    case Check(a, _) => One(a.failed == failed)
    case Sub(_, body) => Checks(body, failed)
    case _ => 0
  }

  ghost function RunChecks(cases: seq<Case>, failed: bool): (n: nat) {
    if cases == [] then 0
    else (if cases[0].Ran? then Checks(cases[0].body, failed) else 0) + RunChecks(cases[1..], failed)
  }

  lemma {:induction false} OutcomesJoin(a: seq<Row>, b: seq<Row>, failed: bool)
    ensures Outcomes(a + b, failed) == Outcomes(a, failed) + Outcomes(b, failed)
    decreases |a|
  {
    if a == [] {
      assert a + b == b;
    } else {
      assert (a + b)[0] == a[0] && (a + b)[1..] == a[1..] + b;
      OutcomesJoin(a[1..], b, failed);
    }
  }

  lemma OneRow(row: Row, failed: bool)
    ensures Outcomes([row], failed) == One(IsCheck(row, failed))
  {
    assert [row][1..] == [];
  }

  lemma {:induction false} FirstSeen(att: Att, atts: seq<Att>)
    requires att.value != []
    ensures [Att(att.name, AttValue(Scrubbed(att.value, 0)))] <= SeenAtts([att] + atts)
    decreases |atts|
  {
    if atts == [] {
      SeenAttsLast([], att);
      assert [] + [att] == [att] + atts;
    } else {
      var front, last := atts[..|atts| - 1], atts[|atts| - 1];
      FirstSeen(att, front);
      assert [att] + atts == ([att] + front) + [last];
      SeenAttsLast([att] + front, last);
    }
  }

  lemma CheckOutcome(opt: Options, within: seq<Head>, a: AssertData, failed: bool)
    ensures IsCheck(Row(within, CheckHead(opt, a), []), failed) <==> a.failed == failed
  {
    FirstIsVerdict(opt, a);
    VerdictIsRead(a.failed);
    assert |Verdict(true)| == 5 && |Verdict(false)| == 4;
  }

  function Verdict(failed: bool): (t: Bytes) {
    if failed then "false" else "true"
  }

  lemma VerdictIsRead(failed: bool)
    ensures Verdict(failed) != [] && AttValue(Scrubbed(Verdict(failed), 0)) == Verdict(failed)
  {
    assert PlainText(Verdict(failed));
    PlainValue(Verdict(failed));
  }

  lemma FirstIsVerdict(opt: Options, a: AssertData)
    ensures Value(CheckHead(opt, a).atts, "success") == AttValue(Scrubbed(Verdict(a.failed), 0))
  {
    var rest := [Att("type", a.kind)] + Place(opt, a.file, a.line);
    var first := Att("success", Verdict(a.failed));
    assert [first, Att("type", a.kind)] + Place(opt, a.file, a.line) == [first] + rest;
    VerdictIsRead(a.failed);
    FirstSeen(first, rest);
  }

  /** No other element is called so. */
  predicate Other(row: Row) {
    |row.head.tag| != 10
  }

  lemma {:induction false} OthersDoNotCount(rows: seq<Row>, failed: bool)
    requires forall k :: 0 <= k < |rows| ==> Other(rows[k])
    ensures Outcomes(rows, failed) == 0
    decreases |rows|
  {
    if rows != [] {
      assert |"Expression"| == 10;
      OthersDoNotCount(rows[1..], failed);
    }
  }

  lemma {:induction false} InfosAreOther(within: seq<Head>, infos: seq<Bytes>)
    ensures forall k :: 0 <= k < |InfoRows(within, infos)| ==> Other(InfoRows(within, infos)[k])
    decreases |infos|
  {
    if infos != [] {
      InfosAreOther(within, infos[..|infos| - 1]);
      assert |"Info"| == 4;
    }
  }

  lemma PartsAreOther(within: seq<Head>, a: AssertData, infos: seq<Bytes>)
    ensures forall k :: 0 <= k < |PartRows(within, a, infos)| ==> Other(PartRows(within, a, infos)[k])
  {
    InfosAreOther(within, infos);
    OutcomesAreOther(within, a);
    assert |"Original"| == 8 && |"Exception"| == 9;
  }

  lemma OutcomesAreOther(within: seq<Head>, a: AssertData)
    ensures forall k :: 0 <= k < |OutcomeRows(within, a)| ==> Other(OutcomeRows(within, a)[k])
  {
    assert |"ExpectedException"| == 17 && |"ExpectedExceptionString"| == 23 && |"Expanded"| == 8;
  }

  lemma CheckCounts(opt: Options, within: seq<Head>, a: AssertData, infos: seq<Bytes>, failed: bool)
    ensures Outcomes(CheckRows(opt, within, a, infos), failed)
         == One((a.failed || opt.success) && a.failed == failed)
  {
    if a.failed || opt.success {
      var inside := within + [CheckHead(opt, a)];
      OutcomesJoin([Row(within, CheckHead(opt, a), [])], PartRows(inside, a, infos), failed);
      PartsAreOther(inside, a, infos);
      OthersDoNotCount(PartRows(inside, a, infos), failed);
      OneRow(Row(within, CheckHead(opt, a), []), failed);
      CheckOutcome(opt, within, a, failed);
    }
  }

  lemma NoteCounts(opt: Options, within: seq<Head>, m: MessageData, infos: seq<Bytes>, failed: bool)
    ensures Outcomes(NoteRows(opt, within, m, infos), failed) == 0
  {
    var head := Head("Message", SeenAtts([Att("type", m.severity)] + Place(opt, m.file, m.line)));
    InfosAreOther(within + [head], infos);
    assert |"Message"| == 7 && |"Text"| == 4;
    OthersDoNotCount(NoteRows(opt, within, m, infos), failed);
  }

  /** Asserts that passed are shown on request only. */
  ghost function Shown(opt: Options, failed: bool, n: nat): (m: nat) {
    if failed || opt.success then n else 0
  }

  lemma {:induction false} ItemCounts(opt: Options, within: seq<Head>, item: Item, failed: bool)
    ensures Outcomes(ItemRows(opt, within, item), failed) == Shown(opt, failed, ChecksIn(item, failed))
    decreases item, 1
  {
    match item
    case Check(a, infos) => CheckCounts(opt, within, a, infos, failed);
    case Note(m, infos) => NoteCounts(opt, within, m, infos, failed);
    case Crash(error, isCrash) =>
      assert |"Exception"| == 9;
      OthersDoNotCount(ItemRows(opt, within, item), failed);
    case Sub(sig, body) =>
      var head := Head("SubCase", SeenAtts([Att("name", sig.name)] + Place(opt, sig.file, sig.line)));
      ItemsCount(opt, within + [head], body, failed);
      OutcomesJoin([Row(within, head, [])], ItemsRows(opt, within + [head], body), failed);
      assert |"SubCase"| == 7;
      OthersDoNotCount([Row(within, head, [])], failed);
  }

  lemma {:induction false} ItemsCount(opt: Options, within: seq<Head>, items: seq<Item>, failed: bool)
    ensures Outcomes(ItemsRows(opt, within, items), failed) == Shown(opt, failed, Checks(items, failed))
    decreases items, 0
  {
    if items != [] {
      ItemCounts(opt, within, items[0], failed);
      ItemsCount(opt, within, items[1..], failed);
      OutcomesJoin(ItemRows(opt, within, items[0]), ItemsRows(opt, within, items[1..]), failed);
    }
  }

  lemma CaseCounts(opt: Options, within: seq<Head>, c: Case, failed: bool)
    ensures Outcomes(CaseRows(opt, within, c), failed)
         == if c.Ran? then Shown(opt, failed, Checks(c.body, failed)) else 0
  {
    var inside := within + [CaseHead(opt, c)];
    var head := [Row(within, CaseHead(opt, c), [])];
    HeadsAreOther(opt, within, c);
    OthersDoNotCount(head, failed);
    if c.Ran? {
      RanCounts(opt, head, inside, c, failed);
    } else {
      assert head + [] == head;
    }
  }

  lemma HeadsAreOther(opt: Options, within: seq<Head>, c: Case)
    ensures Other(Row(within, CaseHead(opt, c), []))
    ensures c.Ran? ==> Other(Row(within, ResultHead(opt, c.tc, c.stats), []))
  {
    assert |"TestCase"| == 8 && |"OverallResultsAsserts"| == 21;
  }

  lemma RanCounts(opt: Options, head: seq<Row>, inside: seq<Head>, c: Case, failed: bool)
    requires c.Ran? && Outcomes(head, failed) == 0
    ensures Outcomes(head + (ItemsRows(opt, inside, c.body) + [Row(inside, ResultHead(opt, c.tc, c.stats), [])]), failed)
         == Shown(opt, failed, Checks(c.body, failed))
  {
    var rows, last := ItemsRows(opt, inside, c.body), [Row(inside, ResultHead(opt, c.tc, c.stats), [])];
    HeadsAreOther(opt, inside, c);
    OthersDoNotCount(last, failed);
    ItemsCount(opt, inside, c.body, failed);
    OutcomesJoin(rows, last, failed);
    OutcomesJoin(head, rows + last, failed);
  }

  lemma {:induction false} CasesCount(opt: Options, within: seq<Head>, suite: Option<Bytes>, cases: seq<Case>, failed: bool)
    ensures Outcomes(CasesRows(opt, within, suite, cases), failed) == Shown(opt, failed, RunChecks(cases, failed))
    decreases |cases|
  {
    if cases != [] {
      var c := cases[0];
      if Shows(opt, c) {
        CasesCount(opt, within, Some(c.tc.suite), cases[1..], failed);
        CaseCounts(opt, within + [SuiteHead(c.tc.suite)], c, failed);
        FirstCaseCounts(opt, within, suite, cases, failed);
      } else {
        CasesCount(opt, within, suite, cases[1..], failed);
      }
    }
  }

  lemma SuiteIsOther(within: seq<Head>, suite: Bytes)
    ensures Other(Row(within, SuiteHead(suite), []))
  {
    assert |"TestSuite"| == 9;
  }

  lemma FirstCaseCounts(opt: Options, within: seq<Head>, suite: Option<Bytes>, cases: seq<Case>, failed: bool)
    requires cases != [] && Shows(opt, cases[0])
    ensures Outcomes(CasesRows(opt, within, suite, cases), failed)
         == Outcomes(CaseRows(opt, within + [SuiteHead(cases[0].tc.suite)], cases[0]), failed)
            + Outcomes(CasesRows(opt, within, Some(cases[0].tc.suite), cases[1..]), failed)
  {
    var own := cases[0].tc.suite;
    var head := if suite == Some(own) then [] else [Row(within, SuiteHead(own), [])];
    var first, others := CaseRows(opt, within + [SuiteHead(own)], cases[0]), CasesRows(opt, within, Some(own), cases[1..]);
    NextRows(opt, within, suite, cases);
    SuiteIsOther(within, own);
    OthersDoNotCount(head, failed);
    ThreeOutcomes(head, first, others, failed);
  }

  lemma ThreeOutcomes(a: seq<Row>, b: seq<Row>, c: seq<Row>, failed: bool)
    ensures Outcomes(a + b + c, failed) == Outcomes(a, failed) + Outcomes(b, failed) + Outcomes(c, failed)
  {
    OutcomesJoin(a, b, failed);
    OutcomesJoin(a + b, c, failed);
  }

  /**
   * A report shows as many expressions with success="false" as asserts failed in the run, and as
   * many with success="true" as passed if these are to be shown, none otherwise.
   */
  lemma ReportCounts(opt: Options, run: TestRun)
    ensures Outcomes(Report(opt, run), true) == RunChecks(run.cases, true)
    ensures Outcomes(Report(opt, run), false) == if opt.success then RunChecks(run.cases, false) else 0
  {
    OutcomeCounts(opt, run, true);
    OutcomeCounts(opt, run, false);
  }

  lemma OutcomeCounts(opt: Options, run: TestRun, failed: bool)
    ensures Outcomes(Report(opt, run), failed) == Shown(opt, failed, RunChecks(run.cases, failed))
  {
    var inside := [RunHead(opt)];
    var root, options := [Row([], RunHead(opt), [])], [Row(inside, OptionsHead(opt), [])];
    var cases, totals := CasesRows(opt, inside, None, run.cases), TotalRows(opt, inside, run.stats);
    FrameIsOther(opt, inside, run.stats);
    OthersDoNotCount(root, failed);
    OthersDoNotCount(options, failed);
    OthersDoNotCount(totals, failed);
    CasesCount(opt, inside, None, run.cases, failed);
    FourOutcomes(root, options, cases, totals, failed);
  }

  lemma FrameIsOther(opt: Options, inside: seq<Head>, p: RunStats)
    ensures Other(Row([], RunHead(opt), [])) && Other(Row(inside, OptionsHead(opt), []))
    ensures forall k :: 0 <= k < |TotalRows(opt, inside, p)| ==> Other(TotalRows(opt, inside, p)[k])
  {
    assert |"doctest"| == 7 && |"Options"| == 7 && |"OverallResultsAsserts"| == 21 && |"OverallResultsTestCases"| == 23;
  }

  lemma FourOutcomes(a: seq<Row>, b: seq<Row>, c: seq<Row>, d: seq<Row>, failed: bool)
    ensures Outcomes(a + (b + c + d), failed)
         == Outcomes(a, failed) + Outcomes(b, failed) + Outcomes(c, failed) + Outcomes(d, failed)
  {
    OutcomesJoin(b, c, failed);
    OutcomesJoin(b + c, d, failed);
    OutcomesJoin(a, b + c + d, failed);
  }
}
