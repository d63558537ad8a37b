/** Concrete inputs on which the producer reports OK and the validator refuses the report, one for each cause. */
module SerpDisagreements {
  import opened Wrappers
  import opened Sequences
  import opened Text
  import opened SerpEvidence

  const PAGE := "https://rival.test/guide"
  const BARE_PAGE := "rival.test/guide"
  const BROKEN_PAGE := "http://[rival"
  const TODAY := "2026-07-01"
  const TOMORROW := "2026-07-02"
  const TAILED := "2026-07-01 or so"
  const JULY_FIRST := 739798

  /** The weights used when none are supplied. */
  const DEFAULT_WEIGHTS := map[
    "intent_fit" := 0.25, "first_hand_evidence" := 0.2, "source_quality" := 0.15, "freshness" := 0.15,
    "entity_coverage" := 0.15, "conversion_fit" := 0.1]

  /** What the Python library answers about these texts on 1 July 2026: which can be taken apart, hosts, which text has
      a scheme, which dates parse. */
  ghost predicate LikePython(e: Environment) {
    && e.splits("") && e.splits(PAGE) && e.splits(BARE_PAGE) && e.splits("42") && !e.splits(BROKEN_PAGE)
    && e.host("") == "" && e.publicForm(PAGE) && !e.publicForm(BARE_PAGE)
    && e.day(TODAY) == Some(JULY_FIRST) && e.moment(TODAY) == Some(JULY_FIRST)
    && e.day(TOMORROW) == Some(JULY_FIRST + 1) && e.moment(TOMORROW) == Some(JULY_FIRST + 1)
    && e.day(TAILED) == Some(JULY_FIRST) && e.moment(TAILED) == None
    && e.today == JULY_FIRST && e.isoToday == TODAY
  }

  function Page(url: string, textual: bool): ResultRow {
    ResultRow(Observed(url, textual, "informational", true, true, false, TODAY, 3), true, false, false)
  }

  function CaptureOf(date: string, source: Value): Capture {
    map["query" := Text("seo audit"), "locale" := Text("en-GB"), "device" := Text("mobile"), "date" := Text(date),
        "source" := source]
  }

  /** The assessment of one row, without own domain, known competitors, weights or target intent. */
  function AssessPage(e: Environment, row: ResultRow, capture: Capture, asOf: string):
    Result<Assessment, string>
  {
    Assess(e, [row], capture, "", {}, DEFAULT_WEIGHTS, asOf, None)
  }

  lemma DefaultWeightsNamed()
    ensures NameKeys(DEFAULT_WEIGHTS)
  {
    var w := DEFAULT_WEIGHTS;
    forall n
      ensures n in w <==> n in NAMES
    {
      assert NAMES[0] in w && NAMES[1] in w && NAMES[2] in w && NAMES[3] in w && NAMES[4] in w && NAMES[5] in w;
    }
  }

  lemma PositiveWeightsAccepted(w: map<string, real>)
    requires NameKeys(w) && forall n :: n in w ==> w[n] > 0.0
    ensures Weights(w).Ok?
  {
    PartOfSum(NAMES, w, NAMES[0]);
    assert NAMES[0] in NAMES && NAMES[0] in w;
  }

  lemma DefaultWeightsAccepted()
    ensures Weights(DEFAULT_WEIGHTS).Ok?
  {
    DefaultWeightsNamed();
    PositiveWeightsAccepted(DEFAULT_WEIGHTS);
  }

  lemma FixedFields()
    ensures Strip("seo audit") != "" && Strip("en-GB") != "" && Strip("mobile") != ""
  {
    Unpadded("seo audit");
    Unpadded("en-GB");
    Unpadded("mobile");
  }

  lemma CaptureRecorded(date: string, source: Value)
    requires date != "" && source.Truthy()
    ensures forall k :: k in REQUIRED_CAPTURE ==> Recorded(CaptureOf(date, source), k)
    ensures source.Filled() && Strip(date) != "" ==> FieldsFilled(CaptureOf(date, source))
    ensures !source.Filled() ==> !FieldsFilled(CaptureOf(date, source))
  {
    var c := CaptureOf(date, source);
    assert REQUIRED_CAPTURE[4] == "source";
    assert c["source"] == source && c["date"] == Text(date);
    FixedFields();
  }

  lemma PageIsKept(e: Environment, row: ResultRow)
    requires Listed(row) && !row.inaccessible && !row.fetchError && e.host("") == ""
    ensures KeptRow(e, e.host(""), [row], 0)
  {
  }

  lemma OnlyRowKept(e: Environment, row: ResultRow)
    requires Listed(row) && !row.inaccessible && !row.fetchError && e.host("") == ""
    ensures forall i: nat :: KeptRow(e, e.host(""), [row], i) <==> i == 0
  {
    PageIsKept(e, row);
  }

  /** A report is OK, and accepted exactly when its page is public, its fields are filled and its dates are in order. */
  lemma ReportExactly(e: Environment, row: ResultRow, date: string, source: Value, asOf: string)
    requires LikePython(e) && Listed(row) && !row.inaccessible && !row.fetchError
    requires date != "" && source.Truthy() && !IsStale(e, Text(date), AssessedOn(e, asOf))
    requires e.splits(Strip(row.observed.url)) && row.sized
    ensures
      var r := AssessPage(e, row, CaptureOf(date, source), asOf);
      && r.Ok? && r.value.status == "OK"
      && (SerpEvidenceValid(e, r.value) <==>
          PublicUrl(e, row.observed) && FieldsFilled(CaptureOf(date, source)) && DatesInOrder(e, Text(date), asOf))
  {
    DefaultWeightsAccepted();
    CaptureRecorded(date, source);
    OnlyRowKept(e, row);
    assert KeptRow(e, e.host(""), [row], 0);
    OneRowQuiet(e, row);
    ReportedOk(e, [row], CaptureOf(date, source), "", {}, DEFAULT_WEIGHTS, asOf, None, 0);
    OneRowPresentable(e, row, CaptureOf(date, source), asOf);
  }

  lemma OneRowQuiet(e: Environment, row: ResultRow)
    requires e.splits("") && e.splits(Strip(row.observed.url)) && row.sized
    ensures !Raises(e, "", {}, [row])
  {
  }

  lemma OneRowPresentable(e: Environment, row: ResultRow, capture: Capture, asOf: string)
    requires "date" in capture
    requires forall i: nat :: KeptRow(e, e.host(""), [row], i) <==> i == 0
    ensures Presentable(e, [row], capture, "", asOf) <==>
            PublicUrl(e, row.observed) && FieldsFilled(capture) && DatesInOrder(e, capture["date"], asOf)
  {
    assert KeptRow(e, e.host(""), [row], 0) && [row][0] == row;
  }

  ghost predicate OkAndAccepted(e: Environment, r: Result<Assessment, string>) {
    r.Ok? && r.value.status == "OK" && SerpEvidenceValid(e, r.value)
  }

  ghost predicate OkAndRefused(e: Environment, r: Result<Assessment, string>) {
    r.Ok? && r.value.status == "OK" && !SerpEvidenceValid(e, r.value)
  }

  lemma Texts()
    ensures Strip(PAGE) == PAGE && Strip(BARE_PAGE) == BARE_PAGE && Strip("42") == "42"
    ensures Take(TODAY, 10) == TODAY && Take(TOMORROW, 10) == TOMORROW
  {
    Unpadded(PAGE);
    Unpadded(BARE_PAGE);
    Unpadded("42");
  }

  lemma Fields()
    ensures Strip(" ") == "" && Strip("manual") != "" && Strip(TODAY) != "" && Strip(TOMORROW) != ""
    ensures Strip(TAILED) != ""
  {
    Unpadded("manual");
    Unpadded(TODAY);
    Unpadded(TOMORROW);
    Unpadded(TAILED);
  }

  /** The reference input, from which each of the following differs in one place, is accepted. */
  lemma ReferenceIsAccepted(e: Environment)
    requires LikePython(e)
    ensures OkAndAccepted(e, AssessPage(e, Page(PAGE, true), CaptureOf(TODAY, Text("manual")), TODAY))
  {
    Texts();
    Fields();
    CaptureRecorded(TODAY, Text("manual"));
    ReportExactly(e, Page(PAGE, true), TODAY, Text("manual"), TODAY);
  }

  /** A URL without a scheme. */
  lemma NoSchemeIsRefused(e: Environment)
    requires LikePython(e)
    ensures OkAndRefused(e, AssessPage(e, Page(BARE_PAGE, true), CaptureOf(TODAY, Text("manual")), TODAY))
  {
    Texts();
    Fields();
    ReportExactly(e, Page(BARE_PAGE, true), TODAY, Text("manual"), TODAY);
  }

  /** A URL that is a number. */
  lemma NumericUrlIsRefused(e: Environment)
    requires LikePython(e)
    ensures OkAndRefused(e, AssessPage(e, Page("42", false), CaptureOf(TODAY, Text("manual")), TODAY))
  {
    Texts();
    Fields();
    ReportExactly(e, Page("42", false), TODAY, Text("manual"), TODAY);
  }

  /** A capture field of blanks. */
  lemma BlankSourceIsRefused(e: Environment)
    requires LikePython(e)
    ensures OkAndRefused(e, AssessPage(e, Page(PAGE, true), CaptureOf(TODAY, Text(" ")), TODAY))
  {
    Texts();
    Fields();
    CaptureRecorded(TODAY, Text(" "));
    ReportExactly(e, Page(PAGE, true), TODAY, Text(" "), TODAY);
  }

  /** A capture field that is a number: seven counts as recorded. */
  lemma NumericSourceIsRefused(e: Environment)
    requires LikePython(e)
    ensures OkAndRefused(e, AssessPage(e, Page(PAGE, true), CaptureOf(TODAY, Other("7", true)), TODAY))
  {
    Texts();
    Fields();
    CaptureRecorded(TODAY, Other("7", true));
    ReportExactly(e, Page(PAGE, true), TODAY, Other("7", true), TODAY);
  }

  /** A capture dated tomorrow: it counts as fresh, being minus one day old. */
  lemma FutureCaptureIsRefused(e: Environment)
    requires LikePython(e)
    ensures OkAndRefused(e, AssessPage(e, Page(PAGE, true), CaptureOf(TOMORROW, Text("manual")), TODAY))
  {
    Texts();
    Fields();
    ReportExactly(e, Page(PAGE, true), TOMORROW, Text("manual"), TODAY);
  }

  /** An assessment dated tomorrow. */
  lemma FutureAssessmentIsRefused(e: Environment)
    requires LikePython(e)
    ensures OkAndRefused(e, AssessPage(e, Page(PAGE, true), CaptureOf(TODAY, Text("manual")), TOMORROW))
  {
    Texts();
    Fields();
    ReportExactly(e, Page(PAGE, true), TODAY, Text("manual"), TOMORROW);
  }

  /** A capture date whose first ten characters alone are a date. */
  lemma TailedDateIsRefused(e: Environment)
    requires LikePython(e)
    ensures OkAndRefused(e, AssessPage(e, Page(PAGE, true), CaptureOf(TAILED, Text("manual")), TODAY))
  {
    Texts();
    Fields();
    ReportExactly(e, Page(PAGE, true), TAILED, Text("manual"), TODAY);
  }

  /** A URL that cannot be taken apart raises instead of being reported. */
  lemma BrokenUrlRaises(e: Environment)
    requires LikePython(e)
    ensures AssessPage(e, Page(BROKEN_PAGE, true), CaptureOf(TODAY, Text("manual")), TODAY).Err?
  {
    Unpadded(BROKEN_PAGE);
    assert RaisesAt(e, e.host(""), [Page(BROKEN_PAGE, true)], 0);
  }

  /** The required answers fit together. */
  lemma LikePythonIsPossible()
    ensures exists e :: LikePython(e)
  {
    var e := Environment(
      s => s != BROKEN_PAGE, s => if s == "" then "" else "rival.test", s => s == PAGE,
      s => if s == TOMORROW then Some(JULY_FIRST + 1) else Some(JULY_FIRST),
      s => if s == TOMORROW then Some(JULY_FIRST + 1) else if s == TAILED then None else Some(JULY_FIRST),
      JULY_FIRST, TODAY);
    assert TODAY[9] != TOMORROW[9] && |TODAY| != |TAILED| && |TOMORROW| != |TAILED| && |PAGE| != |BARE_PAGE|;
    assert BROKEN_PAGE[4] == ':' && PAGE[4] == 's' && BARE_PAGE[4] == 'l' && |BROKEN_PAGE| > 2;
    assert LikePython(e);
  }
}
