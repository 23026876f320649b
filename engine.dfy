/** The hypothesis-test runner and the report: which p-values are computed,
    from which tables and samples, and the fixed seven-line result file. The
    chi-squared test, Welch's t-test and the 4-decimal rendering are taken as
    parameters: they are floating-point library code outside the model. */
module Engine {
  import opened Frame
  import opened Cleaning
  import opened Segments

  /** A p-value, or the "nan" of a test that was not run. */
  datatype PValue = NotComputed | Computed(p: real)

  /** The six results, one per report line. */
  datatype Results = Results(
    province: PValue,
    zipFrequency: PValue,
    zipSeverity: PValue,
    zipMargin: PValue,
    genderFrequency: PValue,
    genderSeverity: PValue)

  /** A comparability table that is printed only when its groups exist. */
  datatype Check = NotShown | Shown(table: Table)

  /** The console output: row and claim totals, the per-province claim
      aggregates and the two comparability tables. */
  datatype Diagnostics = Diagnostics(
    totalRows: nat,
    totalClaims: nat,
    provinceClaims: seq<ProvinceClaims>,
    vehicleCheck: Check,
    genderCheck: Table)

  /** Fewer valid postal codes than this and the postal-code tests are skipped. */
  const ZipMinCodes: nat := 2

  /** The outcome of hypotheses 2 and 3: all four outputs exist exactly when
      two codes qualify, and then each comes from its own table or samples of
      the selected pair. */
  predicate ZipOutcome(rows: seq<Record>, chi2: seq<seq<nat>> -> real, welch: (seq<real>, seq<real>) -> real,
                       pFrequency: PValue, pSeverity: PValue, pMargin: PValue, vehicleCheck: Check)
  {
    && (pFrequency.Computed? <==> |ValidZips(rows)| >= ZipMinCodes)
    && (pSeverity.Computed? <==> |ValidZips(rows)| >= ZipMinCodes)
    && (pMargin.Computed? <==> |ValidZips(rows)| >= ZipMinCodes)
    && (vehicleCheck.Shown? <==> |ValidZips(rows)| >= ZipMinCodes)
    && (TopTwo(rows).Pair? ==>
         var p := TopTwo(rows);
         && pFrequency == Computed(chi2(CrossTab(rows, PostalIn([p.a, p.b]), HasClaim).cells))
         && pSeverity == Computed(welch(Severity(Group(rows, p.a)), Severity(Group(rows, p.b))))
         && pMargin == Computed(welch(Margins(Group(rows, p.a)), Margins(Group(rows, p.b))))
         && vehicleCheck == Shown(CrossTab(rows, PostalIn([p.a]), VehicleType)))
  }

  /** Lines 29-60, hypotheses 2 and 3: the postal-code frequency and severity
      tests run only when two codes qualify; the margin test runs only when the
      groups of hypothesis 2 exist and are non-empty. */
  method ZipHypotheses(rows: seq<Record>, chi2: seq<seq<nat>> -> real, welch: (seq<real>, seq<real>) -> real)
    returns (pFrequency: PValue, pSeverity: PValue, pMargin: PValue, vehicleCheck: Check)
    ensures ZipOutcome(rows, chi2, welch, pFrequency, pSeverity, pMargin, vehicleCheck)
  {
    var haveGroups := false;
    var groupA: seq<Record> := [];
    var groupB: seq<Record> := [];
    if |ValidZips(rows)| < ZipMinCodes {
      pFrequency, pSeverity := NotComputed, NotComputed;
      vehicleCheck := NotShown;
    } else {
      var pair := TopTwo(rows);
      groupA, groupB := Group(rows, pair.a), Group(rows, pair.b);
      haveGroups := true;
      vehicleCheck := Shown(CrossTab(rows, PostalIn([pair.a]), VehicleType));
      pFrequency := Computed(chi2(CrossTab(rows, PostalIn([pair.a, pair.b]), HasClaim).cells));
      pSeverity := Computed(welch(Severity(groupA), Severity(groupB)));
      PairGroupsNonEmpty(rows);
    }
    if haveGroups && |groupA| > 0 && |groupB| > 0 {
      pMargin := Computed(welch(Margins(groupA), Margins(groupB)));
    } else {
      pMargin := NotComputed;
    }
  }

  /** The outcome of hypothesis 4: each test runs exactly when its claim
      floor is met, on its own table or samples. */
  predicate GenderOutcome(rows: seq<Record>, chi2: seq<seq<nat>> -> real, welch: (seq<real>, seq<real>) -> real,
                          pFrequency: PValue, pSeverity: PValue)
  {
    && (pFrequency.Computed? <==> GenderFrequencyTestable(rows))
    && (pSeverity.Computed? <==> GenderSeverityTestable(rows))
    && (pFrequency.Computed? ==>
         pFrequency.p == chi2(CrossTab(rows, GenderIn(["Male", "Female"]), HasClaim).cells))
    && (pSeverity.Computed? ==>
         pSeverity.p == welch(Severity(GenderGroup(rows, "Male")), Severity(GenderGroup(rows, "Female"))))
  }

  /** Lines 62-86, hypothesis 4: the frequency test needs 50 claims in each
      gender, the severity test 10. */
  method GenderHypothesis(rows: seq<Record>, chi2: seq<seq<nat>> -> real, welch: (seq<real>, seq<real>) -> real)
    returns (pFrequency: PValue, pSeverity: PValue, genderCheck: Table)
    ensures GenderOutcome(rows, chi2, welch, pFrequency, pSeverity)
    ensures pFrequency.Computed? ==> pSeverity.Computed?
    ensures genderCheck == CrossTab(rows, GenderIn(["Male"]), Province)
  {
    var male, female := GenderGroup(rows, "Male"), GenderGroup(rows, "Female");
    genderCheck := CrossTab(rows, GenderIn(["Male"]), Province);
    var maleClaims, femaleClaims := |ClaimRows(male)|, |ClaimRows(female)|;
    if maleClaims >= GenderFrequencyFloor && femaleClaims >= GenderFrequencyFloor {
      pFrequency := Computed(chi2(CrossTab(rows, GenderIn(["Male", "Female"]), HasClaim).cells));
    } else {
      pFrequency := NotComputed;
    }
    if maleClaims >= GenderSeverityFloor && femaleClaims >= GenderSeverityFloor {
      pSeverity := Computed(welch(Severity(male), Severity(female)));
    } else {
      pSeverity := NotComputed;
    }
  }

  /** What the analysis of `rows` reports, slot by slot: the province test
      always runs on the province table; the postal-code tests run exactly when
      two codes qualify, each on its own table or samples of the selected pair;
      the gender tests run exactly when their claim floors are met, each on its
      own table or samples; and the diagnostics hold the totals, the province
      aggregates and both comparability tables. */
  predicate Reports(rows: seq<Record>, chi2: seq<seq<nat>> -> real, welch: (seq<real>, seq<real>) -> real,
                    res: Results, diag: Diagnostics)
  {
    && res.province == Computed(chi2(CrossTab(rows, Province, HasClaim).cells))
    && ZipOutcome(rows, chi2, welch, res.zipFrequency, res.zipSeverity, res.zipMargin, diag.vehicleCheck)
    && GenderOutcome(rows, chi2, welch, res.genderFrequency, res.genderSeverity)
    && diag.totalRows == |rows| && diag.totalClaims == |ClaimRows(rows)|
    && diag.provinceClaims == ProvinceSeverity(rows)
    && diag.genderCheck == CrossTab(rows, GenderIn(["Male"]), Province)
  }

  /** The description leaves no freedom: two outcomes that both meet it are
      equal, so every report slot is fixed by the rows and the two tests. */
  lemma ReportsDetermined(rows: seq<Record>, chi2: seq<seq<nat>> -> real, welch: (seq<real>, seq<real>) -> real,
                          res: Results, diag: Diagnostics, res': Results, diag': Diagnostics)
    requires Reports(rows, chi2, welch, res, diag) && Reports(rows, chi2, welch, res', diag')
    ensures res == res' && diag == diag'
  {
    assert res.genderFrequency == res'.genderFrequency;
    assert res.genderSeverity == res'.genderSeverity;
    if |ValidZips(rows)| >= ZipMinCodes {
      assert TopTwo(rows).Pair?;
    }
  }

  /** In every outcome the analysis can produce, the gender frequency test
      runs only if the gender severity test does too. */
  lemma GenderGatesNested(rows: seq<Record>, chi2: seq<seq<nat>> -> real, welch: (seq<real>, seq<real>) -> real,
                          res: Results, diag: Diagnostics)
    requires Reports(rows, chi2, welch, res, diag)
    ensures res.genderFrequency.Computed? ==> res.genderSeverity.Computed?
  {
  }

  /** Lines 19-86: run the four hypotheses in order. `chi2` is the p-value of a
      chi-squared independence test on a count table; `welch` is the p-value of
      Welch's two-sample t-test. */
  method Analyze(rows: seq<Record>, chi2: seq<seq<nat>> -> real, welch: (seq<real>, seq<real>) -> real)
    returns (res: Results, diag: Diagnostics)
    ensures Reports(rows, chi2, welch, res, diag)
  {
    var pProvince := Computed(chi2(CrossTab(rows, Province, HasClaim).cells));
    var provinceClaims := ProvinceSeverity(rows);
    var pFrequency, pSeverity, pMargin, vehicleCheck := ZipHypotheses(rows, chi2, welch);
    var pGenderFrequency, pGenderSeverity, genderCheck := GenderHypothesis(rows, chi2, welch);
    res := Results(pProvince, pFrequency, pSeverity, pMargin, pGenderFrequency, pGenderSeverity);
    diag := Diagnostics(|rows|, |ClaimRows(rows)|, provinceClaims, vehicleCheck, genderCheck);
  }

  const Header: string := "A/B Testing Results"

  /** The report labels, in report order. */
  const Labels: seq<string> := [
    "Province Risk", "Zip Code Frequency", "Zip Code Severity",
    "Zip Code Margin", "Gender Frequency", "Gender Severity"]

  const Separator: string := ": p-value = "

  /** The six results in report order. */
  function InOrder(res: Results): seq<PValue> {
    [res.province, res.zipFrequency, res.zipSeverity, res.zipMargin, res.genderFrequency, res.genderSeverity]
  }

  /** A p-value as written: `nan` for a test that was not run. */
  function Render(v: PValue, fmt: real -> string): string {
    match v
    case NotComputed => "nan"
    case Computed(p) => fmt(p)
  }

  /** Lines 89-96: the header and one line per result, in fixed order. */
  function ReportLines(res: Results, fmt: real -> string): (lines: seq<string>) {
    [Header] + seq(6, i requires 0 <= i < 6 => Labels[i] + Separator + Render(InOrder(res)[i], fmt))
  }

  /** The text after the separator on report line `i + 1`. */
  function ValueText(lines: seq<string>, i: nat): string
    requires i < 6 && |lines| == 7 && |Labels[i] + Separator| <= |lines[i + 1]|
  {
    lines[i + 1][|Labels[i] + Separator|..]
  }

  /** The report always has seven lines: the header, then each label in order
      followed by its value. Read back, a value is `nan` exactly when its test
      was not run (given a formatter that renders every real as a number), and
      otherwise is the rendered p-value. */
  lemma ReportReadBack(res: Results, fmt: real -> string)
    requires forall x :: fmt(x) != "nan"
    ensures var lines := ReportLines(res, fmt);
      |lines| == 7 && lines[0] == Header
      && forall i :: 0 <= i < 6 ==>
           && Labels[i] + Separator <= lines[i + 1]
           && (ValueText(lines, i) == "nan" <==> InOrder(res)[i].NotComputed?)
           && (InOrder(res)[i].Computed? ==> ValueText(lines, i) == fmt(InOrder(res)[i].p))
  {
    var lines := ReportLines(res, fmt);
    forall i | 0 <= i < 6
      ensures Labels[i] + Separator <= lines[i + 1]
      ensures ValueText(lines, i) == Render(InOrder(res)[i], fmt)
    {
      var pre := Labels[i] + Separator;
      assert lines[i + 1] == pre + Render(InOrder(res)[i], fmt);
      assert lines[i + 1][..|pre|] == pre;
    }
  }

  /** The whole script: clean the columns in place, add the derived columns,
      run the hypotheses and produce the report lines. */
  method Run(a: array<Record>, chi2: seq<seq<nat>> -> real, welch: (seq<real>, seq<real>) -> real, fmt: real -> string)
    returns (res: Results, diag: Diagnostics, lines: seq<string>)
    modifies a
    ensures forall i :: 0 <= i < a.Length ==> a[i] == Derive(NormalizeRecord(old(a[i])))
    ensures forall i :: 0 <= i < a.Length ==> Normalized(a[i]) && Derived(a[i])
    ensures Reports(a[..], chi2, welch, res, diag)
    ensures lines == ReportLines(res, fmt)
  {
    Clean(a);
    DeriveMetrics(a);
    forall i | 0 <= i < a.Length ensures Normalized(a[i]) {
      NormalizeRecordSpec(old(a[i]));
    }
    res, diag := Analyze(a[..], chi2, welch);
    lines := ReportLines(res, fmt);
  }
}
