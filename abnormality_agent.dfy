/** The classifier: a fixed reference table per gender and measurement, and the
    analysis that grades hemoglobin, white cells and platelets against it. */
module Abnormality {
  import opened PyText
  import opened PyDict

  /** A reference range (lower, upper); a value on either bound is normal. */
  datatype Range = Range(lower: real, upper: real)

  /** One entry of the analysis: {"status": ..., "severity": ...}. */
  datatype Finding = Finding(status: string, severity: string)

  /** The analysis report: a dict from measurement name to its finding. */
  type AnalysisReport = Dict<Finding>

  /** The measurements, in the order the analysis fills them in. */
  const Measurements: seq<string> := ["hb", "wbc", "platelets"]

  /** The reference ranges, keyed by gender and then by measurement. */
  const ReferenceTable: map<string, map<string, Range>> := map[
    "Male" := map[
      "hb" := Range(13.5, 17.5),
      "wbc" := Range(4500.0, 11000.0),
      "platelets" := Range(150000.0, 450000.0)],
    "Female" := map[
      "hb" := Range(12.0, 15.5),
      "wbc" := Range(4500.0, 11000.0),
      "platelets" := Range(150000.0, 450000.0)]]

  /** Every range of the table is a proper interval, and both genders grade
      the same three measurements. */
  lemma ReferenceTableWellFormed()
    ensures ReferenceTable.Keys == {"Male", "Female"}
    ensures forall g :: g in ReferenceTable ==> ReferenceTable[g].Keys == {"hb", "wbc", "platelets"}
    ensures forall g, m :: g in ReferenceTable && m in ReferenceTable[g] ==>
      ReferenceTable[g][m].lower < ReferenceTable[g][m].upper
  {
  }

  /** The two genders share every range except hemoglobin's. */
  lemma ReferenceTableDiffersOnlyInHb()
    ensures ReferenceTable["Male"]["wbc"] == ReferenceTable["Female"]["wbc"]
    ensures ReferenceTable["Male"]["platelets"] == ReferenceTable["Female"]["platelets"]
    ensures ReferenceTable["Male"]["hb"] == Range(13.5, 17.5)
    ensures ReferenceTable["Female"]["hb"] == Range(12.0, 15.5)
  {
  }

  /** The gender whose ranges are used: the capitalised input when it names a
      row of the table, otherwise "Male". */
  function ResolveGender(gender: string): (g: string)
    ensures g in ReferenceTable
  {
    var c := Capitalize(gender);
    if c in ReferenceTable then c else "Male"
  }

  /** Any spelling of "female", in any mix of cases, selects the Female row;
      every other input, "male" in any case or anything unrecognised, silently
      falls back to the Male row and never fails. */
  lemma ResolveGenderCases(gender: string)
    ensures ResolveGender(gender) == "Female" <==> Lower(gender) == "female"
    ensures ResolveGender(gender) == "Male" <==> Lower(gender) != "female"
    ensures Lower(gender) == "male" ==> ResolveGender(gender) == "Male"
  {
    var c := Capitalize(gender);
    assert ResolveGender(gender) == if c == "Female" then "Female" else "Male";
    CapitalizeMatches(gender, "Male");
    CapitalizeMatches(gender, "Female");
    LowerOfRowNames();
  }

  lemma LowerOfRowNames()
    ensures Lower("Female") == "female" && Lower("Male") == "male"
  {
  }

  /** The grading of one value against one range (the inclusive range test). */
  function Grade(value: real, range: Range, lowLabel: string, highLabel: string): Finding {
    if value < range.lower then Finding("Low", lowLabel)
    else if value > range.upper then Finding("High", highLabel)
    else Finding("Normal", "Normal")
  }

  /** The clinical label of a low value of measurement m. */
  function LowLabel(m: string): string {
    if m == "hb" then "Anemia" else if m == "wbc" then "Leukopenia" else "Thrombocytopenia"
  }

  /** The clinical label of a high value of measurement m. */
  function HighLabel(m: string): string {
    if m == "hb" then "High Hb" else if m == "wbc" then "Leukocytosis (Infection check)" else "Thrombocytosis"
  }

  /** The value of measurement m among the three inputs. */
  function ValueOf(m: string, hb: real, wbc: real, platelets: real): real {
    if m == "hb" then hb else if m == "wbc" then wbc else platelets
  }

  /** The range the analysis uses for measurement m. */
  function RangeFor(gender: string, m: string): Range
    requires m in Measurements
  {
    ReferenceTable[ResolveGender(gender)][m]
  }

  /** The report the analysis of these inputs produces: exactly the keys hb,
      wbc and platelets, in that order, each graded on its own value. */
  function Classification(gender: string, hb: real, wbc: real, platelets: real): (report: AnalysisReport)
    ensures Keys(report) == Measurements
  {
    var ref := ReferenceTable[ResolveGender(gender)];
    [Item("hb", Grade(hb, ref["hb"], "Anemia", "High Hb")),
     Item("wbc", Grade(wbc, ref["wbc"], "Leukopenia", "Leukocytosis (Infection check)")),
     Item("platelets", Grade(platelets, ref["platelets"], "Thrombocytopenia", "Thrombocytosis"))]
  }

  /** The finding for measurement m in the analysis of the inputs. */
  function FindingOf(gender: string, hb: real, wbc: real, platelets: real, m: string): Finding
    requires m in Measurements
  {
    Get(Classification(gender, hb, wbc, platelets), m)
  }

  /** The finding for m is its own value graded against its own range, with its own labels. */
  lemma FindingOfIsGrade(gender: string, hb: real, wbc: real, platelets: real, m: string)
    requires m in Measurements
    ensures FindingOf(gender, hb, wbc, platelets, m) ==
      Grade(ValueOf(m, hb, wbc, platelets), RangeFor(gender, m), LowLabel(m), HighLabel(m))
  {
    var d := Classification(gender, hb, wbc, platelets);
    if m == "hb" {
      assert Get(d, m) == d[0].value;
    } else if m == "wbc" {
      assert Get(d, m) == Get(d[1..], m) == d[1..][0].value;
    } else {
      assert Get(d, m) == Get(d[1..], m) == Get(d[1..][1..], m) == d[1..][1..][0].value;
    }
  }

  /** A value strictly below its lower bound is Low with the measurement's low label. */
  lemma ClassifyLow(gender: string, hb: real, wbc: real, platelets: real, m: string)
    requires m in Measurements
    ensures var f := FindingOf(gender, hb, wbc, platelets, m);
      f.status == "Low" <==> ValueOf(m, hb, wbc, platelets) < RangeFor(gender, m).lower
    ensures var f := FindingOf(gender, hb, wbc, platelets, m);
      f.status == "Low" ==> f.severity == LowLabel(m)
  {
    FindingOfIsGrade(gender, hb, wbc, platelets, m);
  }

  /** A value strictly above its upper bound is High with the measurement's high label. */
  lemma ClassifyHigh(gender: string, hb: real, wbc: real, platelets: real, m: string)
    requires m in Measurements
    ensures var f := FindingOf(gender, hb, wbc, platelets, m);
      f.status == "High" <==> ValueOf(m, hb, wbc, platelets) > RangeFor(gender, m).upper
    ensures var f := FindingOf(gender, hb, wbc, platelets, m);
      f.status == "High" ==> f.severity == HighLabel(m)
  {
    FindingOfIsGrade(gender, hb, wbc, platelets, m);
    ReferenceTableWellFormed();
  }

  /** A value in the closed interval [lower, upper], bounds included, is Normal. */
  lemma ClassifyNormal(gender: string, hb: real, wbc: real, platelets: real, m: string)
    requires m in Measurements
    ensures var f := FindingOf(gender, hb, wbc, platelets, m);
      var r := RangeFor(gender, m);
      f.status == "Normal" <==> r.lower <= ValueOf(m, hb, wbc, platelets) <= r.upper
    ensures var f := FindingOf(gender, hb, wbc, platelets, m);
      f.status == "Normal" ==> f.severity == "Normal"
  {
    FindingOfIsGrade(gender, hb, wbc, platelets, m);
  }

  /** Every status is one of Low, Normal and High. */
  lemma ClassifyStatuses(gender: string, hb: real, wbc: real, platelets: real, m: string)
    requires m in Measurements
    ensures FindingOf(gender, hb, wbc, platelets, m).status in {"Low", "Normal", "High"}
  {
    FindingOfIsGrade(gender, hb, wbc, platelets, m);
  }

  /** Each finding depends only on its own value and the resolved gender. */
  lemma ClassifyLocal(gender: string, hb: real, wbc: real, platelets: real,
                      gender': string, hb': real, wbc': real, platelets': real, m: string)
    requires m in Measurements
    requires ResolveGender(gender) == ResolveGender(gender')
    requires ValueOf(m, hb, wbc, platelets) == ValueOf(m, hb', wbc', platelets')
    ensures FindingOf(gender, hb, wbc, platelets, m) == FindingOf(gender', hb', wbc', platelets', m)
  {
    FindingOfIsGrade(gender, hb, wbc, platelets, m);
    FindingOfIsGrade(gender', hb', wbc', platelets', m);
  }

  /** The gender is matched regardless of case, and any gender other than a
      spelling of "female" is analysed exactly as "Male" is. */
  lemma ClassifyGenderSpelling(gender: string, hb: real, wbc: real, platelets: real)
    ensures Lower(gender) == "female" ==>
      Classification(gender, hb, wbc, platelets) == Classification("Female", hb, wbc, platelets)
    ensures Lower(gender) != "female" ==>
      Classification(gender, hb, wbc, platelets) == Classification("Male", hb, wbc, platelets)
  {
    ResolveGenderCases(gender);
    ResolveGenderCases("Female");
    ResolveGenderCases("Male");
  }

  /** Filling an empty dict with hb, wbc and platelets leaves them in that order. */
  lemma FillInOrder(hbFinding: Finding, wbcFinding: Finding, plateletsFinding: Finding)
    ensures Put(Put(Put([], "hb", hbFinding), "wbc", wbcFinding), "platelets", plateletsFinding) ==
      [Item("hb", hbFinding), Item("wbc", wbcFinding), Item("platelets", plateletsFinding)]
  {
    var one: AnalysisReport := [Item("hb", hbFinding)];
    PutNewKey(one, "wbc");
    var two: AnalysisReport := one + [Item("wbc", wbcFinding)];
    PutNewKey(two, "platelets");
  }

  /** The classifier; its reference table is set once and never changed. */
  class AbnormalityAgent {
    const ranges: map<string, map<string, Range>> := ReferenceTable

    constructor() {
    }

    /** Normalises the gender, falls back to Male, and fills the report key by key. */
    method Analyze(gender: string, hb: real, wbc: real, platelets: real) returns (report: AnalysisReport)
      ensures report == Classification(gender, hb, wbc, platelets)
    {
      var g := Capitalize(gender);
      if g !in ranges {
        g := "Male";
      }
      assert g == ResolveGender(gender);
      var ref := ranges[g];
      ghost var hbFinding := Grade(hb, ref["hb"], "Anemia", "High Hb");
      ghost var wbcFinding := Grade(wbc, ref["wbc"], "Leukopenia", "Leukocytosis (Infection check)");
      ghost var plateletsFinding := Grade(platelets, ref["platelets"], "Thrombocytopenia", "Thrombocytosis");
      report := [];

      if hb < ref["hb"].lower {
        report := Put(report, "hb", Finding("Low", "Anemia"));
      } else if hb > ref["hb"].upper {
        report := Put(report, "hb", Finding("High", "High Hb"));
      } else {
        report := Put(report, "hb", Finding("Normal", "Normal"));
      }
      assert report == Put([], "hb", hbFinding);

      if wbc < ref["wbc"].lower {
        report := Put(report, "wbc", Finding("Low", "Leukopenia"));
      } else if wbc > ref["wbc"].upper {
        report := Put(report, "wbc", Finding("High", "Leukocytosis (Infection check)"));
      } else {
        report := Put(report, "wbc", Finding("Normal", "Normal"));
      }
      assert report == Put(Put([], "hb", hbFinding), "wbc", wbcFinding);

      if platelets < ref["platelets"].lower {
        report := Put(report, "platelets", Finding("Low", "Thrombocytopenia"));
      } else if platelets > ref["platelets"].upper {
        report := Put(report, "platelets", Finding("High", "Thrombocytosis"));
      } else {
        report := Put(report, "platelets", Finding("Normal", "Normal"));
      }
      FillInOrder(hbFinding, wbcFinding, plateletsFinding);
    }
  }
}
