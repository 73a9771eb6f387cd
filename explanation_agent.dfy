/** The explanation synthesiser: a fixed table of Darija template texts and the
    explanation built from the statuses of an analysis report. */
module Explanation {
  import opened PyText
  import opened PyDict
  import opened Abnormality

  /** The template texts, keyed by clinical label. */
  const Templates: map<string, string> := map[
    "Anemia" := "Resultat dyalek taye3tini 'Anemia' (Faqr Dam). Hada ya3ni Hemoglobin naqs chwiya. Momkin thass b l3iya aw sokhfa. Khass chof tbib bach ya3tik dwa dyal lhdid ila kan khass.",
    "High Hb" := "Hemoglobin tal3a chwiya. Momkin tkun ghir men qlet lma (Dehydration) aw ila kanti tetkmi. Mzyan tchreb lma mzyan.",
    "Leukopenia" := "Kriyat lbid (WBC) naqsin. Hada ya3ni lmanaa dyalek hbat chwiya. Hadian m3a rawah w mikrobat.",
    "Leukocytosis" := "Kriyat lbid (WBC) tal3in. Ghaleban kayn chi ta3afon (Infection) aw kerchek darrak. Darori tchof tbib.",
    "Thrombocytopenia" := "Safa2ih (Platelets) naqsin. Rod balek men jarh, hit dam ghadi yta3tal bach yahbas. Khass istichara tibiya.",
    "Thrombocytosis" := "Safa2ih (Platelets) tal3in. Momkin ikon reaction dyal ljesm m3a chi inflammation.",
    "Normal" := "Nata2ij dyalek mzyana. Kolchi normal, lah ykhaffef 3lik."]

  /** Put in front of the Normal template when nothing is abnormal. */
  const NormalPrefix: string := "Hamdollah, Nata2ij 'Normal'. "

  /** The closing reminder that follows every explanation of an abnormal result. */
  const Disclaimer: string := "\n\n(Hada machi tkhsis (Diagnosis), hada ghir tawjih. Sir 3and tbib b warqa dyal tahlila.)"

  /** The separator between explanation fragments. */
  const FragmentSeparator: string := " \n"

  /** The seven labels the synthesiser looks up. */
  predicate HasTemplates(templates: map<string, string>) {
    "Anemia" in templates && "High Hb" in templates && "Leukopenia" in templates &&
    "Leukocytosis" in templates && "Thrombocytopenia" in templates &&
    "Thrombocytosis" in templates && "Normal" in templates
  }

  /** The table holds every label the synthesiser looks up. */
  lemma TemplatesCoverLabels()
    ensures HasTemplates(Templates)
  {
  }

  /** The table holds exactly the seven labels. */
  lemma TemplatesComplete()
    ensures Templates.Keys == {"Anemia", "High Hb", "Leukopenia", "Leukocytosis",
                               "Thrombocytopenia", "Thrombocytosis", "Normal"}
  {
  }

  /** The text returned when no measurement is Low or High. */
  function AllNormalMessage(templates: map<string, string>): string
    requires "Normal" in templates
  {
    NormalPrefix + templates["Normal"]
  }

  /** A status that produces a fragment. */
  predicate IsAbnormal(status: string) {
    status == "Low" || status == "High"
  }

  /** The report holds the three keys the explanation reads. */
  predicate HasMeasurements(report: AnalysisReport) {
    "hb" in Keys(report) && "wbc" in Keys(report) && "platelets" in Keys(report)
  }

  /** report[m]["status"]. */
  function StatusOf(report: AnalysisReport, m: string): string
    requires m in Keys(report)
  {
    Get(report, m).status
  }

  /** What one measurement contributes: the low text for Low, the high text
      for High, nothing for any other status. */
  function Fragment(status: string, lowText: string, highText: string): seq<string> {
    if status == "Low" then [lowText] else if status == "High" then [highText] else []
  }

  /** The fragments explain collects, in the order hb, wbc, platelets. */
  function Fragments(templates: map<string, string>, report: AnalysisReport): seq<string>
    requires HasTemplates(templates) && HasMeasurements(report)
  {
    Fragment(StatusOf(report, "hb"), templates["Anemia"], templates["High Hb"]) +
    Fragment(StatusOf(report, "wbc"), templates["Leukopenia"], templates["Leukocytosis"]) +
    Fragment(StatusOf(report, "platelets"), templates["Thrombocytopenia"], templates["Thrombocytosis"])
  }

  /** The text explain returns. */
  function ExplanationText(templates: map<string, string>, report: AnalysisReport): string
    requires HasTemplates(templates) && HasMeasurements(report)
  {
    var parts := Fragments(templates, report);
    if parts == [] then AllNormalMessage(templates) else Join(parts, FragmentSeparator) + Disclaimer
  }

  /** The template label for measurement m with an abnormal status: the
      mapping table of the synthesiser, stated on its own. */
  function TemplateLabel(m: string, status: string): string {
    if m == "hb" then (if status == "Low" then "Anemia" else "High Hb")
    else if m == "wbc" then (if status == "Low" then "Leukopenia" else "Leukocytosis")
    else (if status == "Low" then "Thrombocytopenia" else "Thrombocytosis")
  }

  /** The template of measurement m, when its status is abnormal. */
  function TemplateFor(templates: map<string, string>, report: AnalysisReport, m: string): string
    requires HasTemplates(templates) && m in Keys(report)
  {
    templates[TemplateLabel(m, StatusOf(report, m))]
  }

  /** What the table says measurement m contributes: its template when its
      status is abnormal, nothing otherwise. */
  function Contribution(templates: map<string, string>, report: AnalysisReport, m: string): seq<string>
    requires HasTemplates(templates) && m in Keys(report)
  {
    if IsAbnormal(StatusOf(report, m)) then [TemplateFor(templates, report, m)] else []
  }

  /** The reference reading of the synthesiser: go through the measurements
      ms in order and take, for each abnormal one, the template its label names. */
  function ReferenceFragments(templates: map<string, string>, report: AnalysisReport, ms: seq<string>): seq<string>
    requires HasTemplates(templates)
    requires forall i :: 0 <= i < |ms| ==> ms[i] in Keys(report)
  {
    if ms == [] then [] else Contribution(templates, report, ms[0]) + ReferenceFragments(templates, report, ms[1..])
  }

  /** The number of measurements among ms whose status is Low or High. */
  function AbnormalCount(report: AnalysisReport, ms: seq<string>): nat
    requires forall i :: 0 <= i < |ms| ==> ms[i] in Keys(report)
  {
    if ms == [] then 0
    else (if IsAbnormal(StatusOf(report, ms[0])) then 1 else 0) + AbnormalCount(report, ms[1..])
  }

  /** The fragment of one measurement is what the table says it contributes. */
  lemma FragmentOfMeasurement(templates: map<string, string>, report: AnalysisReport, m: string)
    requires HasTemplates(templates) && HasMeasurements(report) && m in Measurements
    ensures Fragment(StatusOf(report, m), templates[TemplateLabel(m, "Low")], templates[TemplateLabel(m, "High")]) ==
      Contribution(templates, report, m)
  {
  }

  /** The explain order, read off the fragments: hb, then wbc, then platelets. */
  lemma FragmentsInOrder(templates: map<string, string>, report: AnalysisReport)
    requires HasTemplates(templates) && HasMeasurements(report)
    ensures Fragments(templates, report) ==
      Contribution(templates, report, "hb") + Contribution(templates, report, "wbc") +
      Contribution(templates, report, "platelets")
  {
    FragmentOfMeasurement(templates, report, "hb");
    FragmentOfMeasurement(templates, report, "wbc");
    FragmentOfMeasurement(templates, report, "platelets");
  }

  /** The reference reading over hb, wbc and platelets, unrolled. */
  lemma ReferenceOverMeasurements(templates: map<string, string>, report: AnalysisReport)
    requires HasTemplates(templates) && HasMeasurements(report)
    ensures ReferenceFragments(templates, report, Measurements) ==
      Contribution(templates, report, "hb") + Contribution(templates, report, "wbc") +
      Contribution(templates, report, "platelets")
  {
    var ms := Measurements;
    assert ms[1..] == ["wbc", "platelets"] && ms[1..][1..] == ["platelets"] && ms[1..][1..][1..] == [];
    var hb, wbc, platelets :=
      Contribution(templates, report, "hb"), Contribution(templates, report, "wbc"), Contribution(templates, report, "platelets");
    assert ReferenceFragments(templates, report, ["platelets"]) == platelets;
    assert ReferenceFragments(templates, report, ["wbc", "platelets"]) == wbc + platelets;
  }

  /** The fragments are exactly the templates of the abnormal measurements,
      picked through the label table, in the order hb, wbc, platelets. */
  lemma FragmentsFollowTable(templates: map<string, string>, report: AnalysisReport)
    requires HasTemplates(templates) && HasMeasurements(report)
    ensures Fragments(templates, report) == ReferenceFragments(templates, report, Measurements)
  {
    FragmentsInOrder(templates, report);
    ReferenceOverMeasurements(templates, report);
  }

  /** One fragment per measurement whose status is Low or High, so at most
      three; any other status contributes nothing. */
  lemma {:induction false} FragmentCount(templates: map<string, string>, report: AnalysisReport)
    requires HasTemplates(templates) && HasMeasurements(report)
    ensures |Fragments(templates, report)| == AbnormalCount(report, Measurements) <= 3
  {
    var ms := Measurements;
    assert ms[1..] == ["wbc", "platelets"] && ms[1..][1..] == ["platelets"] && ms[1..][1..][1..] == [];
    assert AbnormalCount(report, ["platelets"]) ==
      (if IsAbnormal(StatusOf(report, "platelets")) then 1 else 0) + AbnormalCount(report, []);
    assert AbnormalCount(report, ["wbc", "platelets"]) ==
      (if IsAbnormal(StatusOf(report, "wbc")) then 1 else 0) + AbnormalCount(report, ["platelets"]);
  }

  /** With the synthesiser's own table, the all-normal message is returned
      exactly when no status is Low or High, and it carries no disclaimer. */
  lemma ExplainAllNormal(report: AnalysisReport)
    requires HasMeasurements(report)
    ensures HasTemplates(Templates)
    ensures ExplanationText(Templates, report) == AllNormalMessage(Templates) <==>
      !IsAbnormal(StatusOf(report, "hb")) && !IsAbnormal(StatusOf(report, "wbc")) &&
      !IsAbnormal(StatusOf(report, "platelets"))
    ensures !EndsWith(AllNormalMessage(Templates), Disclaimer)
  {
    TemplatesCoverLabels();
    assert |AllNormalMessage(Templates)| == 85 && |Disclaimer| == 88;
  }

  /** The explanation ends with the disclaimer exactly when some status is Low or High. */
  lemma ExplainDisclaimer(report: AnalysisReport)
    requires HasMeasurements(report)
    ensures HasTemplates(Templates)
    ensures EndsWith(ExplanationText(Templates, report), Disclaimer) <==>
      IsAbnormal(StatusOf(report, "hb")) || IsAbnormal(StatusOf(report, "wbc")) ||
      IsAbnormal(StatusOf(report, "platelets"))
  {
    ExplainAllNormal(report);
    var parts := Fragments(Templates, report);
    if parts != [] {
      EndsWithSelf(Join(parts, FragmentSeparator), Disclaimer);
    }
  }

  /** An abnormal hemoglobin status puts its template at the very start. */
  lemma ExplainHbFirst(templates: map<string, string>, report: AnalysisReport)
    requires HasTemplates(templates) && HasMeasurements(report)
    requires IsAbnormal(StatusOf(report, "hb"))
    ensures TemplateFor(templates, report, "hb") <= ExplanationText(templates, report)
  {
    var parts := Fragments(templates, report);
    assert parts[0] == TemplateFor(templates, report, "hb");
    assert parts[0] <= Join(parts, FragmentSeparator);
  }

  /** An abnormal platelet status puts its template right before the disclaimer. */
  lemma ExplainPlateletsLast(templates: map<string, string>, report: AnalysisReport)
    requires HasTemplates(templates) && HasMeasurements(report)
    requires IsAbnormal(StatusOf(report, "platelets"))
    ensures EndsWith(ExplanationText(templates, report), TemplateFor(templates, report, "platelets") + Disclaimer)
  {
    var parts := Fragments(templates, report);
    var last := TemplateFor(templates, report, "platelets");
    assert parts[|parts| - 1] == last;
    var j := Join(parts, FragmentSeparator);
    assert EndsWith(j, last);
    EndsWithAppend(j, last, Disclaimer);
  }

  /** Exactly one abnormal measurement: its template followed by the
      disclaimer, with no separator. */
  lemma ExplainSingle(templates: map<string, string>, report: AnalysisReport, m: string)
    requires HasTemplates(templates) && HasMeasurements(report)
    requires m in Measurements && IsAbnormal(StatusOf(report, m))
    requires forall m' :: m' in Measurements && m' != m ==> !IsAbnormal(StatusOf(report, m'))
    ensures ExplanationText(templates, report) == TemplateFor(templates, report, m) + Disclaimer
  {
    assert "hb" in Measurements && "wbc" in Measurements && "platelets" in Measurements;
    assert Fragments(templates, report) == [TemplateFor(templates, report, m)];
  }

  /** Two abnormal measurements: the two templates in measurement order,
      separated by a space and a newline, then the disclaimer (for instance a
      low hemoglobin and high platelets). */
  lemma ExplainHbAndPlatelets(templates: map<string, string>, report: AnalysisReport)
    requires HasTemplates(templates) && HasMeasurements(report)
    requires IsAbnormal(StatusOf(report, "hb")) && IsAbnormal(StatusOf(report, "platelets"))
    requires !IsAbnormal(StatusOf(report, "wbc"))
    ensures ExplanationText(templates, report) ==
      TemplateFor(templates, report, "hb") + FragmentSeparator +
      TemplateFor(templates, report, "platelets") + Disclaimer
  {
    var parts := Fragments(templates, report);
    assert parts == [TemplateFor(templates, report, "hb"), TemplateFor(templates, report, "platelets")];
    assert Join(parts, FragmentSeparator) == parts[0] + FragmentSeparator + Join(parts[1..], FragmentSeparator);
  }

  /** Only the statuses are read: reports that agree on the three statuses
      have the same explanation, whatever their severity texts. */
  lemma ExplainReadsOnlyStatus(templates: map<string, string>, report: AnalysisReport, report': AnalysisReport)
    requires HasTemplates(templates) && HasMeasurements(report) && HasMeasurements(report')
    requires StatusOf(report, "hb") == StatusOf(report', "hb")
    requires StatusOf(report, "wbc") == StatusOf(report', "wbc")
    requires StatusOf(report, "platelets") == StatusOf(report', "platelets")
    ensures ExplanationText(templates, report) == ExplanationText(templates, report')
  {
    assert Fragments(templates, report) == Fragments(templates, report');
  }

  /** The synthesiser; its template table is set once and never changed. */
  class ExplanationAgent {
    const templates: map<string, string> := Templates

    constructor() {
    }

    /** Appends the template of each abnormal measurement and joins them. */
    method Explain(analysisReport: AnalysisReport) returns (r: string)
      requires HasMeasurements(analysisReport)
      ensures r == ExplanationText(templates, analysisReport)
    {
      TemplatesCoverLabels();
      var explanationParts: seq<string> := [];

      var hbStatus := Get(analysisReport, "hb").status;
      if hbStatus == "Low" {
        explanationParts := explanationParts + [templates["Anemia"]];
      } else if hbStatus == "High" {
        explanationParts := explanationParts + [templates["High Hb"]];
      }
      assert explanationParts == Fragment(hbStatus, templates["Anemia"], templates["High Hb"]);
      ghost var withHb := explanationParts;

      var wbcStatus := Get(analysisReport, "wbc").status;
      if wbcStatus == "Low" {
        explanationParts := explanationParts + [templates["Leukopenia"]];
      } else if wbcStatus == "High" {
        explanationParts := explanationParts + [templates["Leukocytosis"]];
      }
      assert explanationParts == withHb + Fragment(wbcStatus, templates["Leukopenia"], templates["Leukocytosis"]);
      ghost var withWbc := explanationParts;

      var plateletsStatus := Get(analysisReport, "platelets").status;
      if plateletsStatus == "Low" {
        explanationParts := explanationParts + [templates["Thrombocytopenia"]];
      } else if plateletsStatus == "High" {
        explanationParts := explanationParts + [templates["Thrombocytosis"]];
      }
      assert explanationParts == withWbc + Fragment(plateletsStatus, templates["Thrombocytopenia"], templates["Thrombocytosis"]);
      assert explanationParts == Fragments(templates, analysisReport);

      if explanationParts == [] {
        return NormalPrefix + templates["Normal"];
      }
      return Join(explanationParts, FragmentSeparator) + Disclaimer;
    }
  }
}
