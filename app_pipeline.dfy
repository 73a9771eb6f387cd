/** The analysis pipeline behind the page's Analyze button: classify the
    inputs, pick out the abnormal measurements, choose the context text and
    synthesise the explanation. */
module Pipeline {
  import opened PyText
  import opened PyDict
  import opened Abnormality
  import opened Retriever
  import opened Explanation

  /** The context shown when every measurement is normal. (Written in two
      pieces: the verifier reads the characters of a short literal but not of
      a long one.) */
  const NormalContext: string := "Values are within normal ranges. " + "General health advice applies."

  /** What one run of the pipeline produces. */
  datatype Outcome = Outcome(analysis: AnalysisReport, abnormalKeys: seq<string>,
                             queryContext: string, explanation: string)

  /** The keys of the analysis whose status is not "Normal", in the analysis' order. */
  function AbnormalKeys(analysis: AnalysisReport): (keys: seq<string>)
    ensures |keys| <= |analysis|
    ensures forall k :: k in keys ==> k in Keys(analysis)
  {
    if analysis == [] then []
    else (if analysis[0].value.status != "Normal" then [analysis[0].key] else []) + AbnormalKeys(analysis[1..])
  }

  /** A key is listed exactly when some entry of the analysis has that key
      and a status other than "Normal". */
  lemma {:induction false} AbnormalKeysSelect(analysis: AnalysisReport)
    ensures forall k :: k in AbnormalKeys(analysis) <==>
      exists i :: 0 <= i < |analysis| && analysis[i].key == k && analysis[i].value.status != "Normal"
  {
    if analysis != [] {
      AbnormalKeysSelect(analysis[1..]);
      forall k | k in AbnormalKeys(analysis)
        ensures exists i :: 0 <= i < |analysis| && analysis[i].key == k && analysis[i].value.status != "Normal"
      {
        if k !in AbnormalKeys(analysis[1..]) {
          assert analysis[0].key == k && analysis[0].value.status != "Normal";
        } else {
          var j :| 0 <= j < |analysis[1..]| && analysis[1..][j].key == k && analysis[1..][j].value.status != "Normal";
          assert analysis[j + 1] == analysis[1..][j];
        }
      }
      forall k, i | 0 <= i < |analysis| && analysis[i].key == k && analysis[i].value.status != "Normal"
        ensures k in AbnormalKeys(analysis)
      {
        if i > 0 {
          assert analysis[1..][i - 1] == analysis[i];
        }
      }
    }
  }

  /** Measurement m lies outside its (inclusive) reference range. */
  predicate OutOfRange(gender: string, hb: real, wbc: real, platelets: real, m: string)
    requires m in Measurements
  {
    var r := RangeFor(gender, m);
    var v := ValueOf(m, hb, wbc, platelets);
    !(r.lower <= v <= r.upper)
  }

  /** [m] when measurement m is out of range, nothing otherwise. */
  function Flag(gender: string, hb: real, wbc: real, platelets: real, m: string): seq<string>
    requires m in Measurements
  {
    if OutOfRange(gender, hb, wbc, platelets, m) then [m] else []
  }

  /** One run of the pipeline over the corpus the retriever holds and the
      template table the synthesiser holds. */
  function Run(corpus: string, templates: map<string, string>,
               gender: string, hb: real, wbc: real, platelets: real): Outcome
    requires HasTemplates(templates)
  {
    var analysis := Classification(gender, hb, wbc, platelets);
    var keys := AbnormalKeys(analysis);
    Outcome(analysis, keys,
            if keys != [] then Retrieval(corpus, keys) else NormalContext,
            ExplanationText(templates, analysis))
  }

  /** The key of item i when its status is not Normal. */
  function KeyIfAbnormal(i: Item<Finding>): seq<string> {
    if i.value.status != "Normal" then [i.key] else []
  }

  /** On a three-entry analysis the filter keeps each abnormal key in place. */
  lemma {:induction false} AbnormalKeysOfThree(i0: Item<Finding>, i1: Item<Finding>, i2: Item<Finding>)
    ensures AbnormalKeys([i0, i1, i2]) == KeyIfAbnormal(i0) + KeyIfAbnormal(i1) + KeyIfAbnormal(i2)
  {
    var a := [i0, i1, i2];
    assert a[1..] == [i1, i2] && a[1..][1..] == [i2] && a[1..][1..][1..] == [];
    assert AbnormalKeys([i2]) == KeyIfAbnormal(i2) + AbnormalKeys([]);
    assert AbnormalKeys([i1, i2]) == KeyIfAbnormal(i1) + AbnormalKeys([i2]);
  }

  /** A grading is not Normal exactly when the value is outside the range. */
  lemma GradeOutOfRange(value: real, range: Range, lowLabel: string, highLabel: string)
    ensures Grade(value, range, lowLabel, highLabel).status != "Normal" <==> !(range.lower <= value <= range.upper)
  {
  }

  /** The abnormal keys are exactly the out-of-range measurements, in the
      order hb, wbc, platelets. */
  lemma AbnormalKeysOfClassification(gender: string, hb: real, wbc: real, platelets: real)
    ensures AbnormalKeys(Classification(gender, hb, wbc, platelets)) ==
      Flag(gender, hb, wbc, platelets, "hb") + Flag(gender, hb, wbc, platelets, "wbc") +
      Flag(gender, hb, wbc, platelets, "platelets")
  {
    var a := Classification(gender, hb, wbc, platelets);
    var rh, rw, rp := RangeFor(gender, "hb"), RangeFor(gender, "wbc"), RangeFor(gender, "platelets");
    assert a == [Item("hb", Grade(hb, rh, "Anemia", "High Hb")),
                 Item("wbc", Grade(wbc, rw, "Leukopenia", "Leukocytosis (Infection check)")),
                 Item("platelets", Grade(platelets, rp, "Thrombocytopenia", "Thrombocytosis"))];
    AbnormalKeysOfThree(a[0], a[1], a[2]);
    GradeOutOfRange(hb, rh, "Anemia", "High Hb");
    GradeOutOfRange(wbc, rw, "Leukopenia", "Leukocytosis (Infection check)");
    GradeOutOfRange(platelets, rp, "Thrombocytopenia", "Thrombocytosis");
    assert KeyIfAbnormal(a[0]) == Flag(gender, hb, wbc, platelets, "hb");
    assert KeyIfAbnormal(a[1]) == Flag(gender, hb, wbc, platelets, "wbc");
    assert KeyIfAbnormal(a[2]) == Flag(gender, hb, wbc, platelets, "platelets");
  }

  /** The pipeline's abnormal keys are those of its analysis. */
  lemma PipelineAbnormalKeys(corpus: string, templates: map<string, string>, gender: string, hb: real, wbc: real, platelets: real)
    requires HasTemplates(templates)
    ensures Run(corpus, templates, gender, hb, wbc, platelets).abnormalKeys ==
      Flag(gender, hb, wbc, platelets, "hb") + Flag(gender, hb, wbc, platelets, "wbc") +
      Flag(gender, hb, wbc, platelets, "platelets")
  {
    AbnormalKeysOfClassification(gender, hb, wbc, platelets);
  }

  /** The abnormal keys are the measurements whose status is Low or High. */
  lemma PipelineKeysAreAbnormalStatuses(corpus: string, templates: map<string, string>, gender: string, hb: real, wbc: real, platelets: real, m: string)
    requires HasTemplates(templates)
    requires m in Measurements
    ensures var o := Run(corpus, templates, gender, hb, wbc, platelets);
      HasMeasurements(o.analysis) && (m in o.abnormalKeys <==> IsAbnormal(StatusOf(o.analysis, m)))
  {
    PipelineAbnormalKeys(corpus, templates, gender, hb, wbc, platelets);
    ClassifyNormal(gender, hb, wbc, platelets, m);
    ClassifyStatuses(gender, hb, wbc, platelets, m);
  }

  /** The normal-ranges text is the context exactly when no measurement is
      abnormal; otherwise the context is what the retriever returns for the
      abnormal keys. */
  lemma PipelineContext(corpus: string, templates: map<string, string>, gender: string, hb: real, wbc: real, platelets: real)
    requires HasTemplates(templates)
    ensures var o := Run(corpus, templates, gender, hb, wbc, platelets);
      (o.queryContext == NormalContext <==> o.abnormalKeys == []) &&
      (o.abnormalKeys != [] ==> o.queryContext == Retrieval(corpus, o.abnormalKeys))
  {
    var o := Run(corpus, templates, gender, hb, wbc, platelets);
    if o.abnormalKeys != [] {
      RetrieveSentinelIff(corpus, o.abnormalKeys);
      assert |NoContext| != |NormalContext|;
      assert NormalContext[0] == 'V';
    }
  }

  /** Every abnormal key triggers its own section, so the no-context sentinel
      reaches the user exactly when something is abnormal and the corpus lacks
      the start marker of every abnormal measurement. */
  lemma PipelineSentinel(corpus: string, templates: map<string, string>, gender: string, hb: real, wbc: real, platelets: real)
    requires HasTemplates(templates)
    ensures var o := Run(corpus, templates, gender, hb, wbc, platelets);
      o.queryContext == NoContext <==>
        o.abnormalKeys != [] &&
        ("hb" in o.abnormalKeys ==> Find(corpus, HbMarker) == -1) &&
        ("wbc" in o.abnormalKeys ==> Find(corpus, WbcMarker) == -1) &&
        ("platelets" in o.abnormalKeys ==> Find(corpus, PlateletsMarker) == -1)
  {
    var keys := AbnormalKeys(Classification(gender, hb, wbc, platelets));
    assert forall k :: k in keys ==> k in Measurements;
    assert |NoContext| != |NormalContext|;
    if keys != [] {
      RetrieveMeasurementKeys(corpus, keys);
    }
  }

  /** The explanation carries the disclaimer exactly when some measurement is abnormal. */
  lemma PipelineDisclaimer(corpus: string, templates: map<string, string>, gender: string, hb: real, wbc: real, platelets: real)
    requires templates == Templates && HasTemplates(templates)
    ensures var o := Run(corpus, templates, gender, hb, wbc, platelets);
      EndsWith(o.explanation, Disclaimer) <==> o.abnormalKeys != []
  {
    var o := Run(corpus, templates, gender, hb, wbc, platelets);
    ExplainDisclaimer(o.analysis);
    PipelineKeysAreAbnormalStatuses(corpus, templates, gender, hb, wbc, platelets, "hb");
    PipelineKeysAreAbnormalStatuses(corpus, templates, gender, hb, wbc, platelets, "wbc");
    PipelineKeysAreAbnormalStatuses(corpus, templates, gender, hb, wbc, platelets, "platelets");
    PipelineAbnormalKeys(corpus, templates, gender, hb, wbc, platelets);
  }

  /** The explanation depends on the analysis alone, never on the corpus, and
      with nothing abnormal the context does not depend on the corpus either. */
  lemma PipelineIndependence(corpus: string, corpus': string, templates: map<string, string>, gender: string, hb: real, wbc: real, platelets: real)
    requires HasTemplates(templates)
    ensures Run(corpus, templates, gender, hb, wbc, platelets).explanation == Run(corpus', templates, gender, hb, wbc, platelets).explanation
    ensures Run(corpus, templates, gender, hb, wbc, platelets).abnormalKeys == [] ==>
      Run(corpus', templates, gender, hb, wbc, platelets).queryContext == NormalContext
  {
  }

  /** The values the form offers for gender need no fallback: each selects its own row. */
  lemma FormGenderSelectsItsRow(gender: string)
    requires gender == "Male" || gender == "Female"
    ensures ResolveGender(gender) == gender
  {
    ResolveGenderCases(gender);
  }

  /** A man with hemoglobin 10, white cells 6000 and platelets 250000 has a
      low hemoglobin (anemia) and the rest normal; the gender may be typed in
      any case. */
  lemma AnalysisWorkedExample(gender: string)
    requires Lower(gender) == "male"
    ensures Classification(gender, 10.0, 6000.0, 250000.0) ==
      [Item("hb", Finding("Low", "Anemia")),
       Item("wbc", Finding("Normal", "Normal")),
       Item("platelets", Finding("Normal", "Normal"))]
  {
    ResolveGenderCases(gender);
  }

  /** The same inputs through the pipeline: only hb is looked up, and the
      explanation is the anemia text followed by the disclaimer. */
  lemma PipelineWorkedExample(corpus: string, templates: map<string, string>, gender: string)
    requires HasTemplates(templates)
    requires Lower(gender) == "male"
    ensures var o := Run(corpus, templates, gender, 10.0, 6000.0, 250000.0);
      o.abnormalKeys == ["hb"] &&
      o.queryContext == Retrieval(corpus, ["hb"]) &&
      o.explanation == templates["Anemia"] + Disclaimer
  {
    AnalysisWorkedExample(gender);
    var a := Classification(gender, 10.0, 6000.0, 250000.0);
    assert StatusOf(a, "hb") == a[0].value.status == "Low";
    assert StatusOf(a, "wbc") == StatusOf(a[1..], "wbc") == a[1].value.status == "Normal";
    assert StatusOf(a, "platelets") == StatusOf(a[1..], "platelets") == StatusOf(a[1..][1..], "platelets") == "Normal";
    ExplainSingle(templates, a, "hb");
    AbnormalKeysOfThree(a[0], a[1], a[2]);
  }

  /** Runs the three agents on one set of inputs, as the page does. */
  method RunPipeline(abnormality: AbnormalityAgent, retriever: RetrieverAgent, explanation: ExplanationAgent,
                     gender: string, hb: real, wbc: real, platelets: real) returns (o: Outcome)
    ensures o == Run(retriever.contextData, explanation.templates, gender, hb, wbc, platelets)
  {
    var analysis := abnormality.Analyze(gender, hb, wbc, platelets);
    var abnormalKeys := AbnormalKeys(analysis);
    var queryContext: string;
    if abnormalKeys != [] {
      queryContext := retriever.Retrieve(abnormalKeys);
    } else {
      queryContext := NormalContext;
    }
    var text := explanation.Explain(analysis);
    o := Outcome(analysis, abnormalKeys, queryContext, text);
  }
}
