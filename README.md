# LabWise-AI analysis pipeline in Dafny

LabWise-AI takes three blood-test values (hemoglobin, white cells, platelets)
and a gender, and runs them through three rule-based agents:

- **AbnormalityAgent** grades each value against a fixed reference table for the gender.
- **RetrieverAgent** cuts the matching marker-delimited sections out of a medical context corpus.
- **ExplanationAgent** turns the grades into a Darija explanation built from fixed templates.

The page script wires the agents together. It collects the keys of the abnormal
measurements, asks the retriever for context only when there are some, and
calls the explainer on the same analysis.

This project models those three agents and the glue. Each agent is a Dafny
`class`:

- Its table is a `const` field, set once when the object is built, as in `__init__`.
- Its method builds the list or dict step by step, as the Python does.
- Each method is proved equal to a specification function: `Classification`, `Retrieval`, `ExplanationText`.

Every property is stated and proved as a lemma about those functions.

Files and modules:

- `py_text.dfy`, module `PyText`: the Python string operations the agents use, written out.
  - `str.find`, with -1 for "not found".
  - Slicing, with negative and out-of-range bounds.
  - `str.strip`, over the `str.isspace` character set.
  - `str.join`.
  - `str.capitalize` and `str.lower`.
- `py_dict.dfy`, module `PyDict`: a Python dict as an insertion-ordered list of entries. Assignment replaces an existing key in place or appends a new one. A list of entries could repeat a key; every dict the model builds starts empty and grows by assignment, which keeps keys distinct (`PutKeepsUniqueKeys`).
- `abnormality_agent.dfy`, module `Abnormality`: the reference ranges, the gender resolution and `analyze`.
- `retriever_agent.dfy`, module `Retriever`: the markers, the keyword triggers and `retrieve`.
- `explanation_agent.dfy`, module `Explanation`: the template table and `explain`.
- `app_pipeline.dfy`, module `Pipeline`: the Analyze-button pipeline of `app.py`. This is abnormal-key extraction, the choice of context and the explanation call.

Design notes and where the code decides:

- The retriever receives the abnormal keys as a Python list, in analysis order. Its triggers are list-membership tests, which the model keeps. Only membership matters, not order or repetition (`RetrieveIgnoresKeywordOrder`).
- An extracted chunk starts at the start marker itself, so the chunk includes its start marker (`ChunkStartsWithMarker`).
- When a section's end marker is missing, `find` gives -1. The slice `[start:-1]` then stops one character before the end of the corpus (`ChunkWithoutEndMarker`). If the end marker occurs before the start marker, the slice is empty, and the empty chunk is still appended (`ChunkEndBeforeStart`, `HbChunkEndBeforeStart`).
- The explainer joins its fragments with a space and a newline (`" \n"`). The retriever joins its chunks with a blank line (`"\n\n"`).
- An unrecognised gender silently falls back to the Male ranges, and nothing reports the fallback. The model keeps this behaviour (`ResolveGenderCases`) rather than adding a variant that reports it.
- `retrieve` computes a lower-cased copy of the corpus and never uses it. The model leaves that copy out; matching stays case-sensitive.
- Reference values are `real`: the source compares Python ints and floats only against each other, and this is exact for the table's values.
- Spec functions take the template table as a parameter, just as `explain` reads `self.templates`. The agent's field holds the constant table `Templates`.

## Model

| member | source | states |
|---|---|---|
| PyText.FindFrom | agents/retriever_agent.py:37-38 | The result is -1 or an occurrence at or after the start index, and no occurrence lies between the start index and the result. |
| PyText.Find | agents/retriever_agent.py:37-38 | `str.find`: -1 exactly when the pattern occurs nowhere; otherwise the first index where it occurs. |
| PyText.SliceBound | agents/retriever_agent.py:40 | A Python slice bound: a non-negative bound inside the text is kept, a negative bound counts from the end, and the result never exceeds the length. |
| PyText.SliceToMinusOne | agents/retriever_agent.py:40 | `s[start:-1]` is `s` from `start` up to, but not including, its last character. |
| PyText.SliceEndBeforeStart | agents/retriever_agent.py:40 | A slice whose end lies before its start is empty. |
| PyText.StripStart | agents/retriever_agent.py:40 | The result is a suffix of the input, it does not start with whitespace, and every character removed is whitespace. |
| PyText.StripEnd | agents/retriever_agent.py:40 | The result is a prefix of the input, it does not end with whitespace, and every character removed is whitespace. |
| PyText.StripKeepsHead | agents/retriever_agent.py:40 | Stripping a text that starts with a non-space leaves it non-empty and starting with that same character. |
| PyText.StripKeepsPrefix | agents/retriever_agent.py:40 | Stripping keeps any prefix whose first and last characters are non-space. |
| PyText.Join | agents/retriever_agent.py:60 | `sep.join(parts)`: empty for no parts; starts with the first part, followed by the separator when there are more parts; ends with the last part; two parts give `a + sep + b` and three give `a + sep + b + sep + c` exactly. |
| PyText.JoinHead | agents/retriever_agent.py:60 | A joined text is empty, or starts with the first part's first character, or starts with the separator when the first part is empty. |
| PyText.Lower | agents/abnormality_agent.py:22 | Lower-casing keeps the length and maps each character through the ASCII lower-case mapping. |
| PyText.Capitalize | agents/abnormality_agent.py:22 | Capitalising keeps the length, upper-cases the first character and lower-cases every other character. |
| PyText.CapitalizeMatches | agents/abnormality_agent.py:22-23 | For a capitalised word `w`, `s.capitalize() == w` holds exactly when `s` spells `w` in any mix of cases. |
| PyDict.Keys | agents/abnormality_agent.py:28-52 | The keys of a dict, one per entry, in insertion order. |
| PyDict.PutSemantics | agents/abnormality_agent.py:32-52 | `d[k] = v`: an existing key keeps its place and a new key goes last; `k` then maps to `v`, and every other key keeps its value. |
| PyDict.PutNewKey | agents/abnormality_agent.py:32-52 | Assigning a key the dict does not hold appends exactly one entry at the end. |
| PyDict.PutKeepsUniqueKeys | agents/abnormality_agent.py:32-52 | Assignment never makes a key occur in two entries, as in a Python dict. |
| Abnormality.ReferenceTableWellFormed | agents/abnormality_agent.py:4-15 | The table has exactly the rows Male and Female, each with hb, wbc and platelets, and every range has lower < upper. |
| Abnormality.ReferenceTableDiffersOnlyInHb | agents/abnormality_agent.py:5-14 | Male and Female share the wbc and platelet ranges; hb is (13.5, 17.5) for Male and (12.0, 15.5) for Female. |
| Abnormality.ResolveGender | agents/abnormality_agent.py:22-24 | The resolved gender is always a row of the table, so analysis never fails on the gender. |
| Abnormality.ResolveGenderCases | agents/abnormality_agent.py:22-24 | Female is chosen exactly when the input spells "female" in any case. Every other input, "male" in any case included, silently falls back to Male. |
| Abnormality.Classification | agents/abnormality_agent.py:28-54 | The report has exactly the keys hb, wbc and platelets, in that order. |
| Abnormality.FindingOfIsGrade | agents/abnormality_agent.py:31-52 | The finding for each measurement is its own value graded against its own range, with its own labels. |
| Abnormality.ClassifyLow | agents/abnormality_agent.py:31-32 | Status Low exactly when the value is strictly below the lower bound; the label is then Anemia, Leukopenia or Thrombocytopenia. |
| Abnormality.ClassifyHigh | agents/abnormality_agent.py:33-34 | Status High exactly when the value is strictly above the upper bound; the label is then High Hb, Leukocytosis (Infection check) or Thrombocytosis. |
| Abnormality.ClassifyNormal | agents/abnormality_agent.py:35-36 | Status Normal exactly when the value is in the closed range, bounds included; the label is then Normal. |
| Abnormality.ClassifyStatuses | agents/abnormality_agent.py:31-52 | Every status is Low, Normal or High. |
| Abnormality.ClassifyLocal | agents/abnormality_agent.py:26-52 | A finding depends only on its own value and the resolved gender. |
| Abnormality.ClassifyGenderSpelling | agents/abnormality_agent.py:22-26 | Any spelling of female is analysed exactly as "Female"; every other gender is analysed exactly as "Male". |
| Abnormality.FillInOrder | agents/abnormality_agent.py:28-52 | Filling an empty dict with hb, wbc and platelets leaves the entries in that order. |
| Abnormality.AbnormalityAgent.Analyze | agents/abnormality_agent.py:17-54 | The report built key by key equals `Classification` of the inputs. |
| Retriever.SectionsCount | agents/retriever_agent.py:36-55 | One chunk for each triggered category whose start marker occurs, so at most three. |
| Retriever.RetrieveWithoutTrigger | agents/retriever_agent.py:57-58 | With no trigger keyword in the list, the result is exactly the no-context sentinel. |
| Retriever.RetrieveWithoutMarkers | agents/retriever_agent.py:39-58 | A corpus with none of the three start markers, such as the loader's error placeholder, always yields the sentinel. |
| Retriever.RetrieveSingleSection | agents/retriever_agent.py:60 | A single chunk is returned unchanged, with no separator. |
| Retriever.RetrieveTwoSections | agents/retriever_agent.py:36-60 | When the hb and platelets sections contribute and wbc does not, the result is the hb chunk, a blank line, then the platelets chunk. |
| Retriever.RetrieveThreeSections | agents/retriever_agent.py:36-60 | When all three sections contribute, the result is the hb, wbc and platelets chunks in that order, separated by blank lines. |
| Retriever.RetrieveIgnoresKeywordOrder | agents/retriever_agent.py:36-60 | The result depends only on which keywords occur, not on their order or repetition. |
| Retriever.ChunkBetweenMarkers | agents/retriever_agent.py:37-40 | When the end marker follows the start marker, the chunk is the stripped text from the start marker's first occurrence to the end marker's first occurrence. |
| Retriever.ChunkWithoutEndMarker | agents/retriever_agent.py:38-40 | A missing end marker makes the chunk run to one character before the end of the corpus. |
| Retriever.ChunkEndBeforeStart | agents/retriever_agent.py:37-55 | For any start and end marker, an end marker found before the start marker gives an empty chunk, and a triggered section still appends it. |
| Retriever.HbChunkEndBeforeStart | agents/retriever_agent.py:36-41 | When hb is triggered and the wbc marker comes before the hemoglobin marker, the first section collected is the empty chunk. |
| Retriever.ChunkStartsWithMarker | agents/retriever_agent.py:37-40 | A chunk that reaches past its start marker begins with that marker. |
| Retriever.ChunkHead | agents/retriever_agent.py:37-40 | Every chunk is empty or starts with '['. |
| Retriever.RetrieveSentinelIff | agents/retriever_agent.py:57-60 | The sentinel is returned exactly when no chunk was extracted; any other result is empty or starts with '[' or a newline. |
| Retriever.RetrieveMeasurementKeys | agents/retriever_agent.py:36-58 | For a non-empty list of the keys hb, wbc and platelets, the sentinel comes back exactly when the start marker of every listed measurement is absent. |
| Retriever.RetrieverAgent.constructor | agents/retriever_agent.py:4-6 | The agent holds the corpus text it was given. |
| Retriever.RetrieverAgent.Retrieve | agents/retriever_agent.py:24-60 | The list built block by block and joined equals `Retrieval` of the corpus and keywords. |
| Explanation.TemplatesCoverLabels | agents/explanation_agent.py:4-12 | The template table holds every label that explain looks up. |
| Explanation.TemplatesComplete | agents/explanation_agent.py:4-12 | The template table has exactly seven labels. |
| Explanation.FragmentOfMeasurement | agents/explanation_agent.py:21-39 | Each measurement contributes its table template when Low or High, and nothing for any other status. |
| Explanation.FragmentsInOrder | agents/explanation_agent.py:20-39 | The fragments are hb's contribution, then wbc's, then platelets'. |
| Explanation.ReferenceOverMeasurements | agents/explanation_agent.py:20-39 | The table-driven reference reading over hb, wbc and platelets is those three contributions in order. |
| Explanation.FragmentsFollowTable | agents/explanation_agent.py:20-39 | The fragments equal the reference reading: the templates of the abnormal measurements, picked through the status-to-label table, in measurement order. |
| Explanation.FragmentCount | agents/explanation_agent.py:18-39 | The number of fragments equals the number of Low or High statuses, so it is at most three. |
| Explanation.ExplainAllNormal | agents/explanation_agent.py:41-42 | The exact all-normal text comes back exactly when no status is Low or High; it does not end with the disclaimer. |
| Explanation.ExplainDisclaimer | agents/explanation_agent.py:41-44 | The explanation ends with the disclaimer exactly when some status is Low or High. |
| Explanation.ExplainHbFirst | agents/explanation_agent.py:21-25 | An abnormal hemoglobin puts its template at the very start of the explanation. |
| Explanation.ExplainPlateletsLast | agents/explanation_agent.py:35-44 | An abnormal platelet count puts its template right before the disclaimer. |
| Explanation.ExplainSingle | agents/explanation_agent.py:20-44 | With exactly one abnormal measurement, the explanation is its template followed by the disclaimer. |
| Explanation.ExplainHbAndPlatelets | agents/explanation_agent.py:20-44 | With abnormal hb and platelets and a normal wbc, the explanation is hb's template, `" \n"`, the platelet template, then the disclaimer. |
| Explanation.ExplainReadsOnlyStatus | agents/explanation_agent.py:21-35 | Reports that agree on the three statuses get the same explanation, whatever their severity texts. |
| Explanation.ExplanationAgent.Explain | agents/explanation_agent.py:14-44 | The list built block by block, then joined or replaced by the all-normal text, equals `ExplanationText` of the report. |
| Pipeline.AbnormalKeys | app.py:98 | The abnormal keys are no more than the entries, and each is a key of the analysis. |
| Pipeline.AbnormalKeysSelect | app.py:98 | A key is listed exactly when some entry of the analysis has that key and a status other than "Normal". |
| Pipeline.AbnormalKeysOfThree | app.py:98 | On a three-entry analysis, the comprehension keeps each non-Normal key in its place. |
| Pipeline.GradeOutOfRange | agents/abnormality_agent.py:31-36 | A grading is not Normal exactly when the value lies outside the closed range. |
| Pipeline.AbnormalKeysOfClassification | app.py:95-98 | The abnormal keys of an analysis are exactly the out-of-range measurements, in the order hb, wbc, platelets. |
| Pipeline.PipelineAbnormalKeys | app.py:95-98 | The pipeline's abnormal keys are exactly the out-of-range measurements, in order. |
| Pipeline.PipelineKeysAreAbnormalStatuses | app.py:98 | A measurement is among the abnormal keys exactly when its status is Low or High. |
| Pipeline.PipelineContext | app.py:101-104 | The normal-ranges text is the context exactly when no key is abnormal; otherwise the context is what the retriever returns for the abnormal keys. |
| Pipeline.PipelineSentinel | app.py:98-102 | The no-context sentinel reaches the user exactly when something is abnormal and the start marker of every abnormal measurement is missing from the corpus. |
| Pipeline.PipelineDisclaimer | app.py:98-107 | The explanation ends with the disclaimer exactly when the abnormal-key list is non-empty. |
| Pipeline.PipelineIndependence | app.py:101-107 | The explanation never depends on the corpus; with nothing abnormal, neither does the context. |
| Pipeline.FormGenderSelectsItsRow | app.py:84 | Both genders the form offers select their own row, without the fallback. |
| Pipeline.AnalysisWorkedExample | app.py:95 | ("male" in any case, 10, 6000, 250000) gives hb Low/Anemia and wbc and platelets Normal. |
| Pipeline.PipelineWorkedExample | app.py:95-107 | For the same inputs, the abnormal keys are ["hb"], the context is the hb retrieval, and the explanation is the Anemia template followed by the disclaimer. |
| Pipeline.RunPipeline | app.py:94-107 | Running the three agents gives `Run` over the retriever's corpus and the synthesiser's templates. |

## Left out

- `ReportAgent.generate_report` (app.py:111): the report assembler's source is not part of this model, so its report is not modelled.
- `RetrieverAgent._load_data` and the file read: this is I/O. The agent's constructor takes the loaded text, file contents or an error placeholder, as a parameter. `RetrieveWithoutMarkers` covers what a placeholder without markers yields.
- Retriever.RetrieverAgent.constructor: takes the corpus text instead of a knowledge-base path, because the path lookup and file read live in the I/O that is left out.
- The lower-cased corpus copy in `retrieve` (agents/retriever_agent.py:33): it is never used, so it has no effect on the result.
- The Streamlit page: configuration, styling, sidebar, form widgets, tabs, the rendering loop, download button, `st.cache_resource` agent caching and the `sys.path` set-up. This is presentation only.
- The form bounds on the numeric inputs (app.py:85-87): the classifier is total, so no lemma needs them; only the form's two gender choices are used, in `FormGenderSelectsItsRow`.
- PyText.Capitalize: case mapping covers ASCII letters only, because Python's full Unicode case tables are not modelled; other characters are left unchanged.
- PyText.Lower: case mapping covers ASCII letters only, for the same reason.
- Abnormality.ResolveGender: a gender containing non-ASCII letters may resolve differently in Python, because its case mapping is ASCII-only here.
- Explanation.ExplanationAgent.Explain: a report without the keys hb, wbc and platelets raises KeyError in Python. Here it is excluded by a precondition, because every report the classifier produces has those keys.
