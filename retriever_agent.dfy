/** The retriever: keyword-triggered extraction of marker-delimited sections
    from the medical context corpus. */
module Retriever {
  import opened PyText

  const HbMarker: string := "[HEMOGLOBIN]"
  const WbcMarker: string := "[WBC - White Blood Cells]"
  const PlateletsMarker: string := "[PLATELETS]"
  const GeneralAdviceMarker: string := "[GENERAL ADVICE]"

  /** Returned when no section is extracted. (Written in two pieces: the
      verifier reads the characters of a short literal but not of a long one.) */
  const NoContext: string := "No specific context found " + "for the abnormalities."

  /** The separator between extracted sections. */
  const SectionSeparator: string := "\n\n"

  /** The keywords, any one of which asks for the hemoglobin section. */
  predicate HbTriggered(keywords: seq<string>) {
    "hb" in keywords || "hemoglobin" in keywords || "anemia" in keywords
  }

  /** The keywords, any one of which asks for the white-cell section. */
  predicate WbcTriggered(keywords: seq<string>) {
    "wbc" in keywords || "leukocytes" in keywords || "infection" in keywords
  }

  /** The keywords, any one of which asks for the platelet section. */
  predicate PlateletsTriggered(keywords: seq<string>) {
    "platelets" in keywords || "thrombocytes" in keywords
  }

  /** corpus[start:end].strip(), with start and end the first occurrences of
      the two markers (either may be -1). */
  function Chunk(corpus: string, startMarker: string, endMarker: string): string {
    Strip(Slice(corpus, Find(corpus, startMarker), Find(corpus, endMarker)))
  }

  /** What one category contributes: its chunk when it is triggered and its
      start marker occurs in the corpus, otherwise nothing. */
  function Section(corpus: string, triggered: bool, startMarker: string, endMarker: string): seq<string> {
    if triggered && Find(corpus, startMarker) != -1 then [Chunk(corpus, startMarker, endMarker)] else []
  }

  /** The chunks retrieve collects, in the order hb, wbc, platelets. */
  function Sections(corpus: string, keywords: seq<string>): seq<string> {
    Section(corpus, HbTriggered(keywords), HbMarker, WbcMarker) +
    Section(corpus, WbcTriggered(keywords), WbcMarker, PlateletsMarker) +
    Section(corpus, PlateletsTriggered(keywords), PlateletsMarker, GeneralAdviceMarker)
  }

  /** The text retrieve returns. */
  function Retrieval(corpus: string, keywords: seq<string>): string {
    var sections := Sections(corpus, keywords);
    if sections == [] then NoContext else Join(sections, SectionSeparator)
  }

  /** 1 when the category contributes a chunk, 0 otherwise. */
  function Contributes(corpus: string, triggered: bool, startMarker: string): nat {
    if triggered && Find(corpus, startMarker) != -1 then 1 else 0
  }

  /** One chunk per triggered category whose start marker occurs, at most three. */
  lemma SectionsCount(corpus: string, keywords: seq<string>)
    ensures |Sections(corpus, keywords)| ==
      Contributes(corpus, HbTriggered(keywords), HbMarker) +
      Contributes(corpus, WbcTriggered(keywords), WbcMarker) +
      Contributes(corpus, PlateletsTriggered(keywords), PlateletsMarker)
    ensures |Sections(corpus, keywords)| <= 3
  {
  }

  /** Without any trigger keyword the result is exactly the sentinel. */
  lemma RetrieveWithoutTrigger(corpus: string, keywords: seq<string>)
    requires !HbTriggered(keywords) && !WbcTriggered(keywords) && !PlateletsTriggered(keywords)
    ensures Retrieval(corpus, keywords) == NoContext
  {
  }

  /** A corpus without any of the three start markers (for instance the error
      placeholder left when the corpus file cannot be read) always yields the sentinel. */
  lemma RetrieveWithoutMarkers(corpus: string, keywords: seq<string>)
    requires forall j :: !OccursAt(corpus, HbMarker, j)
    requires forall j :: !OccursAt(corpus, WbcMarker, j)
    requires forall j :: !OccursAt(corpus, PlateletsMarker, j)
    ensures Retrieval(corpus, keywords) == NoContext
  {
  }

  /** A single chunk is returned as it is, with no separator. */
  lemma RetrieveSingleSection(corpus: string, keywords: seq<string>)
    requires |Sections(corpus, keywords)| == 1
    ensures Retrieval(corpus, keywords) == Sections(corpus, keywords)[0]
  {
  }

  /** Only which keywords are present matters, not their order or repetition. */
  lemma RetrieveIgnoresKeywordOrder(corpus: string, keywords: seq<string>, keywords': seq<string>)
    requires forall w :: w in keywords <==> w in keywords'
    ensures Retrieval(corpus, keywords) == Retrieval(corpus, keywords')
  {
    assert HbTriggered(keywords) == HbTriggered(keywords');
    assert WbcTriggered(keywords) == WbcTriggered(keywords');
    assert PlateletsTriggered(keywords) == PlateletsTriggered(keywords');
  }

  /** A chunk runs from the start marker's first occurrence to the end
      marker's first occurrence, stripped, when the end comes after the start. */
  lemma ChunkBetweenMarkers(corpus: string, startMarker: string, endMarker: string)
    requires Find(corpus, startMarker) != -1
    requires Find(corpus, startMarker) <= Find(corpus, endMarker)
    ensures Chunk(corpus, startMarker, endMarker) ==
      Strip(corpus[Find(corpus, startMarker)..Find(corpus, endMarker)])
  {
    var i, j := Find(corpus, startMarker), Find(corpus, endMarker);
    assert 0 <= i <= j <= |corpus|;
    assert Slice(corpus, i, j) == corpus[i..j];
  }

  /** When the end marker is missing, find gives -1 and the slice stops one
      character short of the end of the corpus. */
  lemma ChunkWithoutEndMarker(corpus: string, startMarker: string, endMarker: string)
    requires startMarker != []
    requires Find(corpus, startMarker) != -1 && Find(corpus, endMarker) == -1
    ensures Chunk(corpus, startMarker, endMarker) ==
      Strip(corpus[Find(corpus, startMarker)..|corpus| - 1])
  {
    SliceToMinusOne(corpus, Find(corpus, startMarker));
  }

  /** When the end marker first occurs before the start marker, the slice
      between them is empty, so the chunk is empty; a triggered category
      still appends it, so it still counts as a section. */
  lemma ChunkEndBeforeStart(corpus: string, startMarker: string, endMarker: string)
    requires 0 <= Find(corpus, endMarker) < Find(corpus, startMarker)
    ensures Chunk(corpus, startMarker, endMarker) == ""
    ensures Section(corpus, true, startMarker, endMarker) == [""]
  {
    SliceEndBeforeStart(corpus, Find(corpus, startMarker), Find(corpus, endMarker));
  }

  /** The same for hb: the empty chunk is the first section retrieve collects. */
  lemma HbChunkEndBeforeStart(corpus: string, keywords: seq<string>)
    requires HbTriggered(keywords)
    requires 0 <= Find(corpus, WbcMarker) < Find(corpus, HbMarker)
    ensures Sections(corpus, keywords) != [] && Sections(corpus, keywords)[0] == ""
  {
    var i, j := Find(corpus, HbMarker), Find(corpus, WbcMarker);
    SliceEndBeforeStart(corpus, i, j);
    assert Slice(corpus, i, j) == "";
    assert Chunk(corpus, HbMarker, WbcMarker) == Strip("") == "";
    assert Section(corpus, HbTriggered(keywords), HbMarker, WbcMarker) == [""];
  }

  /** Two sections are joined with one blank line between them: here hb and
      platelets contribute and wbc does not. */
  lemma RetrieveTwoSections(corpus: string, keywords: seq<string>, a: string, b: string)
    requires Section(corpus, HbTriggered(keywords), HbMarker, WbcMarker) == [a]
    requires Section(corpus, WbcTriggered(keywords), WbcMarker, PlateletsMarker) == []
    requires Section(corpus, PlateletsTriggered(keywords), PlateletsMarker, GeneralAdviceMarker) == [b]
    ensures Retrieval(corpus, keywords) == a + SectionSeparator + b
  {
    assert Sections(corpus, keywords) == [a, b];
  }

  /** All three sections, in the order hb, wbc, platelets, separated by blank lines. */
  lemma RetrieveThreeSections(corpus: string, keywords: seq<string>, a: string, b: string, c: string)
    requires Section(corpus, HbTriggered(keywords), HbMarker, WbcMarker) == [a]
    requires Section(corpus, WbcTriggered(keywords), WbcMarker, PlateletsMarker) == [b]
    requires Section(corpus, PlateletsTriggered(keywords), PlateletsMarker, GeneralAdviceMarker) == [c]
    ensures Retrieval(corpus, keywords) == a + SectionSeparator + b + SectionSeparator + c
  {
    JoinThreeSingletons(Section(corpus, HbTriggered(keywords), HbMarker, WbcMarker),
      Section(corpus, WbcTriggered(keywords), WbcMarker, PlateletsMarker),
      Section(corpus, PlateletsTriggered(keywords), PlateletsMarker, GeneralAdviceMarker), a, b, c);
  }

  /** Three one-chunk sections join to the chunks with a separator between each pair. */
  lemma JoinThreeSingletons(x: seq<string>, y: seq<string>, z: seq<string>, a: string, b: string, c: string)
    requires x == [a] && y == [b] && z == [c]
    ensures x + y + z != [] && Join(x + y + z, SectionSeparator) == a + SectionSeparator + b + SectionSeparator + c
  {
    assert x + y + z == [a, b, c];
  }

  /** A marker text: non-empty, beginning with '[' and ending in a non-space. */
  predicate IsMarker(m: string) {
    |m| >= 2 && m[0] == '[' && !IsSpace(m[|m| - 1])
  }

  /** A chunk that reaches at least past its own start marker begins with that marker. */
  lemma ChunkStartsWithMarker(corpus: string, startMarker: string, endMarker: string)
    requires IsMarker(startMarker)
    requires Find(corpus, startMarker) != -1
    requires Find(corpus, startMarker) + |startMarker| <= Find(corpus, endMarker)
    ensures startMarker <= Chunk(corpus, startMarker, endMarker)
  {
    var i, j := Find(corpus, startMarker), Find(corpus, endMarker);
    var t := corpus[i..j];
    assert t[..|startMarker|] == corpus[i..i + |startMarker|];
    StripKeepsPrefix(t, startMarker);
  }

  /** Every chunk is empty or starts with '[': the slice starts at the
      opening bracket of the start marker, or is empty. */
  lemma {:induction false} ChunkHead(corpus: string, startMarker: string, endMarker: string)
    requires IsMarker(startMarker)
    requires Find(corpus, startMarker) != -1
    ensures var c := Chunk(corpus, startMarker, endMarker); c == "" || c[0] == '['
  {
    var i := Find(corpus, startMarker);
    assert corpus[i] == startMarker[0];
    var t := Slice(corpus, i, Find(corpus, endMarker));
    if t != "" {
      assert t[0] == corpus[i];
      StripKeepsHead(t);
    }
  }

  /** The retriever's text is the sentinel exactly when no section was extracted. */
  lemma RetrieveSentinelIff(corpus: string, keywords: seq<string>)
    ensures Retrieval(corpus, keywords) == NoContext <==> Sections(corpus, keywords) == []
    ensures var r := Retrieval(corpus, keywords);
      r == NoContext || r == "" || r[0] == '[' || r[0] == '\n'
  {
    var sections := Sections(corpus, keywords);
    if sections != [] {
      assert IsMarker(HbMarker) && IsMarker(WbcMarker) && IsMarker(PlateletsMarker);
      var first := sections[0];
      if HbTriggered(keywords) && Find(corpus, HbMarker) != -1 {
        ChunkHead(corpus, HbMarker, WbcMarker);
      } else if WbcTriggered(keywords) && Find(corpus, WbcMarker) != -1 {
        ChunkHead(corpus, WbcMarker, PlateletsMarker);
      } else {
        ChunkHead(corpus, PlateletsMarker, GeneralAdviceMarker);
      }
      assert first == "" || first[0] == '[';
      JoinHead(sections, SectionSeparator);
      assert NoContext[0] == 'N';
    }
  }

  /** The keywords hb, wbc and platelets each trigger exactly their own
      section, so for a non-empty list of them the sentinel comes back exactly
      when the corpus lacks the start marker of every listed measurement. */
  lemma RetrieveMeasurementKeys(corpus: string, keywords: seq<string>)
    requires keywords != []
    requires forall k :: k in keywords ==> k == "hb" || k == "wbc" || k == "platelets"
    ensures Retrieval(corpus, keywords) == NoContext <==>
      ("hb" in keywords ==> Find(corpus, HbMarker) == -1) &&
      ("wbc" in keywords ==> Find(corpus, WbcMarker) == -1) &&
      ("platelets" in keywords ==> Find(corpus, PlateletsMarker) == -1)
  {
    assert HbTriggered(keywords) <==> "hb" in keywords;
    assert WbcTriggered(keywords) <==> "wbc" in keywords;
    assert PlateletsTriggered(keywords) <==> "platelets" in keywords;
    RetrieveSentinelIff(corpus, keywords);
  }

  /** The retriever; the corpus is loaded once and never changed. */
  class RetrieverAgent {
    const contextData: string

    /** The corpus text is the one the loader produced (file contents or an error placeholder). */
    constructor(contextData: string)
      ensures this.contextData == contextData
    {
      this.contextData := contextData;
    }

    /** Collects the triggered sections into a list and joins them. */
    method Retrieve(queryKeywords: seq<string>) returns (r: string)
      ensures r == Retrieval(contextData, queryKeywords)
    {
      var relevantContext: seq<string> := [];

      if "hb" in queryKeywords || "hemoglobin" in queryKeywords || "anemia" in queryKeywords {
        var start := Find(contextData, HbMarker);
        var end := Find(contextData, WbcMarker);
        if start != -1 {
          var chunk := Strip(Slice(contextData, start, end));
          relevantContext := relevantContext + [chunk];
        }
      }
      assert relevantContext == Section(contextData, HbTriggered(queryKeywords), HbMarker, WbcMarker);

      ghost var withHb := relevantContext;
      if "wbc" in queryKeywords || "leukocytes" in queryKeywords || "infection" in queryKeywords {
        var start := Find(contextData, WbcMarker);
        var end := Find(contextData, PlateletsMarker);
        if start != -1 {
          var chunk := Strip(Slice(contextData, start, end));
          relevantContext := relevantContext + [chunk];
        }
      }
      assert relevantContext == withHb + Section(contextData, WbcTriggered(queryKeywords), WbcMarker, PlateletsMarker);

      ghost var withWbc := relevantContext;
      if "platelets" in queryKeywords || "thrombocytes" in queryKeywords {
        var start := Find(contextData, PlateletsMarker);
        var end := Find(contextData, GeneralAdviceMarker);
        if start != -1 {
          var chunk := Strip(Slice(contextData, start, end));
          relevantContext := relevantContext + [chunk];
        }
      }
      assert relevantContext == withWbc + Section(contextData, PlateletsTriggered(queryKeywords), PlateletsMarker, GeneralAdviceMarker);
      assert relevantContext == Sections(contextData, queryKeywords);

      if relevantContext == [] {
        return NoContext;
      }
      return Join(relevantContext, SectionSeparator);
    }
  }
}
