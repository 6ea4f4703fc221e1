/**
 The synthesis agent (internal/multiagent/synthesis.go): the only role that may draw conclusions.

 What the primary synthesizer returns is arbitrary. It is checked against the evidence, and
 replaced by a deterministic answer when it does not pass.
 */
module Synthesis {

  import opened Text
  import opened Collections
  import opened Metadata
  import opened Findings
  import D = Diagnosis
  import H = Hypotheses
  import L = Limitations

  datatype SynthesisInput = SynthesisInput(
    service: string,
    evidenceFinding: AgentFinding,
    knowledgeFinding: AgentFinding,
    evidence: seq<EvidenceItem>,
    toolRuns: seq<ToolRun>,
    limitations: seq<L.Limitation>,
    hypotheses: seq<H.Hypothesis>)

  /** The fixed texts of the deterministic answer, in the language of the plan. */
  datatype Texts = Texts(
    observation: string, knowledge: string, aligned: string, validate: string,
    retrieve: string, collect: string, hypothesis: string -> string, nothingFound: string)
  {
    /** Each of them says something. */
    ghost predicate Sound() {
      && TrimSpace(observation) != "" && TrimSpace(knowledge) != "" && TrimSpace(aligned) != ""
      && TrimSpace(validate) != "" && TrimSpace(retrieve) != "" && TrimSpace(collect) != ""
      && forall title :: TrimSpace(hypothesis(title)) != ""
    }
  }

  // ---- Validation --------------------------------------------------------------------------

  datatype Failure = NoConclusions | EmptyText | NotEvidenceBound | UnknownEvidenceID(id: string) | PrimaryFailed(message: string)

  function Statements(output: D.AgentOutput): seq<D.Statement> {
    output.conclusions + output.inferences + output.recommendations
  }

  /** Says something, cites something, and cites evidence only. */
  predicate Bound(t: D.Statement, valid: set<string>) {
    TrimSpace(t.text) != "" && t.evidenceIDs != [] && D.Within(t.evidenceIDs, valid)
  }

  predicate AllBound(ts: seq<D.Statement>, valid: set<string>) {
    forall i :: 0 <= i < |ts| ==> Bound(ts[i], valid)
  }

  predicate Acceptable(output: D.AgentOutput, evidence: seq<EvidenceItem>) {
    && (evidence != [] ==> output.conclusions != [])
    && AllBound(Statements(output), IdSet(evidence))
  }

  predicate FirstUnbound(ts: seq<D.Statement>, valid: set<string>, i: nat) {
    i < |ts| && !Bound(ts[i], valid) && forall j :: 0 <= j < i ==> Bound(ts[j], valid)
  }

  /** Nothing is accepted that is not bound to evidence, and the failure names what is wrong. */
  method ValidateSynthesisOutput(output: D.AgentOutput, evidence: seq<EvidenceItem>) returns (r: Option<Failure>)
    ensures r.None? <==> Acceptable(output, evidence)
    ensures r == Some(NoConclusions) <==> evidence != [] && output.conclusions == []
    ensures r == Some(EmptyText) ==> exists t :: t in Statements(output) && TrimSpace(t.text) == ""
    ensures r == Some(NotEvidenceBound) ==> exists t :: t in Statements(output) && t.evidenceIDs == []
    ensures r.Some? && r.value.UnknownEvidenceID? ==>
              r.value.id !in IdSet(evidence) && exists t :: t in Statements(output) && r.value.id in t.evidenceIDs
    ensures forall i: nat :: r != Some(NoConclusions) && FirstUnbound(Statements(output), IdSet(evidence), i) ==>
              var t := Statements(output)[i];
              && (r == Some(EmptyText) <==> TrimSpace(t.text) == "")
              && (r == Some(NotEvidenceBound) <==> TrimSpace(t.text) != "" && t.evidenceIDs == [])
    ensures r.Some? ==> !r.value.PrimaryFailed?
  {
    hide TrimSpace, IdSet;
    if |evidence| > 0 && |output.conclusions| == 0 {
      return Some(NoConclusions);
    }
    var validIDs := IdSet(evidence);
    var statements := Statements(output);
    for i := 0 to |statements|
      invariant forall j :: 0 <= j < i ==> Bound(statements[j], validIDs)
    {
      var statement := statements[i];
      assert statement in statements;
      assert forall j: nat :: FirstUnbound(statements, validIDs, j) && !Bound(statement, validIDs) ==> j == i;
      if TrimSpace(statement.text) == "" {
        return Some(EmptyText);
      }
      if statement.evidenceIDs == [] {
        return Some(NotEvidenceBound);
      }
      for k := 0 to |statement.evidenceIDs|
        invariant D.Within(statement.evidenceIDs[..k], validIDs)
      {
        if statement.evidenceIDs[k] !in validIDs {
          return Some(UnknownEvidenceID(statement.evidenceIDs[k]));
        }
      }
      assert statement.evidenceIDs[..|statement.evidenceIDs|] == statement.evidenceIDs;
    }
    return None;
  }

  // ---- The model's own validation -------------------------------------------------------------

  /** validateExactEvidenceIDs: every ID is known once trimmed. */
  predicate ExactIDs(ids: seq<string>, evidence: seq<EvidenceItem>) {
    forall i :: 0 <= i < |ids| ==> TrimSpace(ids[i]) in IdSet(evidence)
  }

  /** validateSynthesisDraft, which the model's draft has to pass before it becomes an output. */
  predicate DraftAccepted(output: D.AgentOutput, evidence: seq<EvidenceItem>) {
    && (evidence != [] ==> output.conclusions != [])
    && forall t :: t in Statements(output) ==> TrimSpace(t.text) != "" && t.evidenceIDs != [] && ExactIDs(t.evidenceIDs, evidence)
  }

  predicate CitesTrimmed(output: D.AgentOutput) {
    forall t :: t in Statements(output) ==> forall id :: id in t.evidenceIDs ==> TrimSpace(id) == id
  }

  /**
   The two validations differ in whitespace only: what the agent accepts is a draft that was
   accepted and that cites every ID exactly as the evidence set holds it.
   */
  lemma AcceptableIffDraftAcceptedAndTrimmed(output: D.AgentOutput, evidence: seq<EvidenceItem>)
    ensures Acceptable(output, evidence) <==> DraftAccepted(output, evidence) && CitesTrimmed(output)
  {
    hide TrimSpace, IdSet;
    var ts := Statements(output);
    forall id: string ensures id in IdSet(evidence) <==> TrimSpace(id) in IdSet(evidence) && TrimSpace(id) == id {
      ValidIsTrimmed(evidence, id);
    }
    forall t ensures Bound(t, IdSet(evidence)) <==>
      && TrimSpace(t.text) != "" && t.evidenceIDs != [] && ExactIDs(t.evidenceIDs, evidence)
      && forall id :: id in t.evidenceIDs ==> TrimSpace(id) == id
    {
      assert forall i :: 0 <= i < |t.evidenceIDs| ==> t.evidenceIDs[i] in t.evidenceIDs;
    }
    hide Bound;
    assert forall i :: 0 <= i < |ts| ==> ts[i] in ts;
  }

  lemma ValidIsTrimmed(evidence: seq<EvidenceItem>, id: string)
    ensures id in IdSet(evidence) ==> TrimSpace(id) == id
  {
    hide TrimSpace;
    if id in IdSet(evidence) {
      var k :| 0 <= k < |evidence| && Id(evidence[k]) == id;
      TrimSpaceTrims(evidence[k].id);
    }
  }

  // ---- The deterministic answer -----------------------------------------------------------------

  predicate Cited(item: EvidenceItem, citation: string) {
    "citation_id" in item.metadata && item.metadata["citation_id"] == TextValue(citation)
  }

  /** The raw IDs of the items carrying a citation, appended to those found before. */
  function AppendCited(before: seq<string>, citation: string, evidence: seq<EvidenceItem>): seq<string> {
    if evidence == [] then before
    else
      var r := AppendCited(before, citation, evidence[..|evidence| - 1]);
      var last := evidence[|evidence| - 1];
      if Cited(last, citation) then H.AppendUnique(r, last.id) else r
  }

  function AllCited(citations: seq<string>, evidence: seq<EvidenceItem>): seq<string> {
    if citations == [] then []
    else AppendCited(AllCited(citations[..|citations| - 1], evidence), citations[|citations| - 1], evidence)
  }

  function RawIds(evidence: seq<EvidenceItem>): (r: seq<string>)
    ensures |r| == |evidence| && forall i :: 0 <= i < |evidence| ==> r[i] == evidence[i].id
  {
    seq(|evidence|, i requires 0 <= i < |evidence| => evidence[i].id)
  }

  /** The items that carry one of the citations; failing that, the first two. */
  function CitationBacked(citations: seq<string>, evidence: seq<EvidenceItem>): seq<string> {
    if citations == [] then []
    else if AllCited(citations, evidence) != [] then AllCited(citations, evidence)
    else RawIds(evidence[..if |evidence| < 2 then |evidence| else 2])
  }

  lemma {:induction false} AppendCitedIsRaw(before: seq<string>, citation: string, evidence: seq<EvidenceItem>)
    ensures forall id :: id in AppendCited(before, citation, evidence) ==> id in before || id in RawIds(evidence)
  {
    if evidence != [] {
      var init := evidence[..|evidence| - 1];
      AppendCitedIsRaw(before, citation, init);
      assert RawIds(evidence) == RawIds(init) + [evidence[|evidence| - 1].id];
    }
  }

  lemma {:induction false} AllCitedIsRaw(citations: seq<string>, evidence: seq<EvidenceItem>)
    ensures forall id :: id in AllCited(citations, evidence) ==> id in RawIds(evidence)
  {
    if citations != [] {
      AllCitedIsRaw(citations[..|citations| - 1], evidence);
      AppendCitedIsRaw(AllCited(citations[..|citations| - 1], evidence), citations[|citations| - 1], evidence);
    }
  }

  lemma {:induction false} AppendCitedIff(before: seq<string>, citation: string, evidence: seq<EvidenceItem>, id: string)
    ensures id in AppendCited(before, citation, evidence) <==>
              id in before || exists i :: 0 <= i < |evidence| && Cited(evidence[i], citation) && evidence[i].id == id
  {
    if evidence != [] {
      hide Cited;
      var init, last := evidence[..|evidence| - 1], evidence[|evidence| - 1];
      AppendCitedIff(before, citation, init, id);
      if i :| 0 <= i < |init| && Cited(init[i], citation) && init[i].id == id {
        assert evidence[i] == init[i];
      }
      if i :| 0 <= i < |evidence| && Cited(evidence[i], citation) && evidence[i].id == id {
        assert i < |init| ==> Cited(init[i], citation) && init[i].id == id;
      }
    }
  }

  predicate CarriesOneOf(item: EvidenceItem, citations: seq<string>) {
    exists c :: c in citations && Cited(item, c)
  }

  /** The IDs found are those of the items that carry one of the citations. */
  lemma {:induction false} AllCitedIff(citations: seq<string>, evidence: seq<EvidenceItem>, id: string)
    ensures id in AllCited(citations, evidence) <==>
              exists i :: 0 <= i < |evidence| && CarriesOneOf(evidence[i], citations) && evidence[i].id == id
  {
    hide Cited, AppendCited;
    if citations != [] {
      var init, last := citations[..|citations| - 1], citations[|citations| - 1];
      AllCitedIff(init, evidence, id);
      AppendCitedIff(AllCited(init, evidence), last, evidence, id);
      forall i | 0 <= i < |evidence|
        ensures CarriesOneOf(evidence[i], citations) <==> CarriesOneOf(evidence[i], init) || Cited(evidence[i], last)
      {
        OneMoreCitation(evidence[i], init, last);
        assert citations == init + [last];
      }
    }
  }

  lemma OneMoreCitation(item: EvidenceItem, init: seq<string>, last: string)
    ensures CarriesOneOf(item, init + [last]) <==> CarriesOneOf(item, init) || Cited(item, last)
  {
    hide Cited;
    if c :| c in init && Cited(item, c) {
      assert c in init + [last];
    }
    assert last in init + [last];
  }

  /** What is cited for a hypothesis is evidence, and it is something whenever there is any. */
  lemma CitationBackedFacts(citations: seq<string>, evidence: seq<EvidenceItem>)
    ensures forall id :: id in CitationBacked(citations, evidence) ==> id in RawIds(evidence)
    ensures citations != [] && evidence != [] ==> CitationBacked(citations, evidence) != []
  {
    AllCitedIsRaw(citations, evidence);
    hide AllCited;
    var n := if |evidence| < 2 then |evidence| else 2;
    assert RawIds(evidence[..n]) == RawIds(evidence)[..n];
  }

  method CitationBackedEvidenceIDs(citations: seq<string>, evidence: seq<EvidenceItem>) returns (result: seq<string>)
    ensures result == CitationBacked(citations, evidence)
  {
    if |citations| == 0 {
      return [];
    }
    result := [];
    for c := 0 to |citations|
      invariant result == AllCited(citations[..c], evidence)
    {
      assert citations[..c + 1][..c] == citations[..c];
      ghost var before := result;
      for i := 0 to |evidence|
        invariant result == AppendCited(before, citations[c], evidence[..i])
      {
        assert evidence[..i + 1][..i] == evidence[..i];
        if Cited(evidence[i], citations[c]) {
          result := H.AppendUnique(result, evidence[i].id);
        }
      }
      assert evidence[..|evidence|] == evidence;
    }
    assert citations[..|citations|] == citations;
    if |result| > 0 {
      return;
    }
    for i := 0 to |evidence|
      invariant i <= 1 && result == RawIds(evidence[..i])
    {
      result := result + [evidence[i].id];
      assert RawIds(evidence[..i + 1]) == RawIds(evidence[..i]) + [evidence[i].id];
      if |result| == 2 {
        break;
      }
    }
  }

  function FindingIDs(finding: AgentFinding, evidence: seq<EvidenceItem>): seq<string> {
    D.KeepValid(finding.evidenceIDs, IdSet(evidence))
  }

  method ValidFindingEvidenceIDs(finding: AgentFinding, evidence: seq<EvidenceItem>) returns (result: seq<string>)
    ensures result == FindingIDs(finding, evidence)
    ensures forall id :: id in result <==> id in finding.evidenceIDs && id in IdSet(evidence)
    ensures NoRepeats(result)
  {
    hide IdSet;
    var valid := IdSet(evidence);
    var ids := finding.evidenceIDs;
    result := [];
    var seen: set<string> := {};
    for i := 0 to |ids|
      invariant result == D.KeepValid(ids[..i], valid)
      invariant forall id :: id in seen <==> id in result
    {
      assert ids[..i + 1][..i] == ids[..i];
      if ids[i] !in valid || ids[i] in seen {
        continue;
      }
      seen := seen + {ids[i]};
      result := result + [ids[i]];
    }
    assert ids[..|ids|] == ids;
    D.KeepValidFacts(ids, valid);
  }

  /** The best hypothesis: the first supported one of a ranked set. */
  function FirstSupported(hypotheses: seq<H.Hypothesis>): (r: Option<H.Hypothesis>)
    ensures r.Some? ==> r.value in hypotheses && r.value.status == "supported"
  {
    if hypotheses == [] then None
    else if hypotheses[0].status == "supported" then Some(hypotheses[0])
    else FirstSupported(hypotheses[1..])
  }

  function Supported(hypotheses: seq<H.Hypothesis>): seq<H.Hypothesis> {
    if hypotheses == [] then []
    else
      var before := Supported(hypotheses[..|hypotheses| - 1]);
      var last := hypotheses[|hypotheses| - 1];
      if last.status == "supported" then before + [last] else before
  }

  method SupportedHypotheses(hypotheses: seq<H.Hypothesis>) returns (result: seq<H.Hypothesis>)
    ensures result == Supported(hypotheses)
    ensures match FirstSupported(hypotheses)
            case None => result == []
            case Some(h) => result != [] && result[0] == h
  {
    result := [];
    for i := 0 to |hypotheses|
      invariant result == Supported(hypotheses[..i])
      invariant result == [] ==> FirstSupported(hypotheses) == FirstSupported(hypotheses[i..])
      invariant result != [] ==> FirstSupported(hypotheses) == Some(result[0])
    {
      assert hypotheses[..i + 1][..i] == hypotheses[..i];
      assert hypotheses[i..][1..] == hypotheses[i + 1..];
      if hypotheses[i].status == "supported" {
        result := result + [hypotheses[i]];
      }
    }
    assert hypotheses[..|hypotheses|] == hypotheses;
  }

  function NothingFound(t: Texts): L.Limitation {
    L.Limitation("MULTI_AGENT_EVIDENCE_EMPTY", t.nothingFound, "")
  }

  function FallbackConclusions(t: Texts, input: SynthesisInput): seq<D.Statement> {
    var observed, known := FindingIDs(input.evidenceFinding, input.evidence), FindingIDs(input.knowledgeFinding, input.evidence);
    (if observed != [] then [D.Statement(t.observation, observed)] else [])
    + (if known != [] then [D.Statement(t.knowledge, known)] else [])
  }

  function FallbackInferences(t: Texts, input: SynthesisInput): seq<D.Statement> {
    var observed, known := FindingIDs(input.evidenceFinding, input.evidence), FindingIDs(input.knowledgeFinding, input.evidence);
    (if observed != [] && known != [] then [D.Statement(t.aligned, observed + known)] else [])
    + match FirstSupported(input.hypotheses)
      case None => []
      case Some(h) => [D.Statement(t.hypothesis(h.title), CitationBacked(h.supporting, input.evidence))]
  }

  function FallbackRecommendations(t: Texts, input: SynthesisInput): seq<D.Statement> {
    var observed, known := FindingIDs(input.evidenceFinding, input.evidence), FindingIDs(input.knowledgeFinding, input.evidence);
    if observed != [] && known != [] then [D.Statement(t.validate, observed + known)]
    else if observed != [] then [D.Statement(t.retrieve, observed)]
    else if known != [] then [D.Statement(t.collect, known)]
    else []
  }

  /** What is answered without a model. */
  function Fallback(upper: char -> char, t: Texts, input: SynthesisInput): D.AgentOutput {
    if input.evidence == [] then
      D.AgentOutput([], [], [], [], L.Merge(upper, input.limitations + [NothingFound(t)]), input.toolRuns)
    else
      D.AgentOutput(FallbackConclusions(t, input), input.evidence, FallbackInferences(t, input),
        FallbackRecommendations(t, input), input.limitations, input.toolRuns)
  }

  method DeterministicSynthesize(upper: char -> char, t: Texts, input: SynthesisInput) returns (output: D.AgentOutput)
    ensures output == Fallback(upper, t, input)
  {
    hide FindingIDs, CitationBacked, FirstSupported, Supported, L.Merge;
    output := D.AgentOutput([], input.evidence, [], [], input.limitations, input.toolRuns);
    if |input.evidence| == 0 {
      var limitations := L.MergeLimitations(upper, [input.limitations, [NothingFound(t)]]);
      TwoGroups(input.limitations, [NothingFound(t)]);
      return output.(limitations := limitations);
    }
    var observed := ValidFindingEvidenceIDs(input.evidenceFinding, input.evidence);
    var known := ValidFindingEvidenceIDs(input.knowledgeFinding, input.evidence);
    if |observed| > 0 {
      output := output.(conclusions := output.conclusions + [D.Statement(t.observation, observed)]);
    }
    if |known| > 0 {
      output := output.(conclusions := output.conclusions + [D.Statement(t.knowledge, known)]);
    }
    if |observed| > 0 && |known| > 0 {
      var combined := observed + known;
      output := output.(
        inferences := output.inferences + [D.Statement(t.aligned, combined)],
        recommendations := output.recommendations + [D.Statement(t.validate, combined)]);
    } else if |observed| > 0 {
      output := output.(recommendations := output.recommendations + [D.Statement(t.retrieve, observed)]);
    } else if |known| > 0 {
      output := output.(recommendations := output.recommendations + [D.Statement(t.collect, known)]);
    }
    var supported := SupportedHypotheses(input.hypotheses);
    if |supported| > 0 {
      var best := supported[0];
      var ids := CitationBackedEvidenceIDs(best.supporting, input.evidence);
      output := output.(inferences := output.inferences + [D.Statement(t.hypothesis(best.title), ids)]);
    }
  }

  lemma TwoGroups(a: seq<L.Limitation>, b: seq<L.Limitation>)
    ensures L.Flatten([a, b]) == a + b
  {
    assert [a, b][..1] == [a] && [a][..0] == [];
    assert L.Flatten([a]) == L.Flatten([]) + a;
  }

  // ---- What the deterministic answer says ------------------------------------------------------

  /** The IDs an agent's finding cites that are IDs of the evidence. */
  function CitedBy(finding: AgentFinding, evidence: seq<EvidenceItem>): set<string> {
    set id | id in finding.evidenceIDs && id in IdSet(evidence)
  }

  ghost predicate Says(t: D.Statement, text: string, ids: set<string>) {
    t.text == text && t.evidenceIDs != [] && forall id :: id in t.evidenceIDs <==> id in ids
  }

  lemma FindingIDsAre(finding: AgentFinding, evidence: seq<EvidenceItem>)
    ensures var ids := FindingIDs(finding, evidence);
            (forall id :: id in ids <==> id in CitedBy(finding, evidence)) && (ids == [] <==> CitedBy(finding, evidence) == {})
  {
    hide IdSet;
    D.KeepValidFacts(finding.evidenceIDs, IdSet(evidence));
    var ids := FindingIDs(finding, evidence);
    assert ids != [] ==> ids[0] in ids;
    assert ids == [] ==> forall id :: id !in CitedBy(finding, evidence);
  }

  /** Each agent's evidence is stated as that agent's, and what both found is put together. */
  lemma FallbackSays(upper: char -> char, t: Texts, input: SynthesisInput)
    requires input.evidence != []
    ensures var o, k := CitedBy(input.evidenceFinding, input.evidence), CitedBy(input.knowledgeFinding, input.evidence);
            var r := Fallback(upper, t, input);
            && |r.conclusions| == (if o != {} then 1 else 0) + (if k != {} then 1 else 0)
            && (o != {} ==> Says(r.conclusions[0], t.observation, o))
            && (k != {} ==> Says(r.conclusions[|r.conclusions| - 1], t.knowledge, k))
            && |r.recommendations| == (if o != {} || k != {} then 1 else 0)
            && (o != {} && k != {} ==> Says(r.recommendations[0], t.validate, o + k))
            && (o != {} && k == {} ==> Says(r.recommendations[0], t.retrieve, o))
            && (o == {} && k != {} ==> Says(r.recommendations[0], t.collect, k))
            && |r.inferences| == (if o != {} && k != {} then 1 else 0) + (if FirstSupported(input.hypotheses).Some? then 1 else 0)
            && (o != {} && k != {} ==> Says(r.inferences[0], t.aligned, o + k))
  {
    FindingIDsAre(input.evidenceFinding, input.evidence);
    FindingIDsAre(input.knowledgeFinding, input.evidence);
    hide CitedBy, FindingIDs, FirstSupported, CitationBacked, L.Merge;
  }

  /** The last inference is about the first supported hypothesis, and cites what is cited for it. */
  lemma FallbackInfersTheBest(upper: char -> char, t: Texts, input: SynthesisInput, i: nat)
    requires input.evidence != [] && i < |input.hypotheses| && input.hypotheses[i].status == "supported"
    requires forall j :: 0 <= j < i ==> input.hypotheses[j].status != "supported"
    ensures var h, r := input.hypotheses[i], Fallback(upper, t, input).inferences;
            && r != [] && r[|r| - 1].text == t.hypothesis(h.title)
            && CitesItsItems(r[|r| - 1].evidenceIDs, h.supporting, input.evidence)
  {
    FirstSupportedIs(input.hypotheses, i);
    var h, r := input.hypotheses[i], Fallback(upper, t, input).inferences;
    var ids := CitationBacked(h.supporting, input.evidence);
    assert r[|r| - 1] == D.Statement(t.hypothesis(h.title), ids) by {
      hide FirstSupported, FindingIDs, CitationBacked;
    }
    hide Fallback, CarriesOneOf, AllCited;
    forall id ensures id in AllCited(h.supporting, input.evidence) <==> Carried(input.evidence, h.supporting, id) {
      AllCitedIff(h.supporting, input.evidence, id);
    }
    if k :| 0 <= k < |input.evidence| && CarriesOneOf(input.evidence[k], h.supporting) {
      assert Carried(input.evidence, h.supporting, input.evidence[k].id);
      NoCitationNoneCarried(input.evidence[k], h.supporting);
    } else {
      assert forall id :: !Carried(input.evidence, h.supporting, id);
      SomeMember(AllCited(h.supporting, input.evidence));
    }
  }

  lemma SomeMember(ids: seq<string>)
    ensures ids != [] ==> exists id :: id in ids
  {
    if ids != [] {
      assert ids[0] in ids;
    }
  }

  /** The ID of an item that carries one of the citations. */
  predicate Carried(evidence: seq<EvidenceItem>, citations: seq<string>, id: string) {
    exists k :: 0 <= k < |evidence| && CarriesOneOf(evidence[k], citations) && evidence[k].id == id
  }

  /** The IDs of the items that carry one of the citations; if there are citations but no such items, the first two. */
  ghost predicate CitesItsItems(ids: seq<string>, citations: seq<string>, evidence: seq<EvidenceItem>) {
    if exists k :: 0 <= k < |evidence| && CarriesOneOf(evidence[k], citations)
    then forall id :: id in ids <==> Carried(evidence, citations, id)
    else ids == if citations == [] then [] else RawIds(evidence[..if |evidence| < 2 then |evidence| else 2])
  }

  lemma NoCitationNoneCarried(item: EvidenceItem, citations: seq<string>)
    ensures CarriesOneOf(item, citations) ==> citations != []
  {
    hide Cited;
  }

  lemma {:induction false} FirstSupportedIs(hypotheses: seq<H.Hypothesis>, i: nat)
    requires i < |hypotheses| && hypotheses[i].status == "supported"
    requires forall j :: 0 <= j < i ==> hypotheses[j].status != "supported"
    ensures FirstSupported(hypotheses) == Some(hypotheses[i])
  {
    if i > 0 {
      FirstSupportedIs(hypotheses[1..], i - 1);
    }
  }

  /** Without evidence nothing is said, and that there is none is a limitation. */
  lemma FallbackWithoutEvidence(upper: char -> char, t: Texts, input: SynthesisInput)
    requires input.evidence == []
    ensures var r := Fallback(upper, t, input);
            && r.conclusions == [] && r.inferences == [] && r.recommendations == [] && r.evidence == []
            && r.toolRuns == input.toolRuns
            && r.limitations == L.Merge(upper, input.limitations + [L.Limitation("MULTI_AGENT_EVIDENCE_EMPTY", t.nothingFound, "")])
  {
    hide L.Merge;
  }

  // ---- The deterministic answer passes the validation it is spared ---------------------------

  /** Cites its own evidence only, and something whenever there is any. */
  predicate CitesItsOwn(finding: AgentFinding) {
    && (forall i :: 0 <= i < |finding.evidenceIDs| ==> finding.evidenceIDs[i] in IdSet(finding.evidence))
    && (IdSet(finding.evidence) != {} ==> finding.evidenceIDs != [])
  }

  /** Findings that cite their own evidence, merged, with hypotheses that were evaluated. */
  predicate WellFormed(input: SynthesisInput) {
    && CitesItsOwn(input.evidenceFinding) && CitesItsOwn(input.knowledgeFinding)
    && input.evidence == FirstOfEachId(input.evidenceFinding.evidence + input.knowledgeFinding.evidence)
    && forall h :: h in input.hypotheses ==> H.WellSupported(h)
  }

  /** The IDs cited for the best hypothesis carry no outer whitespace. */
  predicate BestCitesTrimmed(input: SynthesisInput) {
    match FirstSupported(input.hypotheses)
    case None => true
    case Some(h) => forall id :: id in CitationBacked(h.supporting, input.evidence) ==> TrimSpace(id) == id
  }

  lemma FindingIDsFacts(finding: AgentFinding, evidence: seq<EvidenceItem>)
    requires CitesItsOwn(finding) && IdSet(finding.evidence) <= IdSet(evidence)
    ensures D.Within(FindingIDs(finding, evidence), IdSet(evidence))
    ensures FindingIDs(finding, evidence) == [] ==> IdSet(finding.evidence) == {}
  {
    hide IdSet;
    D.KeepValidFacts(finding.evidenceIDs, IdSet(evidence));
    assert finding.evidenceIDs != [] ==> finding.evidenceIDs[0] in FindingIDs(finding, evidence);
  }

  /** An ID taken from an item is in the set of trimmed IDs exactly when it is trimmed. */
  lemma RawIdIsValidIffTrimmed(evidence: seq<EvidenceItem>, id: string)
    requires DistinctIds(evidence) && id in RawIds(evidence)
    ensures id in IdSet(evidence) <==> TrimSpace(id) == id
  {
    hide TrimSpace;
    var i :| 0 <= i < |evidence| && RawIds(evidence)[i] == id;
    assert Id(evidence[i]) in IdSet(evidence);
    if id in IdSet(evidence) {
      var k :| 0 <= k < |evidence| && Id(evidence[k]) == id;
      TrimSpaceTrims(evidence[k].id);
    }
  }

  lemma MergedFindingIDs(input: SynthesisInput)
    requires WellFormed(input)
    ensures var observed, known := FindingIDs(input.evidenceFinding, input.evidence), FindingIDs(input.knowledgeFinding, input.evidence);
            && D.Within(observed, IdSet(input.evidence)) && D.Within(known, IdSet(input.evidence))
            && (input.evidence != [] ==> observed != [] || known != [])
    ensures DistinctIds(input.evidence)
  {
    hide FirstOfEachId, FindingIDs, DistinctIds;
    var a, b := input.evidenceFinding.evidence, input.knowledgeFinding.evidence;
    FirstOfEachIdKeepsIds(a + b);
    IdSetAdds(a, b);
    FindingIDsFacts(input.evidenceFinding, input.evidence);
    FindingIDsFacts(input.knowledgeFinding, input.evidence);
    if input.evidence != [] {
      SomeId(input.evidence);
    }
  }

  lemma SomeId(evidence: seq<EvidenceItem>)
    requires DistinctIds(evidence) && evidence != []
    ensures IdSet(evidence) != {}
  {
    hide TrimSpace;
    assert Id(evidence[0]) in IdSet(evidence);
  }

  lemma WithinBoth(a: seq<string>, b: seq<string>, valid: set<string>)
    requires D.Within(a, valid) && D.Within(b, valid)
    ensures D.Within(a + b, valid)
  {
  }

  lemma OneIsBound(text: string, ids: seq<string>, valid: set<string>)
    requires TrimSpace(text) != "" && D.Within(ids, valid)
    ensures AllBound(if ids != [] then [D.Statement(text, ids)] else [], valid)
  {
  }

  lemma BoundConclusions(t: Texts, input: SynthesisInput)
    requires WellFormed(input) && t.Sound()
    ensures AllBound(FallbackConclusions(t, input), IdSet(input.evidence))
    ensures input.evidence != [] ==> FallbackConclusions(t, input) != []
  {
    MergedFindingIDs(input);
    hide WellFormed, TrimSpace, IdSet, FindingIDs, D.Within, AllBound;
    var observed, known := FindingIDs(input.evidenceFinding, input.evidence), FindingIDs(input.knowledgeFinding, input.evidence);
    OneIsBound(t.observation, observed, IdSet(input.evidence));
    OneIsBound(t.knowledge, known, IdSet(input.evidence));
    AllBoundConcat(if observed != [] then [D.Statement(t.observation, observed)] else [],
      if known != [] then [D.Statement(t.knowledge, known)] else [], IdSet(input.evidence));
  }

  lemma BoundRecommendations(t: Texts, input: SynthesisInput)
    requires WellFormed(input) && t.Sound()
    ensures AllBound(FallbackRecommendations(t, input), IdSet(input.evidence))
  {
    MergedFindingIDs(input);
    hide WellFormed, TrimSpace, IdSet, FindingIDs, D.Within, AllBound;
    var observed, known := FindingIDs(input.evidenceFinding, input.evidence), FindingIDs(input.knowledgeFinding, input.evidence);
    WithinBoth(observed, known, IdSet(input.evidence));
    OneIsBound(t.validate, observed + known, IdSet(input.evidence));
    OneIsBound(t.retrieve, observed, IdSet(input.evidence));
    OneIsBound(t.collect, known, IdSet(input.evidence));
    NothingIsBound(IdSet(input.evidence));
    assert observed != [] ==> observed + known != [];
  }

  lemma BoundInferences(t: Texts, input: SynthesisInput)
    requires WellFormed(input) && t.Sound() && input.evidence != []
    ensures AllBound(FallbackInferences(t, input), IdSet(input.evidence)) <==> BestCitesTrimmed(input)
  {
    MergedFindingIDs(input);
    var observed, known := FindingIDs(input.evidenceFinding, input.evidence), FindingIDs(input.knowledgeFinding, input.evidence);
    WithinBoth(observed, known, IdSet(input.evidence));
    var both := if observed != [] && known != [] then [D.Statement(t.aligned, observed + known)] else [];
    OneIsBound(t.aligned, observed + known, IdSet(input.evidence));
    NothingIsBound(IdSet(input.evidence));
    hide WellFormed, TrimSpace, IdSet, FindingIDs, D.Within, AllBound, CitationBacked, FirstSupported;
    assert observed != [] ==> observed + known != [];
    assert AllBound(both, IdSet(input.evidence));
    match FirstSupported(input.hypotheses)
    case None =>
      assert FallbackInferences(t, input) == both;
    case Some(h) =>
      var best := [D.Statement(t.hypothesis(h.title), CitationBacked(h.supporting, input.evidence))];
      assert FallbackInferences(t, input) == both + best;
      AllBoundConcat(both, best, IdSet(input.evidence));
      BestIsBoundIffTrimmed(t, input, h);
  }

  lemma BestIsBoundIffTrimmed(t: Texts, input: SynthesisInput, h: H.Hypothesis)
    requires WellFormed(input) && t.Sound() && input.evidence != [] && FirstSupported(input.hypotheses) == Some(h)
    ensures AllBound([D.Statement(t.hypothesis(h.title), CitationBacked(h.supporting, input.evidence))], IdSet(input.evidence))
       <==> BestCitesTrimmed(input)
  {
    MergedFindingIDs(input);
    assert H.WellSupported(h);
    CitationBackedFacts(h.supporting, input.evidence);
    var ids, text := CitationBacked(h.supporting, input.evidence), t.hypothesis(h.title);
    assert TrimSpace(text) != "";
    hide WellFormed, TrimSpace, IdSet, FindingIDs, CitationBacked, FirstSupported, DistinctIds, RawIds, Texts.Sound;
    CitedAreValid(ids, input.evidence);
    JustOne(D.Statement(text, ids), IdSet(input.evidence));
  }

  lemma JustOne(t: D.Statement, valid: set<string>)
    ensures AllBound([t], valid) <==> Bound(t, valid)
  {
    hide Bound;
    assert [t][0] == t;
  }

  lemma CitedAreValid(ids: seq<string>, evidence: seq<EvidenceItem>)
    requires DistinctIds(evidence) && forall id :: id in ids ==> id in RawIds(evidence)
    ensures D.Within(ids, IdSet(evidence)) <==> forall id :: id in ids ==> TrimSpace(id) == id
  {
    hide TrimSpace, IdSet, DistinctIds, RawIds;
    forall id | id in ids ensures id in IdSet(evidence) <==> TrimSpace(id) == id {
      RawIdIsValidIffTrimmed(evidence, id);
    }
    assert forall i :: 0 <= i < |ids| ==> ids[i] in ids;
  }

  lemma AllBoundConcat(a: seq<D.Statement>, b: seq<D.Statement>, valid: set<string>)
    ensures AllBound(a + b, valid) <==> AllBound(a, valid) && AllBound(b, valid)
  {
    hide TrimSpace;
    var c := a + b;
    assert forall i :: 0 <= i < |a| ==> c[i] == a[i];
    assert forall i :: 0 <= i < |b| ==> c[|a| + i] == b[i];
    if AllBound(c, valid) {
      forall i | 0 <= i < |b| ensures Bound(b[i], valid) {
        assert Bound(c[|a| + i], valid);
      }
    }
  }

  /**
   The deterministic answer would pass the validation that only the primary one undergoes:
   always, but for the one inference that cites raw IDs, and for that when they are trimmed.
   */
  lemma FallbackPassesIffTrimmed(upper: char -> char, t: Texts, input: SynthesisInput)
    requires WellFormed(input) && t.Sound()
    ensures Acceptable(Fallback(upper, t, input), input.evidence) <==> input.evidence == [] || BestCitesTrimmed(input)
  {
    BoundConclusions(t, input);
    BoundRecommendations(t, input);
    var output := Fallback(upper, t, input);
    hide WellFormed, AllBound, FallbackConclusions, FallbackRecommendations, FallbackInferences, IdSet;
    AllBoundConcat(output.conclusions + output.inferences, output.recommendations, IdSet(input.evidence));
    AllBoundConcat(output.conclusions, output.inferences, IdSet(input.evidence));
    if input.evidence == [] {
      NothingIsBound(IdSet(input.evidence));
    } else {
      BoundInferences(t, input);
    }
  }

  lemma NothingIsBound(valid: set<string>)
    ensures AllBound([], valid)
  {
  }

  predicate TrimmedIds(evidence: seq<EvidenceItem>) {
    forall i :: 0 <= i < |evidence| ==> evidence[i].id != "" && TrimSpace(evidence[i].id) == evidence[i].id
  }

  /** With trimmed evidence IDs the deterministic answer always passes. */
  lemma FallbackPasses(upper: char -> char, t: Texts, input: SynthesisInput)
    requires WellFormed(input) && t.Sound() && TrimmedIds(input.evidence)
    ensures Acceptable(Fallback(upper, t, input), input.evidence)
  {
    FallbackPassesIffTrimmed(upper, t, input);
    hide WellFormed, Acceptable, Fallback, TrimSpace;
    match FirstSupported(input.hypotheses)
    case None =>
    case Some(h) =>
      CitationBackedFacts(h.supporting, input.evidence);
  }

  /** One item whose ID has a space around it is enough for the answer to be one the agent would refuse. */
  lemma UntrimmedIdFails(upper: char -> char, t: Texts, item: EvidenceItem, h: H.Hypothesis)
    requires t.Sound() && Id(item) != "" && Id(item) != item.id
    requires H.WellSupported(h) && h.status == "supported"
    ensures var finding := AgentFinding([item], [Id(item)], [], []);
            var input := SynthesisInput("", finding, AgentFinding([], [], [], []), [item], [], [], [h]);
            WellFormed(input) && !Acceptable(Fallback(upper, t, input), input.evidence)
  {
    var finding := AgentFinding([item], [Id(item)], [], []);
    var input := SynthesisInput("", finding, AgentFinding([], [], [], []), [item], [], [], [h]);
    hide Acceptable, Fallback, TrimSpace, H.WellSupported, Texts.Sound;
    OneItem(item);
    assert [item] + [] == [item];
    assert WellFormed(input);
    FallbackPassesIffTrimmed(upper, t, input);
    var ids := CitationBacked(h.supporting, [item]);
    OneItemIsCited(h, item);
  }

  lemma OneItem(item: EvidenceItem)
    requires Id(item) != ""
    ensures FirstOfEachId([item]) == [item] && IdSet([item]) == {Id(item)} && IdSet([]) == {}
  {
    IdSetOfOne(item);
    assert [item][..0] == [];
  }

  lemma OneItemIsCited(h: H.Hypothesis, item: EvidenceItem)
    requires H.WellSupported(h) && h.status == "supported"
    ensures item.id in CitationBacked(h.supporting, [item])
  {
    CitationBackedFacts(h.supporting, [item]);
    var ids := CitationBacked(h.supporting, [item]);
    assert ids[0] in ids;
  }

  // ---- The agent -----------------------------------------------------------------------------------

  datatype Primary = NoPrimary | Failed(message: string) | Answered(output: D.AgentOutput)

  datatype Answer = Answer(output: D.AgentOutput, fallbackUsed: bool, fallbackReason: string, diagnosis: D.FinalDiagnosis)

  function FallbackReason(lower: char -> char, failure: Failure): string {
    match failure
    case UnknownEvidenceID(_) => "invalid_evidence_reference"
    case NoConclusions => "invalid_synthesis_output"
    case EmptyText => "invalid_synthesis_output"
    case NotEvidenceBound => "invalid_synthesis_output"
    case PrimaryFailed(message) =>
      var m := MapText(lower, message);
      if Contains(m, "unknown evidence id") then "invalid_evidence_reference"
      else if Contains(m, "no conclusions") || Contains(m, "empty text") || Contains(m, "not evidence-bound") then
        "invalid_synthesis_output"
      else "primary_synthesis_failed"
  }

  /** The output with evidence, runs and limitations of the input. */
  function Rebased(upper: char -> char, output: D.AgentOutput, input: SynthesisInput): D.AgentOutput {
    output.(evidence := input.evidence, toolRuns := input.toolRuns,
            limitations := L.Merge(upper, input.limitations + output.limitations))
  }

  method NormalizeSynthesisOutput(w: D.Wording, output: D.AgentOutput, input: SynthesisInput, fallbackUsed: bool, reason: string)
      returns (a: Answer)
    ensures a == Answer(Rebased(w.upper, output, input), fallbackUsed, if fallbackUsed then reason else "",
                        D.DiagnosisOf(w, Rebased(w.upper, output, input), input.service))
  {
    hide L.Merge, D.DiagnosisOf;
    var limitations := L.MergeLimitations(w.upper, [input.limitations, output.limitations]);
    TwoGroups(input.limitations, output.limitations);
    var rebased := output.(evidence := input.evidence, toolRuns := input.toolRuns, limitations := limitations);
    var diagnosis := D.BuildFinalDiagnosis(w, rebased, input.service);
    a := Answer(rebased, fallbackUsed, if fallbackUsed then reason else "", diagnosis);
  }

  predicate CitesWithin(ts: seq<D.Statement>, valid: set<string>) {
    forall i :: 0 <= i < |ts| ==> D.Within(ts[i].evidenceIDs, valid)
  }

  /** The ID fields of the evidence, with and without outer whitespace. */
  function AnyIds(evidence: seq<EvidenceItem>): set<string> {
    IdSet(evidence) + set id | id in RawIds(evidence)
  }

  /** The answer is about the evidence of the input, and cites nothing else. */
  ghost predicate Grounded(a: Answer, input: SynthesisInput) {
    && a.output.evidence == input.evidence && a.output.toolRuns == input.toolRuns
    && CitesWithin(a.output.conclusions, IdSet(input.evidence))
    && CitesWithin(a.output.inferences, AnyIds(input.evidence))
    && CitesWithin(a.output.recommendations, IdSet(input.evidence))
    && D.CitesOnly(a.diagnosis, IdSet(input.evidence))
    && (!a.fallbackUsed ==> CitesWithin(a.output.inferences, IdSet(input.evidence)))
  }

  lemma AcceptableIsGrounded(output: D.AgentOutput, evidence: seq<EvidenceItem>)
    requires Acceptable(output, evidence)
    ensures CitesWithin(output.conclusions, IdSet(evidence)) && CitesWithin(output.recommendations, IdSet(evidence))
    ensures CitesWithin(output.inferences, IdSet(evidence))
  {
    hide IdSet, TrimSpace, D.Within;
    AllBoundConcat(output.conclusions + output.inferences, output.recommendations, IdSet(evidence));
    AllBoundConcat(output.conclusions, output.inferences, IdSet(evidence));
  }

  lemma FallbackIsGrounded(upper: char -> char, t: Texts, input: SynthesisInput)
    ensures var output := Fallback(upper, t, input);
            && CitesWithin(output.conclusions, IdSet(input.evidence)) && CitesWithin(output.recommendations, IdSet(input.evidence))
            && CitesWithin(output.inferences, AnyIds(input.evidence))
  {
    hide IdSet, CitationBacked, FirstSupported, L.Merge, RawIds, FindingIDs, D.Within, AnyIds;
    var observed, known := FindingIDs(input.evidenceFinding, input.evidence), FindingIDs(input.knowledgeFinding, input.evidence);
    FindingIDsAreWithin(input.evidenceFinding, input.evidence);
    FindingIDsAreWithin(input.knowledgeFinding, input.evidence);
    WithinBoth(observed, known, IdSet(input.evidence));
    WithinAny(observed + known, input.evidence);
    match FirstSupported(input.hypotheses)
    case None =>
    case Some(h) =>
      CitationBackedFacts(h.supporting, input.evidence);
      CitedIsWithinAny(CitationBacked(h.supporting, input.evidence), input.evidence);
  }

  lemma FindingIDsAreWithin(finding: AgentFinding, evidence: seq<EvidenceItem>)
    ensures D.Within(FindingIDs(finding, evidence), IdSet(evidence))
  {
    hide IdSet;
    D.KeepValidFacts(finding.evidenceIDs, IdSet(evidence));
    var ids := FindingIDs(finding, evidence);
    assert forall i :: 0 <= i < |ids| ==> ids[i] in ids;
  }

  lemma WithinAny(ids: seq<string>, evidence: seq<EvidenceItem>)
    requires D.Within(ids, IdSet(evidence))
    ensures D.Within(ids, AnyIds(evidence))
  {
  }

  lemma CitedIsWithinAny(ids: seq<string>, evidence: seq<EvidenceItem>)
    requires forall id :: id in ids ==> id in RawIds(evidence)
    ensures D.Within(ids, AnyIds(evidence))
  {
    assert forall i :: 0 <= i < |ids| ==> ids[i] in ids;
  }

  /** Whatever the primary synthesizer does, the answer is grounded in the evidence of the input. */
  method Synthesize(w: D.Wording, t: Texts, primary: Primary, input: SynthesisInput) returns (a: Answer)
    ensures Grounded(a, input)
    ensures a.fallbackUsed <==> !(primary.Answered? && Acceptable(primary.output, input.evidence))
    ensures a.output == Rebased(w.upper, if a.fallbackUsed then Fallback(w.upper, t, input) else primary.output, input)
    ensures a.diagnosis == D.DiagnosisOf(w, a.output, input.service)
    ensures primary.NoPrimary? ==> a.fallbackReason == "primary_synthesizer_unavailable"
    ensures a.fallbackReason == "" <==> !a.fallbackUsed
    ensures primary.Answered? && a.fallbackUsed ==>
              (a.fallbackReason == "invalid_evidence_reference" || a.fallbackReason == "invalid_synthesis_output")
    ensures primary.Answered? && a.fallbackUsed && input.evidence != [] && primary.output.conclusions == [] ==>
              a.fallbackReason == "invalid_synthesis_output"
    ensures primary.Answered? && !(input.evidence != [] && primary.output.conclusions == []) ==>
              forall i: nat :: FirstUnbound(Statements(primary.output), IdSet(input.evidence), i) ==>
                var t := Statements(primary.output)[i];
                (a.fallbackReason == "invalid_synthesis_output" <==> TrimSpace(t.text) == "" || t.evidenceIDs == [])
    ensures primary.Failed? ==>
              var m := MapText(w.lower, primary.message);
              && (a.fallbackReason == "invalid_evidence_reference" <==> Contains(m, "unknown evidence id"))
              && (a.fallbackReason == "primary_synthesis_failed" <==>
                    !Contains(m, "unknown evidence id") && !Contains(m, "no conclusions")
                    && !Contains(m, "empty text") && !Contains(m, "not evidence-bound"))
  {
    hide Contains, TrimSpace, MapText;
    hide Acceptable, Fallback, D.DiagnosisOf, IdSet, L.Merge, AnyIds, CitesWithin, D.CitesOnly;
    FallbackIsGrounded(w.upper, t, input);
    var failure: Option<Failure> := None;
    match primary {
      case NoPrimary =>
      case Failed(message) =>
        failure := Some(PrimaryFailed(message));
      case Answered(output) =>
        failure := ValidateSynthesisOutput(output, input.evidence);
        if failure.None? {
          AcceptableIsGrounded(output, input.evidence);
          a := NormalizeSynthesisOutput(w, output, input, false, "");
          D.DiagnosisIsGrounded(w, a.output, input.service);
          AnyIdsInclude(output.inferences, input.evidence);
          return;
        }
    }
    var fallback := DeterministicSynthesize(w.upper, t, input);
    var reason := if failure.None? then "primary_synthesizer_unavailable" else FallbackReason(w.lower, failure.value);
    a := NormalizeSynthesisOutput(w, fallback, input, true, reason);
    D.DiagnosisIsGrounded(w, a.output, input.service);
  }

  lemma AnyIdsInclude(ts: seq<D.Statement>, evidence: seq<EvidenceItem>)
    requires CitesWithin(ts, IdSet(evidence))
    ensures CitesWithin(ts, AnyIds(evidence))
  {
  }

  /** When the evidence IDs are trimmed, inferences too cite nothing but them. */
  lemma TrimmedIdsGroundInferences(a: Answer, input: SynthesisInput)
    requires Grounded(a, input) && TrimmedIds(input.evidence)
    ensures CitesWithin(a.output.inferences, IdSet(input.evidence))
  {
    hide D.CitesOnly, TrimSpace;
    forall i | 0 <= i < |input.evidence| ensures input.evidence[i].id in IdSet(input.evidence) {
      assert Id(input.evidence[i]) == input.evidence[i].id;
    }
  }

  // ---- Limitations of the answer -------------------------------------------------------------------------

  /** Limitations that were merged go through the fallback and the second merge unchanged. */
  lemma FallbackKeepsLimitations(upper: char -> char, t: Texts, input: SynthesisInput, groups: seq<L.Limitation>)
    requires L.IsUpperTable(upper) && input.limitations == L.Merge(upper, groups)
    ensures Rebased(upper, Fallback(upper, t, input), input).limitations ==
            if input.evidence == [] then L.Merge(upper, groups + [NothingFound(t)]) else input.limitations
  {
    var merged, empty := input.limitations, [NothingFound(t)];
    hide L.Merge, L.IsUpperTable, FallbackConclusions, FallbackInferences, FallbackRecommendations;
    if input.evidence == [] {
      L.MergeTheRestFirst(upper, merged, merged + empty);
      assert merged + (merged + empty) == merged + merged + empty;
      L.MergeInStages(upper, merged + merged, empty);
      L.MergingAgainAddsNothing(upper, merged, merged);
      L.MergeIsIdempotent(upper, groups);
      L.MergeInStages(upper, groups, empty);
    } else {
      L.MergingAgainAddsNothing(upper, merged, merged);
      L.MergeIsIdempotent(upper, groups);
    }
  }
}
