/**
 The final diagnosis (buildFinalDiagnosis and what it calls, internal/multiagent/synthesis.go).

 Keyword classifiers, localised texts and the Unicode case tables are parameters: see Wording.
 */
module Diagnosis {

  import opened Text
  import opened Collections
  import opened Metadata
  import opened Findings
  import L = Limitations

  /** Everything that depends on word lists, on the language or on a case table. */
  datatype Wording = Wording(
    lower: char -> char,
    upper: char -> char,
    causal: string -> bool,
    symptom: string -> bool,
    correlates: string -> bool,
    insufficient: string,
    boundary: (string, string) -> string,
    summary: nat -> string,
    toolLimitation: (string, string) -> string)
  {
    /** isCausalRootCauseCandidate looks for words, so it accepts no blank text. */
    ghost predicate Sound() {
      forall t :: causal(t) ==> TrimSpace(t) != ""
    }
  }

  datatype Statement = Statement(text: string, evidenceIDs: seq<string>)

  datatype AgentOutput = AgentOutput(
    conclusions: seq<Statement>,
    evidence: seq<EvidenceItem>,
    inferences: seq<Statement>,
    recommendations: seq<Statement>,
    limitations: seq<L.Limitation>,
    toolRuns: seq<ToolRun>)

  datatype Finding = Finding(description: string, evidenceIDs: seq<string>, confidence: string, kind: string)

  datatype RootCause = RootCause(
    conclusion: string, confidence: string, evidenceIDs: seq<string>, alternatives: seq<string>, status: string)

  datatype Recommendation = Recommendation(priority: string, action: string, evidenceIDs: seq<string>)

  datatype FinalLimitation = FinalLimitation(code: string, description: string, source: string)

  datatype FinalDiagnosis = FinalDiagnosis(
    summary: string,
    findings: seq<Finding>,
    rootCause: RootCause,
    recommendations: seq<Recommendation>,
    limitations: seq<FinalLimitation>,
    evidenceRefs: seq<string>,
    completeness: string,
    diagnosisStatus: string)

  // ---- Citations ---------------------------------------------------------------------------

  /** The valid ones, each once, in order. */
  function KeepValid(ids: seq<string>, valid: set<string>): (r: seq<string>)
    ensures |r| <= |ids|
  {
    if ids == [] then []
    else
      var kept := KeepValid(ids[..|ids| - 1], valid);
      var last := ids[|ids| - 1];
      if last in valid && last !in kept then kept + [last] else kept
  }

  lemma {:induction false} KeepValidFacts(ids: seq<string>, valid: set<string>)
    ensures forall id :: id in KeepValid(ids, valid) <==> id in ids && id in valid
    ensures NoRepeats(KeepValid(ids, valid))
  {
    if ids != [] {
      KeepValidFacts(ids[..|ids| - 1], valid);
      assert ids == ids[..|ids| - 1] + [ids[|ids| - 1]];
    }
  }

  /** They stand in the order of their first occurrences. */
  lemma {:induction false} FirstOccurrencesAreKept(ids: seq<string>, valid: set<string>) returns (at: seq<nat>)
    ensures |at| == |KeepValid(ids, valid)|
    ensures forall i, j :: 0 <= i < j < |at| ==> at[i] < at[j]
    ensures forall i :: 0 <= i < |at| ==> at[i] < |ids| && ids[at[i]] == KeepValid(ids, valid)[i] && ids[at[i]] !in ids[..at[i]]
  {
    at := [];
    if ids != [] {
      var n := |ids| - 1;
      at := FirstOccurrencesAreKept(ids[..n], valid);
      KeepValidFacts(ids[..n], valid);
      assert forall i :: 0 <= i < |at| ==> ids[..n][..at[i]] == ids[..at[i]];
      if ids[n] in valid && ids[n] !in KeepValid(ids[..n], valid) {
        at := at + [n];
      }
    }
  }

  function TrimAll(ids: seq<string>): (r: seq<string>)
    ensures |r| == |ids| && forall i :: 0 <= i < |ids| ==> r[i] == TrimSpace(ids[i])
  {
    seq(|ids|, i requires 0 <= i < |ids| => TrimSpace(ids[i]))
  }

  function ValidIDs(ids: seq<string>, evidence: seq<EvidenceItem>): seq<string> {
    KeepValid(TrimAll(ids), IdSet(evidence))
  }

  predicate Within(ids: seq<string>, valid: set<string>) {
    forall i :: 0 <= i < |ids| ==> ids[i] in valid
  }

  lemma ValidIDsAreWithin(ids: seq<string>, evidence: seq<EvidenceItem>)
    ensures Within(ValidIDs(ids, evidence), IdSet(evidence)) && NoRepeats(ValidIDs(ids, evidence))
  {
    KeepValidFacts(TrimAll(ids), IdSet(evidence));
  }

  method ValidEvidenceIDs(ids: seq<string>, evidence: seq<EvidenceItem>) returns (result: seq<string>)
    ensures result == ValidIDs(ids, evidence)
    ensures Within(result, IdSet(evidence)) && NoRepeats(result)
    ensures forall i :: 0 <= i < |ids| && TrimSpace(ids[i]) in IdSet(evidence) ==> TrimSpace(ids[i]) in result
  {
    hide TrimSpace, IdSet;
    var valid := IdSet(evidence);
    result := [];
    var seen: set<string> := {};
    var trimmed := TrimAll(ids);
    for i := 0 to |ids|
      invariant result == KeepValid(trimmed[..i], valid)
      invariant forall id :: id in seen <==> id in result
    {
      assert trimmed[..i + 1][..i] == trimmed[..i];
      var id := TrimSpace(ids[i]);
      if id !in valid || id in seen {
        continue;
      }
      seen := seen + {id};
      result := result + [id];
    }
    assert trimmed[..|ids|] == trimmed;
    KeepValidFacts(trimmed, valid);
    assert forall i :: 0 <= i < |ids| ==> trimmed[i] in trimmed;
  }

  // ---- Evidence -----------------------------------------------------------------------------

  function EvidenceDataStatus(w: Wording, item: EvidenceItem): string {
    var mode := MapText(w.lower, MetadataText(item.metadata, "mode"));
    if MetadataText(item.metadata, "data_status") != "" then MetadataText(item.metadata, "data_status")
    else if MetadataFlag(item.metadata, "fallback_used") then "fallback"
    else if Contains(mode, "fallback") || Contains(mode, "mock") then "fallback"
    else "available"
  }

  predicate Live(w: Wording, item: EvidenceItem) {
    EvidenceDataStatus(w, item) != "fallback"
  }

  function SourceOf(item: EvidenceItem): string {
    if TrimSpace(item.sourceType) == "" then "unknown" else TrimSpace(item.sourceType)
  }

  function ServiceOf(item: EvidenceItem): string {
    if "service" in item.metadata && item.metadata["service"].TextValue? then TrimSpace(item.metadata["service"].text)
    else TrimSpace(item.resourceID)
  }

  datatype EvidenceSummary = EvidenceSummary(bySource: map<string, nat>, services: map<string, nat>) {
    function Count(source: string): nat {
      if source in bySource then bySource[source] else 0
    }

    predicate HasCurrentObservations() {
      Count("metrics") > 0 || Count("logs") > 0 || Count("traces") > 0 || Count("alerts") > 0 || Count("topology") > 0
    }

    predicate HistoricalOnly() {
      !HasCurrentObservations() && (Count("knowledge") > 0 || Count("memory") > 0 || Count("long_term_memory") > 0)
    }

    predicate HasDependencyMetrics(primaryService: string) {
      Count("metrics") > 0 && exists service :: service in services && service != "" && service != TrimSpace(primaryService)
    }

    predicate HasCausalEvidence(primaryService: string) {
      Count("traces") > 0 || Count("logs") > 0 || HasDependencyMetrics(primaryService)
    }
  }

  function Bump(counts: map<string, nat>, key: string): map<string, nat> {
    counts[key := (if key in counts then counts[key] else 0) + 1]
  }

  function Summary(w: Wording, items: seq<EvidenceItem>): EvidenceSummary {
    if items == [] then EvidenceSummary(map[], map[])
    else
      var before := Summary(w, items[..|items| - 1]);
      var item := items[|items| - 1];
      if !Live(w, item) then before
      else EvidenceSummary(
             Bump(before.bySource, SourceOf(item)),
             if ServiceOf(item) != "" then Bump(before.services, ServiceOf(item)) else before.services)
  }

  method SummarizeEvidence(w: Wording, items: seq<EvidenceItem>) returns (summary: EvidenceSummary)
    ensures summary == Summary(w, items)
  {
    hide Live, SourceOf, ServiceOf;
    var bySource: map<string, nat> := map[];
    var services: map<string, nat> := map[];
    for i := 0 to |items|
      invariant EvidenceSummary(bySource, services) == Summary(w, items[..i])
    {
      assert items[..i + 1][..i] == items[..i];
      if !Live(w, items[i]) {
        continue;
      }
      bySource := Bump(bySource, SourceOf(items[i]));
      if ServiceOf(items[i]) != "" {
        services := Bump(services, ServiceOf(items[i]));
      }
    }
    assert items[..|items|] == items;
    summary := EvidenceSummary(bySource, services);
  }

  /** Live evidence of a source. */
  predicate Observed(w: Wording, items: seq<EvidenceItem>, source: string) {
    exists i :: 0 <= i < |items| && Live(w, items[i]) && SourceOf(items[i]) == source
  }

  predicate Served(w: Wording, items: seq<EvidenceItem>, service: string) {
    service != "" && exists i :: 0 <= i < |items| && Live(w, items[i]) && ServiceOf(items[i]) == service
  }

  /** The counts say what live evidence there is. */
  lemma {:induction false} SummaryFacts(w: Wording, items: seq<EvidenceItem>)
    ensures forall source :: Summary(w, items).Count(source) > 0 <==> Observed(w, items, source)
    ensures forall service :: service in Summary(w, items).services <==> Served(w, items, service)
  {
    hide Live, SourceOf, ServiceOf;
    if items != [] {
      var init, last := items[..|items| - 1], items[|items| - 1];
      SummaryFacts(w, init);
      assert items == init + [last];
      forall source ensures Observed(w, items, source) <==> Observed(w, init, source) || (Live(w, last) && SourceOf(last) == source) {
        if i :| 0 <= i < |init| && Live(w, init[i]) && SourceOf(init[i]) == source {
          assert items[i] == init[i];
        }
        assert items[|init|] == last;
      }
      forall service ensures Served(w, items, service) <==>
        Served(w, init, service) || (service != "" && Live(w, last) && ServiceOf(last) == service)
      {
        if i :| 0 <= i < |init| && Live(w, init[i]) && ServiceOf(init[i]) == service {
          assert items[i] == init[i];
        }
        assert items[|init|] == last;
      }
    }
  }

  // ---- Root cause ------------------------------------------------------------------------------

  function ConfidenceForEvidence(ids: seq<string>): string {
    if |ids| >= 2 then "high" else if |ids| == 1 then "medium" else "low"
  }

  function RootStatusForConfidence(confidence: string): string {
    if confidence == "high" then "likely" else if confidence == "medium" then "possible" else "insufficient_evidence"
  }

  predicate Ranked(confidence: string) {
    confidence == "low" || confidence == "medium" || confidence == "high"
  }

  /** A map lookup: unknown confidences rank 0. */
  function Rank(confidence: string): nat {
    if confidence == "high" then 2 else if confidence == "medium" then 1 else 0
  }

  function MinConfidence(current: string, maximum: string): string {
    if Rank(current) > Rank(maximum) || !Ranked(current) then maximum else current
  }

  function AdjustRootCause(
      w: Wording, root: RootCause, summary: EvidenceSummary, current: bool, causal: bool, dependency: bool, historicalOnly: bool)
      : RootCause
  {
    if TrimSpace(root.conclusion) == "" || root.status == "insufficient_evidence" then root
    else if historicalOnly || !current then
      root.(status := "possible", confidence := MinConfidence(root.confidence, "low"),
            conclusion := w.boundary(root.conclusion, "historical_only"))
    else
      var r1 :=
        if causal then root
        else root.(status := "possible", confidence := MinConfidence(root.confidence, "medium"),
                   conclusion := w.boundary(root.conclusion, "missing_logs_traces"));
      var r2 :=
        if dependency then r1
        else r1.(status := "possible", confidence := MinConfidence(r1.confidence, "medium"),
                 conclusion := w.boundary(r1.conclusion, "missing_dependency_metrics"));
      if summary.Count("logs") == 0 && summary.Count("traces") == 0 && r2.confidence == "high" then
        r2.(confidence := "medium", status := if r2.status == "confirmed" then "likely" else r2.status)
      else r2
  }

  /** Adjusting lowers a confidence or leaves it, and keeps what is cited. */
  lemma AdjustmentNeverRaises(
      w: Wording, root: RootCause, summary: EvidenceSummary, current: bool, causal: bool, dependency: bool, historicalOnly: bool)
    ensures var r := AdjustRootCause(w, root, summary, current, causal, dependency, historicalOnly);
            && (Ranked(root.confidence) ==> Ranked(r.confidence) && Rank(r.confidence) <= Rank(root.confidence))
            && r.evidenceIDs == root.evidenceIDs && r.alternatives == root.alternatives
            && (r.status == "confirmed" ==> root.status == "confirmed")
            && (r.status == "insufficient_evidence" <==> root.status == "insufficient_evidence")
  {
    hide TrimSpace;
  }

  predicate IsCandidate(w: Wording, t: Statement) {
    w.causal(t.text) && !w.symptom(t.text)
  }

  predicate IsWeakCandidate(w: Wording, t: Statement) {
    TrimSpace(t.text) != "" && !w.symptom(t.text)
  }

  predicate FirstSuch(ts: seq<Statement>, p: Statement -> bool, k: nat) {
    k < |ts| && p(ts[k]) && forall j :: 0 <= j < k ==> !p(ts[j])
  }

  function First(ts: seq<Statement>, p: Statement -> bool): (r: Option<nat>)
    ensures r.Some? ==> FirstSuch(ts, p, r.value)
    ensures r.None? ==> forall j :: 0 <= j < |ts| ==> !p(ts[j])
  {
    if ts == [] then None
    else
      match First(ts[..|ts| - 1], p)
      case Some(k) => Some(k)
      case None => if p(ts[|ts| - 1]) then Some(|ts| - 1) else None
  }

  /** The first causal statement that is no symptom; failing that, the first statement that is none. */
  function RootCandidate(w: Wording, inferences: seq<Statement>): (r: Option<nat>)
    ensures r.Some? ==> r.value < |inferences|
  {
    var strong := First(inferences, t => IsCandidate(w, t));
    if strong.Some? then strong else First(inferences, t => IsWeakCandidate(w, t))
  }

  method FindRootCandidate(w: Wording, inferences: seq<Statement>) returns (r: Option<nat>)
    ensures r == RootCandidate(w, inferences)
  {
    hide TrimSpace;
    r := None;
    for i := 0 to |inferences|
      invariant forall j :: 0 <= j < i ==> !IsCandidate(w, inferences[j])
    {
      if IsCandidate(w, inferences[i]) {
        FirstIs(inferences, t => IsCandidate(w, t), i);
        return Some(i);
      }
    }
    for i := 0 to |inferences|
      invariant forall j :: 0 <= j < i ==> !IsWeakCandidate(w, inferences[j])
    {
      if IsWeakCandidate(w, inferences[i]) {
        FirstIs(inferences, t => IsWeakCandidate(w, t), i);
        return Some(i);
      }
    }
  }

  lemma FirstIs(ts: seq<Statement>, p: Statement -> bool, k: nat)
    requires FirstSuch(ts, p, k)
    ensures First(ts, p) == Some(k)
  {
    var r := First(ts, p);
    assert r.Some? && !(r.value < k) && !(k < r.value);
  }

  /** What the root cause is before it is held against the evidence. */
  function ProposedRoot(w: Wording, output: AgentOutput): RootCause {
    match RootCandidate(w, output.inferences)
    case None => RootCause(w.insufficient, "low", [], [], "insufficient_evidence")
    case Some(k) =>
      var ids := ValidIDs(output.inferences[k].evidenceIDs, output.evidence);
      var confidence := ConfidenceForEvidence(ids);
      RootCause(output.inferences[k].text, confidence, ids, [], RootStatusForConfidence(confidence))
  }

  function AdjustedRoot(w: Wording, output: AgentOutput, service: string): RootCause {
    var s := Summary(w, output.evidence);
    AdjustRootCause(w, ProposedRoot(w, output), s,
      s.HasCurrentObservations(), s.HasCausalEvidence(service), s.HasDependencyMetrics(service), s.HistoricalOnly())
  }

  function Alternatives(inferences: seq<Statement>, conclusion: string): seq<string> {
    if inferences == [] then []
    else
      var before := Alternatives(inferences[..|inferences| - 1], conclusion);
      var text := TrimSpace(inferences[|inferences| - 1].text);
      if text != "" && text != conclusion then before + [text] else before
  }

  // ---- Limitations ---------------------------------------------------------------------------------

  predicate IsExecutionWarningCode(w: Wording, code: string) {
    var upper := MapText(w.upper, TrimSpace(code));
    HasPrefix(upper, "AGENT_") || Contains(upper, "MAX_ITERATION") || Contains(upper, "REPEATED_TOOL")
  }

  /** A limitation that says something and is no execution warning. */
  predicate IsDataLimitation(w: Wording, l: L.Limitation) {
    !(TrimSpace(l.code) == "" && TrimSpace(l.message) == "") && !IsExecutionWarningCode(w, TrimSpace(l.code))
  }

  function NonEmpty(s: string, otherwise: string): string {
    if s != "" then s else otherwise
  }

  function SplitLimitations(w: Wording, items: seq<L.Limitation>): seq<FinalLimitation>
  {
    if items == [] then []
    else
      var before := SplitLimitations(w, items[..|items| - 1]);
      var l := items[|items| - 1];
      var code := TrimSpace(l.code);
      if IsDataLimitation(w, l) then
        before + [FinalLimitation(NonEmpty(code, "LIMITATION"), NonEmpty(TrimSpace(l.message), code), l.tool)]
      else before
  }

  function ToolDataStatus(run: ToolRun): string {
    var status := MetadataText(run.metadata, "data_status");
    var mode := MetadataText(run.metadata, "mode");
    if TrimSpace(run.dataStatus) != "" then run.dataStatus
    else if run.fallbackUsed then "fallback"
    else if status != "" then status
    else if MetadataFlag(run.metadata, "fallback_used") then "fallback"
    else if Contains(mode, "fallback") || Contains(mode, "mock") then "fallback"
    else if run.errorCode != "" then "unknown"
    else if run.evidenceCount == 0 then "empty"
    else if run.warningCount > 0 then "partial"
    else "available"
  }

  predicate LacksData(run: ToolRun) {
    ToolDataStatus(run) == "empty" || ToolDataStatus(run) == "partial"
  }

  function CanonicalNoDataCode(w: Wording, toolName: string): string {
    var upper := MapText(w.upper, TrimSpace(toolName));
    if Contains(upper, "LOG") then "LOGS_NO_DATA"
    else if Contains(upper, "TRACE") then "TRACES_NO_DATA"
    else if Contains(upper, "METRIC") then "METRICS_NO_DATA"
    else if Contains(upper, "KNOWLEDGE") then "KNOWLEDGE_NO_DATA"
    else if Contains(upper, "ALERT") then "ALERTS_NO_DATA"
    else if Contains(upper, "TOPOLOGY") then "TOPOLOGY_NO_DATA"
    else upper + "_NO_DATA"
  }

  function ToolLimitations(w: Wording, runs: seq<ToolRun>): seq<FinalLimitation>
  {
    if runs == [] then []
    else
      var before := ToolLimitations(w, runs[..|runs| - 1]);
      var run := runs[|runs| - 1];
      if LacksData(run) then
        before + [FinalLimitation(CanonicalNoDataCode(w, run.tool), w.toolLimitation(run.tool, ToolDataStatus(run)), run.tool)]
      else before
  }

  function CanonicalLimitationCode(w: Wording, code: string, source: string): string {
    var upper := MapText(w.upper, TrimSpace(code));
    if Contains(upper, "NO_DATA") then CanonicalNoDataCode(w, source + " " + upper) else upper
  }

  /** A kept limitation with the key it was first seen under. */
  datatype Keyed = Keyed(key: string, item: FinalLimitation)

  function WithCanonicalCode(w: Wording, item: FinalLimitation): FinalLimitation {
    item.(code := CanonicalLimitationCode(w, item.code, item.source))
  }

  function KeyOf(item: FinalLimitation): string {
    if item.code == "" && item.source == "" then item.description else item.code + "|" + item.source
  }

  function KeyPosition(kept: seq<Keyed>, key: string): (r: Option<nat>)
    ensures r.Some? ==> r.value < |kept|
  {
    if kept == [] then None
    else if kept[|kept| - 1].key == key then Some(|kept| - 1)
    else KeyPosition(kept[..|kept| - 1], key)
  }

  function DedupeKeyed(w: Wording, items: seq<FinalLimitation>): (r: seq<Keyed>)
    ensures r == [] <==> items == []
  {
    if items == [] then []
    else
      var kept := DedupeKeyed(w, items[..|items| - 1]);
      var last := items[|items| - 1];
      var item := WithCanonicalCode(w, last);
      var key := KeyOf(item);
      match KeyPosition(kept, key)
      case None => kept + [Keyed(key, item)]
      case Some(i) =>
        if L.Longer(item.description, kept[i].item.description)
        then kept[i := kept[i].(item := kept[i].item.(description := item.description))]
        else kept
  }

  function ItemsOf(kept: seq<Keyed>): (r: seq<FinalLimitation>)
    ensures |r| == |kept|
  {
    seq(|kept|, i requires 0 <= i < |kept| => kept[i].item)
  }

  function FinalLimitations(w: Wording, output: AgentOutput): seq<FinalLimitation> {
    ItemsOf(DedupeKeyed(w, SplitLimitations(w, output.limitations) + ToolLimitations(w, output.toolRuns)))
  }

  /** Nothing is reported as missing: no limitation but execution warnings, and no run without data. */
  predicate NothingMissing(w: Wording, output: AgentOutput) {
    && (forall i :: 0 <= i < |output.limitations| ==> !IsDataLimitation(w, output.limitations[i]))
    && (forall i :: 0 <= i < |output.toolRuns| ==> !LacksData(output.toolRuns[i]))
  }

  lemma {:induction false} NothingSplitOff(w: Wording, items: seq<L.Limitation>)
    ensures SplitLimitations(w, items) == [] <==> forall i :: 0 <= i < |items| ==> !IsDataLimitation(w, items[i])
  {
    hide IsDataLimitation;
    if items != [] {
      var init := items[..|items| - 1];
      NothingSplitOff(w, init);
      assert forall i :: 0 <= i < |init| ==> init[i] == items[i];
    }
  }

  lemma {:induction false} NothingFromTools(w: Wording, runs: seq<ToolRun>)
    ensures ToolLimitations(w, runs) == [] <==> forall i :: 0 <= i < |runs| ==> !LacksData(runs[i])
  {
    hide LacksData, CanonicalNoDataCode, ToolDataStatus;
    if runs != [] {
      var init := runs[..|runs| - 1];
      NothingFromTools(w, init);
      assert forall i :: 0 <= i < |init| ==> init[i] == runs[i];
    }
  }

  lemma NoFinalLimitations(w: Wording, output: AgentOutput)
    ensures FinalLimitations(w, output) == [] <==> NothingMissing(w, output)
  {
    hide IsDataLimitation, LacksData, SplitLimitations, ToolLimitations;
    NothingSplitOff(w, output.limitations);
    NothingFromTools(w, output.toolRuns);
    var split, tools := SplitLimitations(w, output.limitations), ToolLimitations(w, output.toolRuns);
    assert split + tools == [] <==> split == [] && tools == [];
  }

  // ---- Findings and recommendations ------------------------------------------------------------------

  /** evidenceByID: the last item of an ID. */
  function ItemById(items: seq<EvidenceItem>, id: string): Option<EvidenceItem> {
    if items == [] then None
    else if Id(items[|items| - 1]) == id && id != "" then Some(items[|items| - 1])
    else ItemById(items[..|items| - 1], id)
  }

  predicate CitesSource(ids: seq<string>, items: seq<EvidenceItem>, source: string) {
    exists i :: 0 <= i < |ids| && var item := ItemById(items, ids[i]); item.Some? && item.value.sourceType == source
  }

  function KindOf(w: Wording, text: string, ids: seq<string>, items: seq<EvidenceItem>, otherwise: string): string {
    if w.correlates(text) then "correlation"
    else if CitesSource(ids, items, "memory") || CitesSource(ids, items, "long_term_memory") || CitesSource(ids, items, "knowledge") then
      if otherwise == "hypothesis" && w.causal(text) then "hypothesis" else "historical_match"
    else if otherwise == "hypothesis" then "hypothesis"
    else "fact"
  }

  function ConfidenceForFinding(kind: string, ids: seq<string>): string {
    if kind == "historical_match" || kind == "hypothesis" then if |ids| == 0 then "low" else "medium"
    else if kind == "correlation" then if |ids| >= 2 then "medium" else "low"
    else ConfidenceForEvidence(ids)
  }

  function FindingOf(w: Wording, t: Statement, items: seq<EvidenceItem>, otherwise: string): Finding {
    var ids := ValidIDs(t.evidenceIDs, items);
    var kind := KindOf(w, t.text, ids, items, otherwise);
    Finding(t.text, ids, ConfidenceForFinding(kind, ids), kind)
  }

  function FindingsOf(w: Wording, ts: seq<Statement>, items: seq<EvidenceItem>, otherwise: string): (r: seq<Finding>)
    ensures |r| == |ts| && forall i :: 0 <= i < |ts| ==> r[i] == FindingOf(w, ts[i], items, otherwise)
  {
    seq(|ts|, i requires 0 <= i < |ts| => FindingOf(w, ts[i], items, otherwise))
  }

  function FindingKey(w: Wording, f: Finding): string {
    f.kind + "|" + Join(f.evidenceIDs, ",") + "|" + MapText(w.lower, TrimSpace(f.description))
  }

  /** The first of every key, blank ones left out. */
  function DedupeFindings(w: Wording, items: seq<Finding>): seq<Finding> {
    if items == [] then []
    else
      var kept := DedupeFindings(w, items[..|items| - 1]);
      var last := items[|items| - 1];
      if TrimSpace(last.description) == "" || exists i :: 0 <= i < |kept| && FindingKey(w, kept[i]) == FindingKey(w, last)
      then kept else kept + [last]
  }

  function AllFindings(w: Wording, output: AgentOutput): seq<Finding> {
    DedupeFindings(w,
      FindingsOf(w, output.conclusions, output.evidence, "fact") + FindingsOf(w, output.inferences, output.evidence, "hypothesis"))
  }

  function PriorityFor(index: nat): string {
    if index == 0 then "P0" else if index == 1 then "P1" else "P2"
  }

  function Recommendations(ts: seq<Statement>, items: seq<EvidenceItem>): (r: seq<Recommendation>)
    ensures |r| == |ts| && forall i :: 0 <= i < |ts| ==>
              r[i] == Recommendation(PriorityFor(i), ts[i].text, ValidIDs(ts[i].evidenceIDs, items))
  {
    seq(|ts|, i requires 0 <= i < |ts| => Recommendation(PriorityFor(i), ts[i].text, ValidIDs(ts[i].evidenceIDs, items)))
  }

  function References(items: seq<EvidenceItem>): (r: seq<string>)
    ensures forall id :: id in r ==> id in IdSet(items)
  {
    if items == [] then []
    else
      var init, last := items[..|items| - 1], items[|items| - 1];
      assert items == init + [last];
      IdSetAdds(init, [last]);
      IdSetOfOne(last);
      References(init) + (if Id(last) != "" then [Id(last)] else [])
  }

  // ---- The diagnosis ----------------------------------------------------------------------------------

  function Completeness(summary: EvidenceSummary, limitations: nat): string {
    if !summary.HasCurrentObservations() then "empty"
    else if limitations > 0 || summary.Count("logs") == 0 || summary.Count("traces") == 0 then "partial"
    else "complete"
  }

  function DiagnosisStatus(root: RootCause, completeness: string): string {
    if completeness == "empty" then "insufficient_evidence"
    else if completeness == "partial" && root.status == "confirmed" then "supported"
    else if root.status == "confirmed" || root.status == "supported" || root.status == "hypothesis_only"
            || root.status == "insufficient_evidence" then root.status
    else if root.confidence == "high" && completeness == "complete" then "confirmed"
    else if root.confidence == "medium" then "supported"
    else "hypothesis_only"
  }

  function DiagnosisOf(w: Wording, output: AgentOutput, service: string): FinalDiagnosis {
    var summary := Summary(w, output.evidence);
    var limitations := FinalLimitations(w, output);
    var findings := AllFindings(w, output);
    var adjusted := AdjustedRoot(w, output, service);
    var root := adjusted.(alternatives := Alternatives(output.inferences, adjusted.conclusion));
    var completeness := Completeness(summary, |limitations|);
    FinalDiagnosis(
      if root.status != "insufficient_evidence" && TrimSpace(root.conclusion) != "" then root.conclusion
      else if |findings| > 0 && TrimSpace(findings[0].description) != "" then findings[0].description
      else w.summary(|output.evidence|),
      findings, root, Recommendations(output.recommendations, output.evidence),
      limitations, References(output.evidence), completeness, DiagnosisStatus(root, completeness))
  }

  method BuildFinalDiagnosis(w: Wording, output: AgentOutput, service: string) returns (d: FinalDiagnosis)
    ensures d == DiagnosisOf(w, output, service)
  {
    hide FinalLimitations, AdjustRootCause, References, TrimSpace, DiagnosisStatus, Completeness;
    hide Summary, AllFindings, Recommendations, ProposedRoot, Alternatives;
    var limitations := FinalLimitations(w, output);
    var summary := SummarizeEvidence(w, output.evidence);
    var findings := CollectFindings(w, output);
    var recommendations := CollectRecommendations(output);
    var root := ProposeRoot(w, output);
    root := AdjustRootCause(w, root, summary, summary.HasCurrentObservations(), summary.HasCausalEvidence(service),
      summary.HasDependencyMetrics(service), summary.HistoricalOnly());
    var alternatives := CollectAlternatives(output.inferences, root.conclusion);
    root := root.(alternatives := alternatives);
    var text := w.summary(|output.evidence|);
    if root.status != "insufficient_evidence" && TrimSpace(root.conclusion) != "" {
      text := root.conclusion;
    } else if |findings| > 0 && TrimSpace(findings[0].description) != "" {
      text := findings[0].description;
    }
    var completeness := Completeness(summary, |limitations|);
    d := FinalDiagnosis(text, findings, root, recommendations, limitations, References(output.evidence),
      completeness, DiagnosisStatus(root, completeness));
  }

  method ProposeRoot(w: Wording, output: AgentOutput) returns (root: RootCause)
    ensures root == ProposedRoot(w, output)
  {
    hide ValidIDs, RootCandidate;
    root := RootCause(w.insufficient, "low", [], [], "insufficient_evidence");
    var candidate := FindRootCandidate(w, output.inferences);
    if candidate.Some? {
      var inference := output.inferences[candidate.value];
      var ids := ValidEvidenceIDs(inference.evidenceIDs, output.evidence);
      root := root.(conclusion := inference.text, evidenceIDs := ids, confidence := ConfidenceForEvidence(ids));
      root := root.(status := RootStatusForConfidence(root.confidence));
    }
  }

  method CollectAlternatives(inferences: seq<Statement>, conclusion: string) returns (result: seq<string>)
    ensures result == Alternatives(inferences, conclusion)
  {
    hide TrimSpace;
    result := [];
    for i := 0 to |inferences|
      invariant result == Alternatives(inferences[..i], conclusion)
    {
      assert inferences[..i + 1][..i] == inferences[..i];
      var text := TrimSpace(inferences[i].text);
      if text != "" && text != conclusion {
        result := result + [text];
      }
    }
    assert inferences[..|inferences|] == inferences;
  }

  method CollectRecommendations(output: AgentOutput) returns (result: seq<Recommendation>)
    ensures result == Recommendations(output.recommendations, output.evidence)
  {
    hide ValidIDs, PriorityFor;
    result := [];
    for i := 0 to |output.recommendations|
      invariant result == Recommendations(output.recommendations, output.evidence)[..i]
    {
      var ids := ValidEvidenceIDs(output.recommendations[i].evidenceIDs, output.evidence);
      result := result + [Recommendation(PriorityFor(i), output.recommendations[i].text, ids)];
    }
  }

  method CollectFindings(w: Wording, output: AgentOutput) returns (result: seq<Finding>)
    ensures result == AllFindings(w, output)
  {
    hide ValidIDs, KindOf, TrimSpace, FindingKey, ConfidenceForFinding, DedupeFindings;
    var findings: seq<Finding> := [];
    for i := 0 to |output.conclusions|
      invariant findings == FindingsOf(w, output.conclusions, output.evidence, "fact")[..i]
    {
      var ids := ValidEvidenceIDs(output.conclusions[i].evidenceIDs, output.evidence);
      var kind := KindOf(w, output.conclusions[i].text, ids, output.evidence, "fact");
      findings := findings + [Finding(output.conclusions[i].text, ids, ConfidenceForFinding(kind, ids), kind)];
    }
    ghost var facts := FindingsOf(w, output.conclusions, output.evidence, "fact");
    assert findings == facts;
    for i := 0 to |output.inferences|
      invariant findings == facts + FindingsOf(w, output.inferences, output.evidence, "hypothesis")[..i]
    {
      var ids := ValidEvidenceIDs(output.inferences[i].evidenceIDs, output.evidence);
      var kind := KindOf(w, output.inferences[i].text, ids, output.evidence, "hypothesis");
      findings := findings + [Finding(output.inferences[i].text, ids, ConfidenceForFinding(kind, ids), kind)];
    }
    ghost var hypotheses := FindingsOf(w, output.inferences, output.evidence, "hypothesis");
    assert hypotheses[..|output.inferences|] == hypotheses;
    result := DropRepeatedFindings(w, findings);
  }

  method DropRepeatedFindings(w: Wording, items: seq<Finding>) returns (result: seq<Finding>)
    ensures result == DedupeFindings(w, items)
  {
    hide FindingKey, TrimSpace;
    result := [];
    var seen: set<string> := {};
    for i := 0 to |items|
      invariant result == DedupeFindings(w, items[..i])
      invariant forall key :: key in seen <==> exists j :: 0 <= j < |result| && FindingKey(w, result[j]) == key
    {
      assert items[..i + 1][..i] == items[..i];
      var key := FindingKey(w, items[i]);
      if TrimSpace(items[i].description) == "" || key in seen {
        continue;
      }
      ghost var before := result;
      result := result + [items[i]];
      assert result[|before|] == items[i] && forall j :: 0 <= j < |before| ==> result[j] == before[j];
      seen := seen + {key};
    }
    assert items[..|items|] == items;
  }

  // ---- What the diagnosis may say --------------------------------------------------------------------------

  lemma {:induction false} DedupeKeepsFindings(w: Wording, items: seq<Finding>)
    ensures forall f :: f in DedupeFindings(w, items) ==> f in items
  {
    hide FindingKey, TrimSpace;
    if items != [] {
      DedupeKeepsFindings(w, items[..|items| - 1]);
      assert items == items[..|items| - 1] + [items[|items| - 1]];
    }
  }

  /** Every ID in the diagnosis is the ID of an evidence item. */
  ghost predicate CitesOnly(d: FinalDiagnosis, valid: set<string>) {
    && (forall i :: 0 <= i < |d.findings| ==> Within(d.findings[i].evidenceIDs, valid))
    && Within(d.rootCause.evidenceIDs, valid)
    && (forall i :: 0 <= i < |d.recommendations| ==> Within(d.recommendations[i].evidenceIDs, valid))
    && Within(d.evidenceRefs, valid)
  }

  /** Whatever was cited, the diagnosis cites evidence only. */
  lemma DiagnosisIsGrounded(w: Wording, output: AgentOutput, service: string)
    ensures CitesOnly(DiagnosisOf(w, output, service), IdSet(output.evidence))
  {
    hide IdSet, ValidIDs, Summary, FinalLimitations, AdjustRootCause, KindOf, Alternatives, RootCandidate;
    hide DiagnosisStatus, Completeness, TrimSpace, DedupeFindings, ConfidenceForFinding;
    var d := DiagnosisOf(w, output, service);
    var all := FindingsOf(w, output.conclusions, output.evidence, "fact") + FindingsOf(w, output.inferences, output.evidence, "hypothesis");
    DedupeKeepsFindings(w, all);
    forall f | f in all ensures Within(f.evidenceIDs, IdSet(output.evidence)) {
      FindingIsGrounded(w, output, f);
    }
    forall i | 0 <= i < |d.findings| ensures Within(d.findings[i].evidenceIDs, IdSet(output.evidence)) {
      assert d.findings[i] in d.findings;
    }
    forall i | 0 <= i < |d.recommendations| ensures Within(d.recommendations[i].evidenceIDs, IdSet(output.evidence)) {
      ValidIDsAreWithin(output.recommendations[i].evidenceIDs, output.evidence);
    }
    RootIsGrounded(w, output, service);
    assert forall i :: 0 <= i < |d.evidenceRefs| ==> d.evidenceRefs[i] in d.evidenceRefs;
  }

  lemma FindingIsGrounded(w: Wording, output: AgentOutput, f: Finding)
    requires f in FindingsOf(w, output.conclusions, output.evidence, "fact") + FindingsOf(w, output.inferences, output.evidence, "hypothesis")
    ensures Within(f.evidenceIDs, IdSet(output.evidence))
  {
    hide IdSet, ValidIDs, KindOf, ConfidenceForFinding;
    forall t: Statement ensures Within(ValidIDs(t.evidenceIDs, output.evidence), IdSet(output.evidence)) {
      ValidIDsAreWithin(t.evidenceIDs, output.evidence);
    }
  }

  lemma RootIsGrounded(w: Wording, output: AgentOutput, service: string)
    ensures Within(AdjustedRoot(w, output, service).evidenceIDs, IdSet(output.evidence))
  {
    hide IdSet, ValidIDs, Summary, AdjustRootCause, RootCandidate;
    var s := Summary(w, output.evidence);
    AdjustmentNeverRaises(w, ProposedRoot(w, output), s,
      s.HasCurrentObservations(), s.HasCausalEvidence(service), s.HasDependencyMetrics(service), s.HistoricalOnly());
    var k := RootCandidate(w, output.inferences);
    if k.Some? {
      ValidIDsAreWithin(output.inferences[k.value].evidenceIDs, output.evidence);
    }
  }

  // ---- What evidence there is, and what is cited --------------------------------------------------------

  /** Two different IDs of evidence items. */
  predicate CitesTwo(ids: seq<string>, evidence: seq<EvidenceItem>) {
    exists i, j :: 0 <= i < |ids| && 0 <= j < |ids| && TrimSpace(ids[i]) != TrimSpace(ids[j])
                   && TrimSpace(ids[i]) in IdSet(evidence) && TrimSpace(ids[j]) in IdSet(evidence)
  }

  predicate AnotherService(w: Wording, items: seq<EvidenceItem>, service: string) {
    exists i :: 0 <= i < |items| && Live(w, items[i]) && ServiceOf(items[i]) != "" && ServiceOf(items[i]) != TrimSpace(service)
  }

  lemma TwoValidIDs(ids: seq<string>, evidence: seq<EvidenceItem>)
    ensures |ValidIDs(ids, evidence)| >= 2 <==> CitesTwo(ids, evidence)
  {
    hide TrimSpace, IdSet;
    var all, valid := TrimAll(ids), ValidIDs(ids, evidence);
    KeepValidFacts(all, IdSet(evidence));
    if |valid| >= 2 {
      assert valid[0] in valid && valid[1] in valid && valid[0] != valid[1];
      var i :| 0 <= i < |all| && all[i] == valid[0];
      var j :| 0 <= j < |all| && all[j] == valid[1];
      assert TrimSpace(ids[i]) != TrimSpace(ids[j]);
    }
    if CitesTwo(ids, evidence) {
      var i, j :| 0 <= i < |ids| && 0 <= j < |ids| && TrimSpace(ids[i]) != TrimSpace(ids[j])
        && TrimSpace(ids[i]) in IdSet(evidence) && TrimSpace(ids[j]) in IdSet(evidence);
      assert all[i] in valid && all[j] in valid;
      var p :| 0 <= p < |valid| && valid[p] == all[i];
      var q :| 0 <= q < |valid| && valid[q] == all[j];
      assert p != q;
    }
  }

  lemma CandidateIsNotBlank(w: Wording, inferences: seq<Statement>)
    requires w.Sound()
    ensures var k := RootCandidate(w, inferences); k.Some? ==> TrimSpace(inferences[k.value].text) != ""
  {
    hide TrimSpace;
  }

  lemma DependencyMetricsMean(w: Wording, items: seq<EvidenceItem>, service: string)
    ensures Summary(w, items).HasDependencyMetrics(service) <==> Observed(w, items, "metrics") && AnotherService(w, items, service)
  {
    SummaryFacts(w, items);
    hide Summary, Observed, Live, ServiceOf, TrimSpace;
    var s := Summary(w, items);
    if AnotherService(w, items, service) {
      var i :| 0 <= i < |items| && Live(w, items[i]) && ServiceOf(items[i]) != "" && ServiceOf(items[i]) != TrimSpace(service);
      assert Served(w, items, ServiceOf(items[i]));
    }
  }
}
