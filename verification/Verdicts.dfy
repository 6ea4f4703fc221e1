/**
 What the final diagnosis says, told by the evidence and the statements alone: its status, its
 completeness, its root cause, its findings and its limitations.
 */
module Verdicts {

  import opened Text
  import opened Collections
  import opened Metadata
  import opened Findings
  import opened Diagnosis
  import L = Limitations

  // ---- Status and completeness ---------------------------------------------------------------

  /** Live evidence of what is going on now, as opposed to knowledge and memory. */
  predicate AnythingCurrent(w: Wording, items: seq<EvidenceItem>) {
    || Observed(w, items, "metrics") || Observed(w, items, "logs") || Observed(w, items, "traces")
    || Observed(w, items, "alerts") || Observed(w, items, "topology")
  }

  predicate CitesOne(ids: seq<string>, evidence: seq<EvidenceItem>) {
    exists i :: 0 <= i < |ids| && TrimSpace(ids[i]) in IdSet(evidence)
  }

  /** The statement taken for the root cause cites an item of the evidence. */
  predicate RootCited(w: Wording, output: AgentOutput) {
    var k := RootCandidate(w, output.inferences);
    k.Some? && CitesOne(output.inferences[k.value].evidenceIDs, output.evidence)
  }

  predicate RootCitedTwice(w: Wording, output: AgentOutput) {
    var k := RootCandidate(w, output.inferences);
    k.Some? && CitesTwo(output.inferences[k.value].evidenceIDs, output.evidence)
  }

  /** Metrics were seen, and a service other than the one in question. */
  predicate DependencySeen(w: Wording, output: AgentOutput, service: string) {
    Observed(w, output.evidence, "metrics") && AnotherService(w, output.evidence, service)
  }

  predicate LogsOrTraces(w: Wording, output: AgentOutput) {
    Observed(w, output.evidence, "logs") || Observed(w, output.evidence, "traces")
  }

  /** A root cause with two citations, beside metrics of a dependency and logs or traces. */
  predicate Strong(w: Wording, output: AgentOutput, service: string) {
    RootCitedTwice(w, output) && DependencySeen(w, output, service) && LogsOrTraces(w, output)
  }

  predicate Complete(w: Wording, output: AgentOutput) {
    NothingMissing(w, output) && Observed(w, output.evidence, "logs") && Observed(w, output.evidence, "traces")
  }

  /** The first inference that names a cause and is no symptom; if there is none, the first that is no symptom. */
  lemma RootCandidateIs(w: Wording, ts: seq<Statement>, i: nat)
    requires i < |ts|
    ensures RootCandidate(w, ts) == Some(i) <==>
            || (w.causal(ts[i].text) && !w.symptom(ts[i].text)
                && forall j :: 0 <= j < i ==> !(w.causal(ts[j].text) && !w.symptom(ts[j].text)))
            || ((forall j :: 0 <= j < |ts| ==> !(w.causal(ts[j].text) && !w.symptom(ts[j].text)))
                && TrimSpace(ts[i].text) != "" && !w.symptom(ts[i].text)
                && forall j :: 0 <= j < i ==> !(TrimSpace(ts[j].text) != "" && !w.symptom(ts[j].text)))
    ensures RootCandidate(w, ts) == None ==> !w.causal(ts[i].text) || w.symptom(ts[i].text)
    ensures RootCandidate(w, ts) == None ==> TrimSpace(ts[i].text) == "" || w.symptom(ts[i].text)
  {
    hide TrimSpace;
    var p := (t: Statement) => IsCandidate(w, t);
    var q := (t: Statement) => IsWeakCandidate(w, t);
    if FirstSuch(ts, p, i) {
      FirstIs(ts, p, i);
    }
    if FirstSuch(ts, q, i) {
      FirstIs(ts, q, i);
    }
    assert First(ts, p) == Some(i) ==> FirstSuch(ts, p, i);
    assert First(ts, q) == Some(i) ==> FirstSuch(ts, q, i);
  }

  lemma OneValidID(ids: seq<string>, evidence: seq<EvidenceItem>)
    ensures |ValidIDs(ids, evidence)| >= 1 <==> CitesOne(ids, evidence)
  {
    hide TrimSpace, IdSet;
    var all, valid := TrimAll(ids), ValidIDs(ids, evidence);
    KeepValidFacts(all, IdSet(evidence));
    if |valid| >= 1 {
      assert valid[0] in all;
      var i :| 0 <= i < |all| && all[i] == valid[0];
      assert TrimSpace(ids[i]) in IdSet(evidence);
    }
    if CitesOne(ids, evidence) {
      var i :| 0 <= i < |ids| && TrimSpace(ids[i]) in IdSet(evidence);
      assert all[i] in valid;
    }
  }

  /** The root cause before it is held against the evidence. */
  lemma ProposedMeans(w: Wording, output: AgentOutput)
    requires w.Sound()
    ensures var r := ProposedRoot(w, output);
            && r.confidence == (if RootCitedTwice(w, output) then "high" else if RootCited(w, output) then "medium" else "low")
            && r.status == (if RootCitedTwice(w, output) then "likely"
                            else if RootCited(w, output) then "possible" else "insufficient_evidence")
            && (RootCited(w, output) ==> TrimSpace(r.conclusion) != "")
            && (RootCitedTwice(w, output) ==> RootCited(w, output))
  {
    CandidateIsNotBlank(w, output.inferences);
    var k := RootCandidate(w, output.inferences);
    if k.Some? {
      OneValidID(output.inferences[k.value].evidenceIDs, output.evidence);
      TwoValidIDs(output.inferences[k.value].evidenceIDs, output.evidence);
    }
    hide CitesOne, CitesTwo, ValidIDs, RootCandidate, TrimSpace;
  }

  lemma SummaryMeans(w: Wording, output: AgentOutput, service: string)
    ensures var s := Summary(w, output.evidence);
            && (s.HasCurrentObservations() <==> AnythingCurrent(w, output.evidence))
            && (s.HasDependencyMetrics(service) <==> DependencySeen(w, output, service))
            && (s.HasCausalEvidence(service) <==> LogsOrTraces(w, output) || DependencySeen(w, output, service))
            && (s.Count("logs") > 0 <==> Observed(w, output.evidence, "logs"))
            && (s.Count("traces") > 0 <==> Observed(w, output.evidence, "traces"))
            && (s.HistoricalOnly() ==> !s.HasCurrentObservations())
  {
    DependencyMetricsMean(w, output.evidence, service);
    SummaryFacts(w, output.evidence);
    hide Summary, Observed, AnotherService;
  }

  /** The root cause of the diagnosis, field by field. */
  lemma RootCauseMeans(w: Wording, output: AgentOutput, service: string)
    requires w.Sound()
    ensures var r := DiagnosisOf(w, output, service).rootCause;
            var cited, current := RootCited(w, output), AnythingCurrent(w, output.evidence);
            && r.confidence == (if !cited || !current then "low" else if Strong(w, output, service) then "high" else "medium")
            && r.status == (if !cited then "insufficient_evidence"
                            else if current && RootCitedTwice(w, output) && DependencySeen(w, output, service) then "likely"
                            else "possible")
            && r.conclusion == RootText(w, output, service)
            && r.evidenceIDs == (match RootCandidate(w, output.inferences)
                                 case None => []
                                 case Some(k) => ValidIDs(output.inferences[k].evidenceIDs, output.evidence))
  {
    ProposedMeans(w, output);
    SummaryMeans(w, output, service);
    ProposedText(w, output);
    hide ValidIDs, RootCandidate, Summary, ProposedRoot, RootCited, RootCitedTwice, AnythingCurrent, DependencySeen, LogsOrTraces, TrimSpace;
    hide FinalLimitations, AllFindings, Alternatives, References, Recommendations, Completeness, DiagnosisStatus;
    DiagnosisKeepsRoot(w, output, service);
    hide DiagnosisOf;
    RootIs(w, output, service);
  }

  lemma DiagnosisKeepsRoot(w: Wording, output: AgentOutput, service: string)
    ensures var r, a := DiagnosisOf(w, output, service).rootCause, AdjustedRoot(w, output, service);
            r == a.(alternatives := Alternatives(output.inferences, a.conclusion))
  {
    hide AdjustedRoot, Alternatives, FinalLimitations, AllFindings, References, Recommendations, Completeness, DiagnosisStatus;
  }

  /** The conclusion: qualified when the evidence is past, or lacks causes, or lacks dependencies. */
  function RootText(w: Wording, output: AgentOutput, service: string): string {
    var k := RootCandidate(w, output.inferences);
    if k.None? then w.insufficient
    else
      var text := output.inferences[k.value].text;
      if !RootCited(w, output) then text
      else if !AnythingCurrent(w, output.evidence) then w.boundary(text, "historical_only")
      else if DependencySeen(w, output, service) then text
      else if LogsOrTraces(w, output) then w.boundary(text, "missing_dependency_metrics")
      else w.boundary(w.boundary(text, "missing_logs_traces"), "missing_dependency_metrics")
  }

  lemma RootIs(w: Wording, output: AgentOutput, service: string)
    requires w.Sound()
    ensures var r := AdjustedRoot(w, output, service);
            var cited, current := RootCited(w, output), AnythingCurrent(w, output.evidence);
            && r.confidence == (if !cited || !current then "low" else if Strong(w, output, service) then "high" else "medium")
            && r.status == (if !cited then "insufficient_evidence"
                            else if current && RootCitedTwice(w, output) && DependencySeen(w, output, service) then "likely"
                            else "possible")
            && r.conclusion == RootText(w, output, service)
            && r.evidenceIDs == ProposedRoot(w, output).evidenceIDs
  {
    ProposedMeans(w, output);
    SummaryMeans(w, output, service);
    ProposedText(w, output);
    var s := Summary(w, output.evidence);
    var some := s.Count("logs") > 0 || s.Count("traces") > 0;
    assert some <==> LogsOrTraces(w, output);
    hide Summary, ProposedRoot, RootCited, RootCitedTwice, AnythingCurrent, DependencySeen, LogsOrTraces, TrimSpace;
    hide RootCandidate, AdjustRootCause, EvidenceSummary.Count;
    hide EvidenceSummary.HasCurrentObservations, EvidenceSummary.HasDependencyMetrics;
    hide EvidenceSummary.HasCausalEvidence, EvidenceSummary.HistoricalOnly;
    AdjustedIs(w, ProposedRoot(w, output), s, s.HasCurrentObservations(), s.HasDependencyMetrics(service), s.HistoricalOnly(),
      RootCited(w, output), RootCitedTwice(w, output), some);
  }

  lemma AdjustedIs(w: Wording, root: RootCause, s: EvidenceSummary, current: bool, dependency: bool, historicalOnly: bool,
                   cited: bool, twice: bool, some: bool)
    requires root.confidence == (if twice then "high" else if cited then "medium" else "low")
    requires root.status == (if twice then "likely" else if cited then "possible" else "insufficient_evidence")
    requires (twice ==> cited) && (cited ==> TrimSpace(root.conclusion) != "")
    requires historicalOnly ==> !current
    requires some <==> s.Count("logs") > 0 || s.Count("traces") > 0
    ensures var r := AdjustRootCause(w, root, s, current, some || dependency, dependency, historicalOnly);
            && r.confidence == (if !cited || !current then "low" else if twice && dependency && some then "high" else "medium")
            && r.status == (if !cited then "insufficient_evidence"
                            else if current && twice && dependency then "likely" else "possible")
            && r.conclusion == (if !cited then root.conclusion
                                else if !current then w.boundary(root.conclusion, "historical_only")
                                else if dependency then root.conclusion
                                else if some then w.boundary(root.conclusion, "missing_dependency_metrics")
                                else w.boundary(w.boundary(root.conclusion, "missing_logs_traces"), "missing_dependency_metrics"))
            && r.evidenceIDs == root.evidenceIDs
  {
    hide TrimSpace, EvidenceSummary.Count;
  }

  lemma ProposedText(w: Wording, output: AgentOutput)
    ensures var k := RootCandidate(w, output.inferences);
            && ProposedRoot(w, output).conclusion == (if k.Some? then output.inferences[k.value].text else w.insufficient)
            && ProposedRoot(w, output).evidenceIDs ==
               if k.Some? then ValidIDs(output.inferences[k.value].evidenceIDs, output.evidence) else []
  {
    hide RootCandidate, ValidIDs;
  }

  lemma CompletenessMeans(w: Wording, output: AgentOutput, service: string)
    ensures var c := DiagnosisOf(w, output, service).completeness;
            && (c == "empty" <==> !AnythingCurrent(w, output.evidence))
            && (c == "complete" <==> Complete(w, output))
            && (c == "partial" <==> AnythingCurrent(w, output.evidence) && !Complete(w, output))
  {
    SummaryMeans(w, output, service);
    NoFinalLimitations(w, output);
    hide AdjustedRoot, Summary, Observed, DependencySeen, NothingMissing;
    hide FinalLimitations, AllFindings, Alternatives, References, Recommendations, DiagnosisStatus;
  }

  /**
   The status. Evidence that is strong but not complete is reported as "hypothesis_only", while
   weaker evidence, complete or not, is "supported".
   */
  lemma StatusMeans(w: Wording, output: AgentOutput, service: string)
    requires w.Sound()
    ensures var status := DiagnosisOf(w, output, service).diagnosisStatus;
            var current := AnythingCurrent(w, output.evidence);
            && (status == "insufficient_evidence" <==> !current || !RootCited(w, output))
            && (status == "supported" <==> current && RootCited(w, output) && !Strong(w, output, service))
            && (status == "hypothesis_only" <==> current && Strong(w, output, service) && !Complete(w, output))
            && (status == "confirmed" <==> current && Strong(w, output, service) && Complete(w, output))
  {
    CompletenessMeans(w, output, service);
    RootCauseMeans(w, output, service);
    ProposedMeans(w, output);
    StatusFromRoot(w, output, service);
    var d := DiagnosisOf(w, output, service);
    hide DiagnosisOf, RootCited, RootCitedTwice, AnythingCurrent, DependencySeen, LogsOrTraces, Complete, RootText, DiagnosisStatus;
    StatusIs(d.rootCause, d.completeness, RootCited(w, output), Strong(w, output, service));
  }

  lemma StatusIs(root: RootCause, completeness: string, cited: bool, strong: bool)
    requires completeness == "empty" || completeness == "partial" || completeness == "complete"
    requires strong ==> cited
    requires root.confidence == (if !cited || completeness == "empty" then "low" else if strong then "high" else "medium")
    requires !cited ==> root.status == "insufficient_evidence"
    requires cited ==> root.status == "likely" || root.status == "possible"
    ensures DiagnosisStatus(root, completeness) ==
            if completeness == "empty" || !cited then "insufficient_evidence"
            else if !strong then "supported"
            else if completeness == "complete" then "confirmed"
            else "hypothesis_only"
  {
  }

  lemma StatusFromRoot(w: Wording, output: AgentOutput, service: string)
    ensures var d := DiagnosisOf(w, output, service); d.diagnosisStatus == DiagnosisStatus(d.rootCause, d.completeness)
  {
    hide AdjustedRoot, Summary, FinalLimitations, AllFindings, Alternatives, References, Recommendations, DiagnosisStatus, Completeness;
  }

  /** What a confirmed diagnosis takes. */
  predicate Earned(w: Wording, output: AgentOutput, service: string) {
    && NothingMissing(w, output)
    && Observed(w, output.evidence, "logs") && Observed(w, output.evidence, "traces") && Observed(w, output.evidence, "metrics")
    && AnotherService(w, output.evidence, service)
    && var k := RootCandidate(w, output.inferences);
       k.Some? && CitesTwo(output.inferences[k.value].evidenceIDs, output.evidence)
  }

  /** "confirmed" is reported exactly when it is earned. */
  lemma ConfirmedIffEarned(w: Wording, output: AgentOutput, service: string)
    requires w.Sound()
    ensures DiagnosisOf(w, output, service).diagnosisStatus == "confirmed" <==> Earned(w, output, service)
  {
    hide *;
    StatusMeans(w, output, service);
    EarnedIff(w, output, service);
  }

  lemma EarnedIff(w: Wording, output: AgentOutput, service: string)
    ensures Earned(w, output, service) <==>
            AnythingCurrent(w, output.evidence) && Strong(w, output, service) && Complete(w, output)
  {
    hide Observed, AnotherService, NothingMissing, CitesTwo, RootCandidate;
  }

  // ---- What counts as evidence and as a gap ------------------------------------------------------

  /** Evidence is left out of account exactly when its metadata mark it as a stand-in. */
  lemma LiveIff(w: Wording, item: EvidenceItem)
    ensures !Live(w, item) <==>
            var status, mode := MetadataText(item.metadata, "data_status"), MapText(w.lower, MetadataText(item.metadata, "mode"));
            || status == "fallback"
            || (status == "" && (MetadataFlag(item.metadata, "fallback_used")
                                 || Contains(mode, "fallback") || Contains(mode, "mock")))
  {
    hide Contains, MapText;
  }

  /** Where an item is from, and which service it tells of: its metadata say, or else the resource. */
  lemma SourceAndServiceAre(item: EvidenceItem)
    ensures TrimSpace(item.sourceType) != "" ==> SourceOf(item) == TrimSpace(item.sourceType)
    ensures TrimSpace(item.sourceType) == "" ==> SourceOf(item) == "unknown"
    ensures forall service :: "service" in item.metadata && item.metadata["service"] == TextValue(service) ==>
              ServiceOf(item) == TrimSpace(service)
    ensures !("service" in item.metadata && item.metadata["service"].TextValue?) ==> ServiceOf(item) == TrimSpace(item.resourceID)
  {
    hide TrimSpace;
  }

  /** A run lacks data if it says so, or says nothing at all, succeeded, and found nothing or warned. */
  lemma LacksDataIff(run: ToolRun)
    ensures LacksData(run) <==>
            var status, mode := MetadataText(run.metadata, "data_status"), MetadataText(run.metadata, "mode");
            || run.dataStatus == "empty" || run.dataStatus == "partial"
            || (TrimSpace(run.dataStatus) == "" && !run.fallbackUsed
                && (|| status == "empty" || status == "partial"
                    || (status == "" && !MetadataFlag(run.metadata, "fallback_used")
                        && !Contains(mode, "fallback") && !Contains(mode, "mock")
                        && run.errorCode == "" && (run.evidenceCount == 0 || run.warningCount > 0))))
  {
    TrimSpaceTrims("empty");
    TrimSpaceTrims("partial");
    hide Contains, TrimSpace;
  }

  /** What is reported about the run of the agent itself is no limitation of the data. */
  lemma DataLimitationIff(w: Wording, l: L.Limitation)
    ensures IsDataLimitation(w, l) <==>
            var code := MapText(w.upper, TrimSpace(l.code));
            && (TrimSpace(l.code) != "" || TrimSpace(l.message) != "")
            && !("AGENT_" <= code) && !Contains(code, "MAX_ITERATION") && !Contains(code, "REPEATED_TOOL")
  {
    TrimSpaceTrims(l.code);
    hide Contains, TrimSpace, MapText;
  }

  /**
   The code for a run without data: that of the first of five kinds its tool's name mentions, or
   one made of that name. TOPOLOGY mentions LOG.
   */
  lemma NoDataCodeIs(w: Wording, tool: string)
    ensures var name, code := MapText(w.upper, TrimSpace(tool)), CanonicalNoDataCode(w, tool);
            var logs, traces, metrics := Contains(name, "LOG"), Contains(name, "TRACE"), Contains(name, "METRIC");
            var knowledge, alerts := Contains(name, "KNOWLEDGE"), Contains(name, "ALERT");
            && (logs ==> code == "LOGS_NO_DATA")
            && (traces && !logs ==> code == "TRACES_NO_DATA")
            && (metrics && !logs && !traces ==> code == "METRICS_NO_DATA")
            && (knowledge && !logs && !traces && !metrics ==> code == "KNOWLEDGE_NO_DATA")
            && (alerts && !logs && !traces && !metrics && !knowledge ==> code == "ALERTS_NO_DATA")
            && (!logs && !traces && !metrics && !knowledge && !alerts ==> code == name + "_NO_DATA")
  {
    L.TopologyIsALog(MapText(w.upper, TrimSpace(tool)));
    hide Contains, TrimSpace, MapText;
  }

  lemma {:induction false} KeyIsFound(kept: seq<Keyed>, key: string)
    ensures match KeyPosition(kept, key)
            case Some(i) => kept[i].key == key
            case None => forall i :: 0 <= i < |kept| ==> kept[i].key != key
  {
    if kept != [] {
      KeyIsFound(kept[..|kept| - 1], key);
    }
  }

  /** The limitation kept under the key of this one, with a text at least as long. */
  ghost predicate Covered(w: Wording, kept: seq<Keyed>, item: FinalLimitation) {
    exists k :: 0 <= k < |kept| && Covers(w, kept[k], item)
  }

  predicate Covers(w: Wording, k: Keyed, item: FinalLimitation) {
    k.key == KeyOf(WithCanonicalCode(w, item)) && L.ByteLength(item.description) <= L.ByteLength(k.item.description)
  }

  /** Everything in a kept limitation comes from limitations of its key. */
  predicate TakenFrom(w: Wording, k: Keyed, first: FinalLimitation, longest: FinalLimitation) {
    && k.key == KeyOf(WithCanonicalCode(w, first)) == KeyOf(WithCanonicalCode(w, longest))
    && k.item == WithCanonicalCode(w, first).(description := longest.description)
  }

  ghost predicate Taken(w: Wording, k: Keyed, items: seq<FinalLimitation>) {
    exists i, j :: 0 <= i < |items| && 0 <= j < |items| && TakenFrom(w, k, items[i], items[j])
  }

  ghost predicate AllCovered(w: Wording, kept: seq<Keyed>, items: seq<FinalLimitation>) {
    forall i :: 0 <= i < |items| ==> Covered(w, kept, items[i])
  }

  ghost predicate AllTaken(w: Wording, kept: seq<Keyed>, items: seq<FinalLimitation>) {
    forall k :: 0 <= k < |kept| ==> Taken(w, kept[k], items)
  }

  /** One limitation per key, none dropped and none made up. */
  lemma {:induction false} DedupedLimitations(w: Wording, items: seq<FinalLimitation>)
    ensures var kept := DedupeKeyed(w, items); AllCovered(w, kept, items) && AllTaken(w, kept, items) && DistinctKeys(kept)
  {
    hide *;
    if items == [] {
      NothingDeduped(w);
    } else {
      var init, last := items[..|items| - 1], items[|items| - 1];
      DedupedLimitations(w, init);
      assert items == init + [last];
      DedupedOneMore(w, init, last);
    }
  }

  lemma NothingDeduped(w: Wording)
    ensures DedupeKeyed(w, []) == [] && AllCovered(w, [], []) && AllTaken(w, [], []) && DistinctKeys([])
  {
  }

  predicate DistinctKeys(kept: seq<Keyed>) {
    forall k, l :: 0 <= k < l < |kept| ==> kept[k].key != kept[l].key
  }

  lemma DedupedOneMore(w: Wording, init: seq<FinalLimitation>, last: FinalLimitation)
    requires var before := DedupeKeyed(w, init); AllCovered(w, before, init) && AllTaken(w, before, init) && DistinctKeys(before)
    ensures var kept, items := DedupeKeyed(w, init + [last]), init + [last];
            AllCovered(w, kept, items) && AllTaken(w, kept, items) && DistinctKeys(kept)
  {
    var before, kept := DedupeKeyed(w, init), DedupeKeyed(w, init + [last]);
    var item := WithCanonicalCode(w, last);
    KeyIsFound(before, KeyOf(item));
    DedupeStep(w, init, last);
    hide DedupeKeyed, AllCovered, AllTaken, KeyOf, WithCanonicalCode, L.Longer, KeyPosition;
    match KeyPosition(before, KeyOf(item))
    case None =>
      var added := Keyed(KeyOf(item), item);
      NewIsCovered(w, before, added, init, last);
      NewIsTaken(w, before, added, init, last);
    case Some(p) =>
      KnownIsCovered(w, before, kept, init, last, p);
      KnownIsTaken(w, before, kept, init, last, p);
  }

  lemma DedupeStep(w: Wording, init: seq<FinalLimitation>, last: FinalLimitation)
    ensures var before, kept := DedupeKeyed(w, init), DedupeKeyed(w, init + [last]);
            var item := WithCanonicalCode(w, last);
            match KeyPosition(before, KeyOf(item))
            case None => kept == before + [Keyed(KeyOf(item), item)]
            case Some(p) => kept == if L.Longer(last.description, before[p].item.description)
                                    then before[p := Keyed(before[p].key, before[p].item.(description := last.description))]
                                    else before
  {
    hide L.Longer, KeyOf;
    assert (init + [last])[..|init|] == init;
  }

  lemma NewIsCovered(w: Wording, before: seq<Keyed>, added: Keyed, init: seq<FinalLimitation>, last: FinalLimitation)
    requires AllCovered(w, before, init)
    requires added == Keyed(KeyOf(WithCanonicalCode(w, last)), WithCanonicalCode(w, last))
    ensures AllCovered(w, before + [added], init + [last])
  {
    var kept, items := before + [added], init + [last];
    assert Covers(w, added, last);
    hide KeyOf, WithCanonicalCode, Covers;
    assert kept[|before|] == added;
    assert Covered(w, kept, last);
    forall i | 0 <= i < |items| ensures Covered(w, kept, items[i]) {
      if i < |init| {
        StillCovered(w, before, kept, init[i]);
      }
    }
  }

  lemma NewIsTaken(w: Wording, before: seq<Keyed>, added: Keyed, init: seq<FinalLimitation>, last: FinalLimitation)
    requires AllTaken(w, before, init)
    requires added == Keyed(KeyOf(WithCanonicalCode(w, last)), WithCanonicalCode(w, last))
    ensures AllTaken(w, before + [added], init + [last])
  {
    var kept, items := before + [added], init + [last];
    assert TakenFrom(w, added, last, last);
    hide KeyOf, WithCanonicalCode, TakenFrom;
    assert items[|init|] == last;
    assert Taken(w, added, items);
    forall k | 0 <= k < |kept| ensures Taken(w, kept[k], items) {
      if k < |before| {
        StillTaken(w, before[k], init, last);
      }
    }
  }

  lemma StillCovered(w: Wording, before: seq<Keyed>, kept: seq<Keyed>, item: FinalLimitation)
    requires Covered(w, before, item) && before <= kept
    ensures Covered(w, kept, item)
  {
    var k :| 0 <= k < |before| && Covers(w, before[k], item);
    assert kept[k] == before[k];
  }

  lemma StillTaken(w: Wording, k: Keyed, init: seq<FinalLimitation>, last: FinalLimitation)
    requires Taken(w, k, init)
    ensures Taken(w, k, init + [last])
  {
    var i, j :| 0 <= i < |init| && 0 <= j < |init| && TakenFrom(w, k, init[i], init[j]);
    var items := init + [last];
    assert items[i] == init[i] && items[j] == init[j];
  }

  /** Only the limitation at p may have changed, and only to the text of the last one, if that is longer. */
  predicate Lengthened(before: seq<Keyed>, kept: seq<Keyed>, last: FinalLimitation, p: nat) {
    && p < |before|
    && kept == if L.Longer(last.description, before[p].item.description)
               then before[p := Keyed(before[p].key, before[p].item.(description := last.description))] else before
  }

  lemma KnownIsCovered(w: Wording, before: seq<Keyed>, kept: seq<Keyed>, init: seq<FinalLimitation>, last: FinalLimitation, p: nat)
    requires AllCovered(w, before, init) && Lengthened(before, kept, last, p)
    requires before[p].key == KeyOf(WithCanonicalCode(w, last))
    ensures AllCovered(w, kept, init + [last])
  {
    hide KeyOf, WithCanonicalCode;
    var items := init + [last];
    assert Covers(w, kept[p], last);
    assert Covered(w, kept, last);
    forall i | 0 <= i < |items| ensures Covered(w, kept, items[i]) {
      if i < |init| {
        CoveredByLonger(w, before, kept, init[i], p);
      }
    }
  }

  lemma KnownIsTaken(w: Wording, before: seq<Keyed>, kept: seq<Keyed>, init: seq<FinalLimitation>, last: FinalLimitation, p: nat)
    requires AllTaken(w, before, init) && Lengthened(before, kept, last, p)
    requires before[p].key == KeyOf(WithCanonicalCode(w, last))
    ensures AllTaken(w, kept, init + [last])
  {
    hide KeyOf, WithCanonicalCode, L.Longer, Taken;
    TakenOver(w, before[p], kept[p], init, last);
    forall k | 0 <= k < |kept| ensures Taken(w, kept[k], init + [last]) {
      if k != p {
        StillTaken(w, before[k], init, last);
      }
    }
  }

  lemma CoveredByLonger(w: Wording, before: seq<Keyed>, kept: seq<Keyed>, item: FinalLimitation, p: nat)
    requires p < |before| == |kept| && Covered(w, before, item)
    requires kept[p].key == before[p].key && !L.Longer(before[p].item.description, kept[p].item.description)
    requires forall k :: 0 <= k < |kept| && k != p ==> kept[k] == before[k]
    ensures Covered(w, kept, item)
  {
    hide KeyOf, WithCanonicalCode, L.ByteLength;
    var k :| 0 <= k < |before| && Covers(w, before[k], item);
    assert Covers(w, kept[k], item);
  }

  lemma TakenOver(w: Wording, was: Keyed, now: Keyed, init: seq<FinalLimitation>, last: FinalLimitation)
    requires Taken(w, was, init) && was.key == KeyOf(WithCanonicalCode(w, last))
    requires now == was || now == Keyed(was.key, was.item.(description := last.description))
    ensures Taken(w, now, init + [last])
  {
    hide KeyOf, WithCanonicalCode;
    StillTaken(w, was, init, last);
    if now != was {
      var i, j :| 0 <= i < |init| && 0 <= j < |init| && TakenFrom(w, was, init[i], init[j]);
      var items := init + [last];
      assert items[i] == init[i] && items[|init|] == last;
      assert TakenFrom(w, now, items[i], items[|init|]);
    }
  }

  /** A limitation of the diagnosis has this code and source. */
  ghost predicate Reported(w: Wording, d: FinalDiagnosis, code: string, source: string) {
    exists k :: 0 <= k < |d.limitations| && ReportedAt(d, k, CanonicalLimitationCode(w, code, source) + "|" + source)
  }

  predicate ReportedAt(d: FinalDiagnosis, k: nat, key: string)
    requires k < |d.limitations|
  {
    d.limitations[k].code + "|" + d.limitations[k].source == key
  }

  /** Every data limitation that came in, and every run without data, is a limitation of the diagnosis. */
  lemma GapsAreReported(w: Wording, output: AgentOutput, service: string)
    ensures forall i :: 0 <= i < |output.limitations| && IsDataLimitation(w, output.limitations[i]) ==>
              Reported(w, DiagnosisOf(w, output, service), NonEmpty(TrimSpace(output.limitations[i].code), "LIMITATION"), output.limitations[i].tool)
    ensures forall i :: 0 <= i < |output.toolRuns| && LacksData(output.toolRuns[i]) ==>
              Reported(w, DiagnosisOf(w, output, service), CanonicalNoDataCode(w, output.toolRuns[i].tool), output.toolRuns[i].tool)
  {
    hide *;
    forall i | 0 <= i < |output.limitations| && IsDataLimitation(w, output.limitations[i])
      ensures Reported(w, DiagnosisOf(w, output, service), NonEmpty(TrimSpace(output.limitations[i].code), "LIMITATION"), output.limitations[i].tool)
    {
      var item := SplitOff(w, output.limitations, i);
      GapIsReported(w, output, service, item);
    }
    forall i | 0 <= i < |output.toolRuns| && LacksData(output.toolRuns[i])
      ensures Reported(w, DiagnosisOf(w, output, service), CanonicalNoDataCode(w, output.toolRuns[i].tool), output.toolRuns[i].tool)
    {
      var item := FromTool(w, output.toolRuns, i);
      GapIsReported(w, output, service, item);
    }
  }

  lemma {:induction false} SplitOff(w: Wording, items: seq<L.Limitation>, i: nat) returns (item: FinalLimitation)
    requires i < |items| && IsDataLimitation(w, items[i])
    ensures item in SplitLimitations(w, items)
    ensures item.code == NonEmpty(TrimSpace(items[i].code), "LIMITATION") && item.source == items[i].tool
  {
    hide IsDataLimitation, TrimSpace;
    var n := |items| - 1;
    if i == n {
      var code := TrimSpace(items[i].code);
      item := FinalLimitation(NonEmpty(code, "LIMITATION"), NonEmpty(TrimSpace(items[i].message), code), items[i].tool);
      assert SplitLimitations(w, items) == SplitLimitations(w, items[..n]) + [item];
    } else {
      item := SplitOff(w, items[..n], i);
    }
  }

  ghost predicate Coded(w: Wording, items: seq<FinalLimitation>) {
    forall x :: x in items ==> CanonicalLimitationCode(w, x.code, x.source) != ""
  }

  lemma {:induction false} SplitLimitationsAreCoded(w: Wording, items: seq<L.Limitation>)
    ensures Coded(w, SplitLimitations(w, items))
  {
    hide IsDataLimitation, TrimSpace, CanonicalLimitationCode;
    if items != [] {
      var last := items[|items| - 1];
      SplitLimitationsAreCoded(w, items[..|items| - 1]);
      TrimSpaceTrims(last.code);
      TrimSpaceTrims("LIMITATION");
      CodeIsNotBlank(w, NonEmpty(TrimSpace(last.code), "LIMITATION"), last.tool);
    }
  }

  lemma {:induction false} ToolLimitationsAreCoded(w: Wording, runs: seq<ToolRun>)
    ensures Coded(w, ToolLimitations(w, runs))
  {
    hide LacksData, ToolDataStatus, CanonicalNoDataCode, CanonicalLimitationCode;
    if runs != [] {
      ToolLimitationsAreCoded(w, runs[..|runs| - 1]);
      ToolCodeIsNotBlank(w, runs[|runs| - 1].tool);
    }
  }

  lemma CodeIsNotBlank(w: Wording, code: string, source: string)
    requires TrimSpace(code) != ""
    ensures CanonicalLimitationCode(w, code, source) != ""
    ensures CanonicalNoDataCode(w, source) != ""
  {
    hide TrimSpace, Contains;
  }

  lemma {:induction false} FromTool(w: Wording, runs: seq<ToolRun>, i: nat) returns (item: FinalLimitation)
    requires i < |runs| && LacksData(runs[i])
    ensures item in ToolLimitations(w, runs)
    ensures item.code == CanonicalNoDataCode(w, runs[i].tool) && item.source == runs[i].tool
  {
    hide LacksData, ToolDataStatus, CanonicalNoDataCode;
    var n := |runs| - 1;
    if i == n {
      var run := runs[i];
      item := FinalLimitation(CanonicalNoDataCode(w, run.tool), w.toolLimitation(run.tool, ToolDataStatus(run)), run.tool);
      assert ToolLimitations(w, runs) == ToolLimitations(w, runs[..n]) + [item];
    } else {
      item := FromTool(w, runs[..n], i);
    }
  }

  lemma ToolCodeIsNotBlank(w: Wording, tool: string)
    ensures CanonicalLimitationCode(w, CanonicalNoDataCode(w, tool), tool) != ""
  {
    var code := CanonicalNoDataCode(w, tool);
    NoDataCodeEnds(w, tool);
    hide CanonicalNoDataCode;
    TrimSpaceTrims(code);
    hide TrimSpace;
    assert TrimSpace(code) != "" by {
      LastIsKept(code);
    }
    CodeIsNotBlank(w, code, tool);
  }

  lemma NoDataCodeEnds(w: Wording, tool: string)
    ensures var code := CanonicalNoDataCode(w, tool); code != "" && code[|code| - 1] == 'A'
  {
    hide Contains, TrimSpace;
  }

  lemma LastIsKept(s: string)
    requires s != "" && !IsSpace(s[|s| - 1])
    ensures TrimSpace(s) != ""
  {
    TrimLeftKeeps(s);
    var l := TrimLeft(s);
    assert l != "" && l[|l| - 1] == s[|s| - 1];
    assert TrimRight(l) == l;
  }

  lemma GapIsReported(w: Wording, output: AgentOutput, service: string, item: FinalLimitation)
    requires item in SplitLimitations(w, output.limitations) + ToolLimitations(w, output.toolRuns)
    ensures Reported(w, DiagnosisOf(w, output, service), item.code, item.source)
  {
    var split, tools := SplitLimitations(w, output.limitations), ToolLimitations(w, output.toolRuns);
    var kept := DedupeKeyed(w, split + tools);
    var d := DiagnosisOf(w, output, service);
    LimitationsAreKept(w, output, service);
    SplitLimitationsAreCoded(w, output.limitations);
    ToolLimitationsAreCoded(w, output.toolRuns);
    assert Coded(w, split + tools) by {
      hide SplitLimitations, ToolLimitations, CanonicalLimitationCode, DedupeKeyed, DiagnosisOf;
    }
    hide *;
    DedupedLimitations(w, split + tools);
    var k := KeptFor(w, kept, split + tools, item);
    GapAt(w, d, kept, k, item);
  }

  lemma GapAt(w: Wording, d: FinalDiagnosis, kept: seq<Keyed>, k: nat, item: FinalLimitation)
    requires d.limitations == ItemsOf(kept) && k < |kept|
    requires kept[k].item.code + "|" + kept[k].item.source == CanonicalLimitationCode(w, item.code, item.source) + "|" + item.source
    ensures Reported(w, d, item.code, item.source)
  {
    hide CanonicalLimitationCode;
    assert ReportedAt(d, k, CanonicalLimitationCode(w, item.code, item.source) + "|" + item.source);
  }

  lemma KeptFor(w: Wording, kept: seq<Keyed>, items: seq<FinalLimitation>, item: FinalLimitation) returns (k: nat)
    requires AllCovered(w, kept, items) && AllTaken(w, kept, items) && Coded(w, items) && item in items
    ensures k < |kept|
    ensures kept[k].item.code + "|" + kept[k].item.source == CanonicalLimitationCode(w, item.code, item.source) + "|" + item.source
  {
    hide *;
    k := CoveringAt(w, kept, items, item);
    var a, b := TakenAt(w, kept, items, k);
    KeyTexts(w, kept[k], items, a, b, item);
  }

  lemma CoveringAt(w: Wording, kept: seq<Keyed>, items: seq<FinalLimitation>, item: FinalLimitation) returns (k: nat)
    requires AllCovered(w, kept, items) && item in items
    ensures k < |kept| && Covers(w, kept[k], item)
  {
    hide Covers;
    var i :| 0 <= i < |items| && items[i] == item;
    assert Covered(w, kept, items[i]);
    k :| 0 <= k < |kept| && Covers(w, kept[k], item);
  }

  lemma TakenAt(w: Wording, kept: seq<Keyed>, items: seq<FinalLimitation>, k: nat) returns (a: FinalLimitation, b: FinalLimitation)
    requires AllTaken(w, kept, items) && k < |kept|
    ensures a in items && b in items && TakenFrom(w, kept[k], a, b)
  {
    hide TakenFrom;
    assert Taken(w, kept[k], items);
    var i, j :| 0 <= i < |items| && 0 <= j < |items| && TakenFrom(w, kept[k], items[i], items[j]);
    a, b := items[i], items[j];
  }

  lemma KeyTexts(w: Wording, k: Keyed, items: seq<FinalLimitation>, a: FinalLimitation, b: FinalLimitation, item: FinalLimitation)
    requires Coded(w, items) && a in items && item in items
    requires Covers(w, k, item) && TakenFrom(w, k, a, b)
    ensures k.item.code + "|" + k.item.source == CanonicalLimitationCode(w, item.code, item.source) + "|" + item.source
  {
    hide CanonicalLimitationCode, L.Longer;
  }

  lemma LimitationsAreKept(w: Wording, output: AgentOutput, service: string)
    ensures DiagnosisOf(w, output, service).limitations ==
            ItemsOf(DedupeKeyed(w, SplitLimitations(w, output.limitations) + ToolLimitations(w, output.toolRuns)))
  {
    hide SplitLimitations, ToolLimitations, DedupeKeyed, Summary, AllFindings, AdjustedRoot;
  }

  // ---- Findings --------------------------------------------------------------------------------

  /** An ID names, last of all items with this ID, one of past knowledge. */
  predicate NamesPast(items: seq<EvidenceItem>, id: string, j: nat) {
    && j < |items| && Id(items[j]) == id != ""
    && (forall k :: j < k < |items| ==> Id(items[k]) != id)
    && (items[j].sourceType == "memory" || items[j].sourceType == "long_term_memory" || items[j].sourceType == "knowledge")
  }

  ghost predicate CitesPast(ids: seq<string>, items: seq<EvidenceItem>) {
    exists i, j: nat :: 0 <= i < |ids| && NamesPast(items, ids[i], j)
  }

  lemma {:induction false} LastItemOfId(items: seq<EvidenceItem>, id: string)
    ensures forall j: nat :: j < |items| && Id(items[j]) == id != "" && (forall k :: j < k < |items| ==> Id(items[k]) != id) ==>
              ItemById(items, id) == Some(items[j])
    ensures ItemById(items, id).Some? ==> exists j: nat :: NamedLast(items, id, j) && items[j] == ItemById(items, id).value
  {
    hide Id;
    if items != [] {
      var n := |items| - 1;
      LastItemOfId(items[..n], id);
      if Id(items[n]) == id && id != "" {
        assert NamedLast(items, id, n);
      } else if ItemById(items, id).Some? {
        var j: nat :| NamedLast(items[..n], id, j) && items[..n][j] == ItemById(items, id).value;
        assert NamedLast(items, id, j);
      }
    }
  }

  predicate NamedLast(items: seq<EvidenceItem>, id: string, j: nat) {
    j < |items| && Id(items[j]) == id != "" && forall k :: j < k < |items| ==> Id(items[k]) != id
  }

  lemma CitesPastIff(ids: seq<string>, items: seq<EvidenceItem>)
    ensures CitesSource(ids, items, "memory") || CitesSource(ids, items, "long_term_memory") || CitesSource(ids, items, "knowledge")
       <==> CitesPast(ids, items)
  {
    hide Id, ItemById;
    if CitesPast(ids, items) {
      var i, j: nat :| 0 <= i < |ids| && NamesPast(items, ids[i], j);
      LastItemOfId(items, ids[i]);
      assert ItemById(items, ids[i]) == Some(items[j]);
    }
    forall i | 0 <= i < |ids| && ItemById(items, ids[i]).Some?
      && ItemById(items, ids[i]).value.sourceType in {"memory", "long_term_memory", "knowledge"}
      ensures CitesPast(ids, items)
    {
      LastItemOfId(items, ids[i]);
      var j: nat :| NamedLast(items, ids[i], j) && items[j] == ItemById(items, ids[i]).value;
      assert NamesPast(items, ids[i], j);
    }
  }

  /** What a statement becomes: a conclusion is a fact and an inference a hypothesis, unless its words or citations say otherwise. */
  lemma FindingMeans(w: Wording, t: Statement, items: seq<EvidenceItem>, otherwise: string)
    requires otherwise == "fact" || otherwise == "hypothesis"
    ensures var f := FindingOf(w, t, items, otherwise);
            var past := CitesPast(f.evidenceIDs, items);
            && f.description == t.text && f.evidenceIDs == ValidIDs(t.evidenceIDs, items)
            && (f.kind == "correlation" <==> w.correlates(t.text))
            && (f.kind == "fact" <==> !w.correlates(t.text) && !past && otherwise == "fact")
            && (f.kind == "historical_match" <==> !w.correlates(t.text) && past && !(otherwise == "hypothesis" && w.causal(t.text)))
            && (f.kind == "hypothesis" <==> !w.correlates(t.text) && otherwise == "hypothesis" && (past ==> w.causal(t.text)))
            && (f.confidence == "high" <==> f.kind == "fact" && CitesTwo(t.evidenceIDs, items))
            && (f.confidence == "low" <==> if f.kind == "correlation" then !CitesTwo(t.evidenceIDs, items) else !CitesOne(t.evidenceIDs, items))
            && (f.confidence != "high" && f.confidence != "low" ==> f.confidence == "medium")
  {
    OneValidID(t.evidenceIDs, items);
    TwoValidIDs(t.evidenceIDs, items);
    CitesPastIff(ValidIDs(t.evidenceIDs, items), items);
    hide ValidIDs, CitesPast, CitesOne, CitesTwo, CitesSource;
  }

  /** The finding that statement j would become, conclusions first. */
  function FindingAt(w: Wording, output: AgentOutput, j: nat): Finding
    requires j < |output.conclusions| + |output.inferences|
  {
    if j < |output.conclusions| then FindingOf(w, output.conclusions[j], output.evidence, "fact")
    else FindingOf(w, output.inferences[j - |output.conclusions|], output.evidence, "hypothesis")
  }

  /** Each finding comes from a statement that is not blank, in the order of the statements. */
  ghost predicate Picked(kept: seq<Finding>, items: seq<Finding>, at: seq<nat>) {
    && |at| == |kept|
    && (forall k, l :: 0 <= k < l < |at| ==> at[k] < at[l])
    && (forall k :: 0 <= k < |at| ==> at[k] < |items| && kept[k] == items[at[k]] && TrimSpace(kept[k].description) != "")
  }

  /** Some finding kept with this key comes from number j or an earlier one. */
  ghost predicate FoundEarlier(w: Wording, kept: seq<Finding>, at: seq<nat>, f: Finding, j: nat) {
    exists k :: 0 <= k < |kept| && k < |at| && at[k] <= j && FindingKey(w, kept[k]) == FindingKey(w, f)
  }

  /** What is not blank was found, there or earlier. */
  ghost predicate NoneLost(w: Wording, kept: seq<Finding>, items: seq<Finding>, at: seq<nat>) {
    forall j :: 0 <= j < |items| && TrimSpace(items[j].description) != "" ==> FoundEarlier(w, kept, at, items[j], j)
  }

  predicate KeysDiffer(w: Wording, kept: seq<Finding>) {
    forall k, l :: 0 <= k < l < |kept| ==> FindingKey(w, kept[k]) != FindingKey(w, kept[l])
  }

  /** What every statement would become, conclusions first. */
  function StatedFindings(w: Wording, output: AgentOutput): (r: seq<Finding>)
    ensures |r| == |output.conclusions| + |output.inferences|
    ensures forall j :: 0 <= j < |r| ==>
              r[j] == if j < |output.conclusions| then FindingOf(w, output.conclusions[j], output.evidence, "fact")
                      else FindingOf(w, output.inferences[j - |output.conclusions|], output.evidence, "hypothesis")
  {
    FindingsOf(w, output.conclusions, output.evidence, "fact") + FindingsOf(w, output.inferences, output.evidence, "hypothesis")
  }

  /** Each non-blank statement is a finding, unless an earlier one had its kind, citations and words. */
  lemma FindingsAreTheStatements(w: Wording, output: AgentOutput, service: string) returns (at: seq<nat>)
    ensures var kept, items := DiagnosisOf(w, output, service).findings, StatedFindings(w, output);
            Picked(kept, items, at) && NoneLost(w, kept, items, at) && KeysDiffer(w, kept)
  {
    hide *;
    FindingsAreKept(w, output, service);
    at := FirstFindings(w, StatedFindings(w, output));
  }

  lemma FindingsAreKept(w: Wording, output: AgentOutput, service: string)
    ensures DiagnosisOf(w, output, service).findings == DedupeFindings(w, StatedFindings(w, output))
  {
    hide DedupeFindings, FindingsOf, Summary, FinalLimitations, AdjustedRoot;
  }

  lemma {:induction false} FirstFindings(w: Wording, items: seq<Finding>) returns (at: seq<nat>)
    ensures var kept := DedupeFindings(w, items); Picked(kept, items, at) && NoneLost(w, kept, items, at) && KeysDiffer(w, kept)
  {
    hide *;
    at := [];
    if items == [] {
      NoFindings(w);
    } else {
      var init, last := items[..|items| - 1], items[|items| - 1];
      at := FirstFindings(w, init);
      FindingStep(w, init, last);
      assert items == init + [last];
      var before, kept := DedupeFindings(w, init), DedupeFindings(w, items);
      if TrimSpace(last.description) == "" || KeyKept(w, before, last) {
        PickedStill(before, init, last, at);
        NoneLostStill(w, before, init, last, at);
      } else {
        PickedMore(before, init, last, at);
        NoneLostMore(w, before, init, last, at);
        KeysStillDiffer(w, before, last);
        at := at + [|init|];
      }
    }
  }

  predicate KeyKept(w: Wording, kept: seq<Finding>, f: Finding) {
    exists i :: 0 <= i < |kept| && FindingKey(w, kept[i]) == FindingKey(w, f)
  }

  lemma NoFindings(w: Wording)
    ensures DedupeFindings(w, []) == [] && Picked([], [], []) && NoneLost(w, [], [], []) && KeysDiffer(w, [])
  {
  }

  lemma FindingStep(w: Wording, init: seq<Finding>, last: Finding)
    ensures var before := DedupeFindings(w, init);
            DedupeFindings(w, init + [last]) ==
            if TrimSpace(last.description) == "" || KeyKept(w, before, last) then before else before + [last]
  {
    hide FindingKey, TrimSpace;
    assert (init + [last])[..|init|] == init;
  }

  lemma PickedStill(kept: seq<Finding>, init: seq<Finding>, last: Finding, at: seq<nat>)
    requires Picked(kept, init, at)
    ensures Picked(kept, init + [last], at)
  {
    hide TrimSpace;
  }

  lemma PickedMore(kept: seq<Finding>, init: seq<Finding>, last: Finding, at: seq<nat>)
    requires Picked(kept, init, at) && TrimSpace(last.description) != ""
    ensures Picked(kept + [last], init + [last], at + [|init|])
  {
    hide TrimSpace;
  }

  lemma NoneLostStill(w: Wording, kept: seq<Finding>, init: seq<Finding>, last: Finding, at: seq<nat>)
    requires Picked(kept, init, at) && NoneLost(w, kept, init, at)
    requires TrimSpace(last.description) == "" || KeyKept(w, kept, last)
    ensures NoneLost(w, kept, init + [last], at)
  {
    hide TrimSpace, FindingKey;
    var items := init + [last];
    forall j | 0 <= j < |items| && TrimSpace(items[j].description) != "" ensures FoundEarlier(w, kept, at, items[j], j) {
      if j < |init| {
        assert FoundEarlier(w, kept, at, init[j], j);
      } else {
        var k :| 0 <= k < |kept| && FindingKey(w, kept[k]) == FindingKey(w, last);
        assert at[k] <= j;
      }
    }
  }

  lemma NoneLostMore(w: Wording, kept: seq<Finding>, init: seq<Finding>, last: Finding, at: seq<nat>)
    requires Picked(kept, init, at) && NoneLost(w, kept, init, at)
    ensures NoneLost(w, kept + [last], init + [last], at + [|init|])
  {
    var items, more, places := init + [last], kept + [last], at + [|init|];
    assert |at| == |kept|;
    hide TrimSpace, FindingKey, Picked;
    assert FoundEarlier(w, more, places, last, |init|) by {
      assert more[|kept|] == last && places[|kept|] == |init|;
    }
    forall j | 0 <= j < |items| && TrimSpace(items[j].description) != "" ensures FoundEarlier(w, more, places, items[j], j) {
      if j < |init| {
        FoundStill(w, kept, at, more, places, init[j], j);
      }
    }
  }

  lemma FoundStill(w: Wording, kept: seq<Finding>, at: seq<nat>, more: seq<Finding>, places: seq<nat>, f: Finding, j: nat)
    requires FoundEarlier(w, kept, at, f, j) && kept <= more && at <= places
    ensures FoundEarlier(w, more, places, f, j)
  {
    hide FindingKey;
    var k :| 0 <= k < |kept| && k < |at| && at[k] <= j && FindingKey(w, kept[k]) == FindingKey(w, f);
    assert more[k] == kept[k] && places[k] == at[k];
  }

  lemma KeysStillDiffer(w: Wording, kept: seq<Finding>, last: Finding)
    requires KeysDiffer(w, kept) && !KeyKept(w, kept, last)
    ensures KeysDiffer(w, kept + [last])
  {
    hide FindingKey;
  }

  /**
   Two findings are the same exactly when they agree in kind, citations and text, the text up to
   case and outer blanks; or when IDs with a bar in them run over into the text.
   */
  lemma SameFindingKeyIff(w: Wording, f: Finding, g: Finding)
    requires '|' !in f.kind && '|' !in g.kind
    ensures var ids, text := Join(f.evidenceIDs, ","), MapText(w.lower, TrimSpace(f.description));
            var otherIds, otherText := Join(g.evidenceIDs, ","), MapText(w.lower, TrimSpace(g.description));
            FindingKey(w, f) == FindingKey(w, g) <==>
            && f.kind == g.kind
            && ((ids == otherIds && text == otherText)
                || RunsOver(ids, text, otherIds, otherText, '|') || RunsOver(otherIds, otherText, ids, text, '|'))
  {
    var ids, text := Join(f.evidenceIDs, ","), MapText(w.lower, TrimSpace(f.description));
    var otherIds, otherText := Join(g.evidenceIDs, ","), MapText(w.lower, TrimSpace(g.description));
    assert FindingKey(w, f) == f.kind + "|" + ids + "|" + text && FindingKey(w, g) == g.kind + "|" + otherIds + "|" + otherText;
    hide *;
    BarText(f.kind, ids, text);
    BarText(g.kind, otherIds, otherText);
    BarsSplit(f.kind, ids + ['|'] + text, g.kind, otherIds + ['|'] + otherText);
    JoinedEqualIff(ids, text, otherIds, otherText, '|');
  }

  lemma BarText(a: string, b: string, c: string)
    ensures a + "|" + b + "|" + c == a + ['|'] + (b + ['|'] + c)
  {
  }

  lemma BarsSplit(a: string, x: string, b: string, y: string)
    requires '|' !in a && '|' !in b
    ensures a + ['|'] + x == b + ['|'] + y <==> a == b && x == y
  {
    JoinedEqualIff(a, x, b, y, '|');
  }

  // ---- The texts ---------------------------------------------------------------------------------

  /** A statement with nothing but blank ones before it. */
  predicate FirstSaid(ts: seq<Statement>, j: nat) {
    j < |ts| && TrimSpace(ts[j].text) != "" && forall k :: 0 <= k < j ==> TrimSpace(ts[k].text) == ""
  }

  /** The summary is the root cause; without one, the first thing said; if nothing was said, a count. */
  lemma SummaryIs(w: Wording, output: AgentOutput, service: string)
    requires w.Sound()
    ensures var d, said := DiagnosisOf(w, output, service), output.conclusions + output.inferences;
            && (RootTold(w, output, d) ==> d.summary == d.rootCause.conclusion)
            && (!RootTold(w, output, d) ==> forall j: nat :: FirstSaid(said, j) ==> d.summary == said[j].text)
            && (!RootTold(w, output, d) && NothingSaid(said) ==> d.summary == w.summary(|output.evidence|))
  {
    var d, said := DiagnosisOf(w, output, service), output.conclusions + output.inferences;
    RootCauseMeans(w, output, service);
    SummaryText(w, output, service);
    hide DiagnosisOf, TrimSpace, RootCited;
    forall j: nat | FirstSaid(said, j)
      ensures d.findings != [] && d.findings[0].description == said[j].text && TrimSpace(said[j].text) != ""
    {
      FirstSaidIsFound(w, output, service, j);
    }
    if d.findings != [] {
      SomethingFoundSomethingSaid(w, output, service);
    }
  }

  /** There is a root cause with citations to tell of. */
  predicate RootTold(w: Wording, output: AgentOutput, d: FinalDiagnosis) {
    RootCited(w, output) && TrimSpace(d.rootCause.conclusion) != ""
  }

  predicate NothingSaid(ts: seq<Statement>) {
    forall k :: 0 <= k < |ts| ==> TrimSpace(ts[k].text) == ""
  }

  lemma StatedTexts(w: Wording, output: AgentOutput)
    ensures var said, items := output.conclusions + output.inferences, StatedFindings(w, output);
            forall j :: 0 <= j < |said| ==> items[j].description == said[j].text
  {
    hide ValidIDs, KindOf, ConfidenceForFinding;
  }

  lemma FirstSaidIsFound(w: Wording, output: AgentOutput, service: string, j: nat)
    requires FirstSaid(output.conclusions + output.inferences, j)
    ensures var found, text := DiagnosisOf(w, output, service).findings, (output.conclusions + output.inferences)[j].text;
            found != [] && found[0].description == text && TrimSpace(text) != ""
  {
    var at := FindingsAreTheStatements(w, output, service);
    StatedTexts(w, output);
    hide DiagnosisOf, TrimSpace, StatedFindings, Picked, NoneLost, KeysDiffer;
    FirstFoundFirst(w, DiagnosisOf(w, output, service).findings, StatedFindings(w, output), at, j);
  }

  lemma SomethingFoundSomethingSaid(w: Wording, output: AgentOutput, service: string)
    requires DiagnosisOf(w, output, service).findings != []
    ensures !NothingSaid(output.conclusions + output.inferences)
  {
    var at := FindingsAreTheStatements(w, output, service);
    StatedTexts(w, output);
    hide DiagnosisOf, TrimSpace, StatedFindings, NoneLost, KeysDiffer;
    var found, items := DiagnosisOf(w, output, service).findings, StatedFindings(w, output);
    var said := output.conclusions + output.inferences;
    assert found[0] == items[at[0]] && items[at[0]].description == said[at[0]].text;
  }

  lemma FirstFoundFirst(w: Wording, kept: seq<Finding>, items: seq<Finding>, at: seq<nat>, j: nat)
    requires Picked(kept, items, at) && NoneLost(w, kept, items, at)
    requires j < |items| && TrimSpace(items[j].description) != "" && forall k :: 0 <= k < j ==> TrimSpace(items[k].description) == ""
    ensures kept != [] && kept[0] == items[j]
  {
    hide TrimSpace, FindingKey;
    assert FoundEarlier(w, kept, at, items[j], j);
  }

  lemma SummaryText(w: Wording, output: AgentOutput, service: string)
    ensures var d := DiagnosisOf(w, output, service);
            d.summary == if d.rootCause.status != "insufficient_evidence" && TrimSpace(d.rootCause.conclusion) != "" then d.rootCause.conclusion
                         else if |d.findings| > 0 && TrimSpace(d.findings[0].description) != "" then d.findings[0].description
                         else w.summary(|output.evidence|)
  {
    hide AdjustedRoot, FinalLimitations, AllFindings, Summary, TrimSpace;
  }

  /** One recommendation for each that came in, in order, the first two with the highest priorities. */
  lemma RecommendationsAre(w: Wording, output: AgentOutput, service: string, i: nat)
    requires i < |output.recommendations|
    ensures var all := DiagnosisOf(w, output, service).recommendations;
            && |all| == |output.recommendations|
            && all[i].action == output.recommendations[i].text
            && all[i].evidenceIDs == ValidIDs(output.recommendations[i].evidenceIDs, output.evidence)
            && (all[i].priority == "P0" <==> i == 0) && (all[i].priority == "P1" <==> i == 1) && (all[i].priority == "P2" <==> i > 1)
  {
    hide ValidIDs, FinalLimitations, AllFindings, Summary, AdjustedRoot, Alternatives;
  }

  /** The alternatives are the other inferences; the references are all of the evidence. */
  lemma AlternativesAndReferences(w: Wording, output: AgentOutput, service: string)
    ensures var d := DiagnosisOf(w, output, service);
            && (forall text :: text in d.rootCause.alternatives <==>
                  text != "" && text != d.rootCause.conclusion && Inferred(output.inferences, text))
            && (forall id :: id in d.evidenceRefs <==> id in IdSet(output.evidence))
  {
    DiagnosisKeepsRoot(w, output, service);
    AlternativesAre(output.inferences, DiagnosisOf(w, output, service).rootCause.conclusion);
    ReferencesAre(output.evidence);
    hide IdSet, Inferred, FinalLimitations, AllFindings, Summary, AdjustedRoot, Alternatives, References;
  }

  predicate Inferred(inferences: seq<Statement>, text: string) {
    exists i :: 0 <= i < |inferences| && TrimSpace(inferences[i].text) == text
  }

  lemma {:induction false} AlternativesAre(inferences: seq<Statement>, conclusion: string)
    ensures forall text :: text in Alternatives(inferences, conclusion) <==> text != "" && text != conclusion && Inferred(inferences, text)
  {
    hide TrimSpace;
    if inferences != [] {
      var init, last := inferences[..|inferences| - 1], inferences[|inferences| - 1];
      AlternativesAre(init, conclusion);
      assert inferences == init + [last];
      forall text ensures Inferred(inferences, text) <==> Inferred(init, text) || TrimSpace(last.text) == text {
        if Inferred(init, text) {
          var i :| 0 <= i < |init| && TrimSpace(init[i].text) == text;
          assert inferences[i] == init[i];
        }
        assert inferences[|init|] == last;
      }
    }
  }

  lemma {:induction false} ReferencesAre(items: seq<EvidenceItem>)
    ensures forall id :: id in IdSet(items) ==> id in References(items)
  {
    hide Id;
    if items != [] {
      var init, last := items[..|items| - 1], items[|items| - 1];
      ReferencesAre(init);
      assert items == init + [last];
      IdSetAdds(init, [last]);
      IdSetOfOne(last);
    }
  }
}
