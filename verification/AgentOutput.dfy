/**
 Parsing of the single agent's answer (internal/agent/eino/output.go): what the model states
 is kept only as far as it cites evidence that tools returned.

 json.Unmarshal is a parameter: `decode` gives the draft a text decodes into, if it does, and
 whether a required section is missing from it.
 */
module AgentOutput {

  import opened Text
  import opened Collections
  import D = Diagnosis
  import F = Findings
  import L = Limitations
  import J = JsonRepair
  import O = JsonObject

  datatype Draft = Draft(
    conclusions: seq<D.Statement>, inferences: seq<D.Statement>, recommendations: seq<D.Statement>,
    limitations: seq<L.Limitation>, sectionMissing: bool)

  type Decoder = string -> Option<Draft>

  /** The localised messages. */
  datatype Messages = Messages(parseFailed: string, sectionsMissing: string, referenceInvalid: string, insufficient: string)

  datatype Parsed = Parsed(output: D.AgentOutput, parseSuccess: bool, repairAttempted: bool, repairSuccess: bool)

  // ---- Citations ---------------------------------------------------------------------------

  /** The IDs as the evidence carries them. */
  function Allowed(evidence: seq<F.EvidenceItem>): set<string> {
    set i | 0 <= i < |evidence| && evidence[i].id != "" :: evidence[i].id
  }

  lemma AllowedIs(evidence: seq<F.EvidenceItem>, id: string)
    ensures id in Allowed(evidence) <==> id != "" && exists i :: 0 <= i < |evidence| && evidence[i].id == id
  {
  }

  function Kept(ids: seq<string>, allowed: set<string>): seq<string> {
    D.KeepValid(D.TrimAll(ids), allowed)
  }

  /** Something cited is no evidence. */
  predicate CitesUnknown(ids: seq<string>, allowed: set<string>) {
    exists i :: 0 <= i < |ids| && TrimSpace(ids[i]) !in allowed
  }

  method ValidEvidenceIDs(values: seq<string>, allowed: set<string>) returns (result: seq<string>, invalid: bool)
    requires "" !in allowed
    ensures result == Kept(values, allowed)
    ensures forall id :: id in result <==> id in allowed && id in D.TrimAll(values)
    ensures NoRepeats(result)
    ensures invalid <==> CitesUnknown(values, allowed)
  {
    hide TrimSpace;
    result := [];
    invalid := false;
    var seen: set<string> := {};
    ghost var trimmed := D.TrimAll(values);
    for i := 0 to |values|
      invariant result == D.KeepValid(trimmed[..i], allowed)
      invariant forall id :: id in seen <==> id in result
      invariant invalid <==> exists k :: 0 <= k < i && TrimSpace(values[k]) !in allowed
    {
      assert trimmed[..i + 1][..i] == trimmed[..i];
      var value := TrimSpace(values[i]);
      if value !in allowed || value == "" {
        invalid := true;
        continue;
      }
      if value in seen {
        continue;
      }
      seen := seen + {value};
      result := result + [value];
    }
    assert trimmed[..|values|] == trimmed;
    D.KeepValidFacts(trimmed, allowed);
  }

  // ---- Statements -----------------------------------------------------------------------------

  predicate Says(t: D.Statement) {
    TrimSpace(t.text) != ""
  }

  /** A statement as it is kept. */
  function Cleaned(t: D.Statement, allowed: set<string>): D.Statement {
    D.Statement(TrimSpace(t.text), Kept(t.evidenceIDs, allowed))
  }

  /** Conclusions and inferences: those that say something and still cite something. */
  function KeepBound(ts: seq<D.Statement>, allowed: set<string>): seq<D.Statement> {
    if ts == [] then []
    else
      var before := KeepBound(ts[..|ts| - 1], allowed);
      var last := ts[|ts| - 1];
      if Says(last) && Kept(last.evidenceIDs, allowed) != [] then before + [Cleaned(last, allowed)] else before
  }

  /** Recommendations: those that say something. */
  function KeepSaying(ts: seq<D.Statement>, allowed: set<string>): seq<D.Statement> {
    if ts == [] then []
    else
      var before := KeepSaying(ts[..|ts| - 1], allowed);
      var last := ts[|ts| - 1];
      if Says(last) then before + [Cleaned(last, allowed)] else before
  }

  /** Cites something that is no evidence, or says something on no evidence at all. */
  predicate Faulty(t: D.Statement, allowed: set<string>, mustCite: bool) {
    CitesUnknown(t.evidenceIDs, allowed) || (mustCite && Says(t) && Kept(t.evidenceIDs, allowed) == [])
  }

  predicate AnyFaulty(ts: seq<D.Statement>, allowed: set<string>, mustCite: bool) {
    exists i :: 0 <= i < |ts| && Faulty(ts[i], allowed, mustCite)
  }

  lemma AnyFaultyGrows(ts: seq<D.Statement>, i: nat, allowed: set<string>, mustCite: bool)
    requires i < |ts|
    ensures AnyFaulty(ts[..i + 1], allowed, mustCite) <==>
              AnyFaulty(ts[..i], allowed, mustCite) || Faulty(ts[i], allowed, mustCite)
  {
    hide Faulty;
    var before, now := ts[..i], ts[..i + 1];
    assert forall k :: 0 <= k < i ==> now[k] == before[k];
    assert now[i] == ts[i];
    if k :| 0 <= k < |before| && Faulty(before[k], allowed, mustCite) {
      assert Faulty(now[k], allowed, mustCite);
    }
  }

  method KeepStatements(ts: seq<D.Statement>, allowed: set<string>) returns (kept: seq<D.Statement>, faulty: bool)
    requires "" !in allowed
    ensures kept == KeepBound(ts, allowed)
    ensures faulty <==> AnyFaulty(ts, allowed, true)
  {
    hide Says, Kept, CitesUnknown, AnyFaulty;
    kept := [];
    faulty := false;
    Nothing(allowed, true);
    assert ts[..0] == [];
    for i := 0 to |ts|
      invariant kept == KeepBound(ts[..i], allowed)
      invariant faulty <==> AnyFaulty(ts[..i], allowed, true)
    {
      assert ts[..i + 1][..i] == ts[..i];
      AnyFaultyGrows(ts, i, allowed, true);
      var ids, invalid := ValidEvidenceIDs(ts[i].evidenceIDs, allowed);
      faulty := faulty || invalid;
      if !Says(ts[i]) || |ids| == 0 {
        if Says(ts[i]) {
          faulty := true;
        }
        continue;
      }
      kept := kept + [D.Statement(TrimSpace(ts[i].text), ids)];
    }
    assert ts[..|ts|] == ts;
  }

  method KeepRecommendations(ts: seq<D.Statement>, allowed: set<string>) returns (kept: seq<D.Statement>, faulty: bool)
    requires "" !in allowed
    ensures kept == KeepSaying(ts, allowed)
    ensures faulty <==> AnyFaulty(ts, allowed, false)
  {
    hide Says, Kept, CitesUnknown, AnyFaulty;
    kept := [];
    faulty := false;
    Nothing(allowed, false);
    assert ts[..0] == [];
    for i := 0 to |ts|
      invariant kept == KeepSaying(ts[..i], allowed)
      invariant faulty <==> AnyFaulty(ts[..i], allowed, false)
    {
      assert ts[..i + 1][..i] == ts[..i];
      AnyFaultyGrows(ts, i, allowed, false);
      var ids, invalid := ValidEvidenceIDs(ts[i].evidenceIDs, allowed);
      faulty := faulty || invalid;
      if Says(ts[i]) {
        kept := kept + [D.Statement(TrimSpace(ts[i].text), ids)];
      }
    }
    assert ts[..|ts|] == ts;
  }

  lemma Nothing(allowed: set<string>, mustCite: bool)
    ensures !AnyFaulty([], allowed, mustCite)
  {
  }

  function KeepLimitations(ls: seq<L.Limitation>): seq<L.Limitation> {
    if ls == [] then []
    else
      var before := KeepLimitations(ls[..|ls| - 1]);
      var l := ls[|ls| - 1];
      if TrimSpace(l.message) == "" then before
      else
        var code := TrimSpace(l.code);
        before + [L.Limitation(if code == "" then "AGENT_LIMITATION" else code, TrimSpace(l.message), TrimSpace(l.tool))]
  }

  method CollectLimitations(ls: seq<L.Limitation>) returns (kept: seq<L.Limitation>)
    ensures kept == KeepLimitations(ls)
  {
    hide TrimSpace;
    kept := [];
    for i := 0 to |ls|
      invariant kept == KeepLimitations(ls[..i])
    {
      assert ls[..i + 1][..i] == ls[..i];
      var l := ls[i];
      if TrimSpace(l.message) == "" {
        continue;
      }
      var code := TrimSpace(l.code);
      if code == "" {
        code := "AGENT_LIMITATION";
      }
      kept := kept + [L.Limitation(code, TrimSpace(l.message), TrimSpace(l.tool))];
    }
    assert ls[..|ls|] == ls;
  }

  // ---- Parsing -------------------------------------------------------------------------------------

  function StripJsonFence(content: string): string {
    var c := TrimSpace(content);
    if !HasPrefix(c, "```") then c
    else
      var body := match IndexOf(c, '\n') case None => c case Some(newline) => c[newline + 1..];
      TrimSpace(TrimSuffix(TrimSpace(body), "```"))
  }

  predicate ReferencesInvalid(draft: Draft, allowed: set<string>) {
    || AnyFaulty(draft.conclusions, allowed, true)
    || AnyFaulty(draft.inferences, allowed, true)
    || AnyFaulty(draft.recommendations, allowed, false)
  }

  function Optional(report: bool, l: L.Limitation): seq<L.Limitation> {
    if report then [l] else []
  }

  function FromDraft(
      m: Messages, draft: Draft, evidence: seq<F.EvidenceItem>, toolRuns: seq<F.ToolRun>, limitations: seq<L.Limitation>)
      : D.AgentOutput
  {
    var allowed := Allowed(evidence);
    var conclusions := KeepBound(draft.conclusions, allowed);
    D.AgentOutput(
      conclusions, evidence, KeepBound(draft.inferences, allowed), KeepSaying(draft.recommendations, allowed),
      limitations
      + Optional(draft.sectionMissing, L.Limitation("AGENT_OUTPUT_MISSING_REQUIRED_SECTIONS", m.sectionsMissing, ""))
      + KeepLimitations(draft.limitations)
      + Optional(ReferencesInvalid(draft, allowed), L.Limitation("EVIDENCE_REFERENCE_INVALID", m.referenceInvalid, ""))
      + Optional(conclusions == [] && evidence == [], L.Limitation("INSUFFICIENT_EVIDENCE", m.insufficient, "")),
      toolRuns)
  }

  function Parse(
      decode: Decoder, m: Messages, content: string,
      evidence: seq<F.EvidenceItem>, toolRuns: seq<F.ToolRun>, limitations: seq<L.Limitation>)
      : Parsed
  {
    match decode(StripJsonFence(content))
    case None =>
      Parsed(D.AgentOutput([], evidence, [], [],
        limitations + [L.Limitation("AGENT_OUTPUT_PARSE_FAILED", m.parseFailed, "")], toolRuns), false, false, false)
    case Some(draft) => Parsed(FromDraft(m, draft, evidence, toolRuns, limitations), true, false, false)
  }

  method ParseAgentOutput(
      decode: Decoder, m: Messages, content: string,
      evidence: seq<F.EvidenceItem>, toolRuns: seq<F.ToolRun>, toolLimitations: seq<L.Limitation>)
      returns (r: Parsed)
    ensures r == Parse(decode, m, content, evidence, toolRuns, toolLimitations)
  {
    hide AnyFaulty, KeepBound, KeepSaying, KeepLimitations, StripJsonFence;
    var output := D.AgentOutput([], evidence, [], [], toolLimitations, toolRuns);
    var decoded := decode(StripJsonFence(content));
    if decoded.None? {
      output := output.(limitations := output.limitations + [L.Limitation("AGENT_OUTPUT_PARSE_FAILED", m.parseFailed, "")]);
      return Parsed(output, false, false, false);
    }
    var draft := decoded.value;
    var limitations := toolLimitations;
    limitations := limitations
      + Optional(draft.sectionMissing, L.Limitation("AGENT_OUTPUT_MISSING_REQUIRED_SECTIONS", m.sectionsMissing, ""));
    var allowed := Allowed(evidence);
    var conclusions, faultyConclusions := KeepStatements(draft.conclusions, allowed);
    var inferences, faultyInferences := KeepStatements(draft.inferences, allowed);
    var recommendations, faultyRecommendations := KeepRecommendations(draft.recommendations, allowed);
    var stated := CollectLimitations(draft.limitations);
    limitations := limitations + stated;
    limitations := limitations + Optional(faultyConclusions || faultyInferences || faultyRecommendations,
      L.Limitation("EVIDENCE_REFERENCE_INVALID", m.referenceInvalid, ""));
    limitations := limitations + Optional(conclusions == [] && evidence == [], L.Limitation("INSUFFICIENT_EVIDENCE", m.insufficient, ""));
    r := Parsed(D.AgentOutput(conclusions, evidence, inferences, recommendations, limitations, toolRuns), true, false, false);
  }

  function ParseControlled(
      decode: Decoder, accepts: string -> bool, enabled: bool, m: Messages, content: string,
      evidence: seq<F.EvidenceItem>, toolRuns: seq<F.ToolRun>, limitations: seq<L.Limitation>)
      : Parsed
  {
    var first := Parse(decode, m, content, evidence, toolRuns, limitations);
    if first.parseSuccess || !enabled then first
    else
      var (repaired, ok) := O.RepairJson(enabled, accepts, StripJsonFence(content));
      if !ok then first.(repairAttempted := true)
      else
        var second := Parse(decode, m, repaired, evidence, toolRuns, limitations);
        second.(repairAttempted := true, repairSuccess := second.parseSuccess)
  }

  method ParseAgentOutputControlled(
      decode: Decoder, accepts: string -> bool, enabled: bool, m: Messages, content: string,
      evidence: seq<F.EvidenceItem>, toolRuns: seq<F.ToolRun>, toolLimitations: seq<L.Limitation>)
      returns (r: Parsed)
    ensures r == ParseControlled(decode, accepts, enabled, m, content, evidence, toolRuns, toolLimitations)
  {
    hide Parse, O.RepairJson, StripJsonFence;
    r := ParseAgentOutput(decode, m, content, evidence, toolRuns, toolLimitations);
    if r.parseSuccess || !enabled {
      return;
    }
    var repaired, ok := O.Repair(enabled, accepts, StripJsonFence(content));
    if !ok {
      return r.(repairAttempted := true);
    }
    r := ParseAgentOutput(decode, m, repaired, evidence, toolRuns, toolLimitations);
    r := r.(repairAttempted := true, repairSuccess := r.parseSuccess);
  }

  // ---- What an answer may cite ------------------------------------------------------------------------

  predicate CitesWithin(ts: seq<D.Statement>, allowed: set<string>) {
    forall i :: 0 <= i < |ts| ==> D.Within(ts[i].evidenceIDs, allowed) && NoRepeats(ts[i].evidenceIDs)
  }

  predicate AllCite(ts: seq<D.Statement>) {
    forall i :: 0 <= i < |ts| ==> ts[i].evidenceIDs != []
  }

  lemma KeptIsWithin(ids: seq<string>, allowed: set<string>)
    ensures D.Within(Kept(ids, allowed), allowed) && NoRepeats(Kept(ids, allowed))
  {
    D.KeepValidFacts(D.TrimAll(ids), allowed);
    var kept := Kept(ids, allowed);
    assert forall i :: 0 <= i < |kept| ==> kept[i] in kept;
  }

  lemma {:induction false} BoundAreWithin(ts: seq<D.Statement>, allowed: set<string>)
    ensures CitesWithin(KeepBound(ts, allowed), allowed) && AllCite(KeepBound(ts, allowed))
  {
    hide Says, Kept;
    if ts != [] {
      BoundAreWithin(ts[..|ts| - 1], allowed);
      KeptIsWithin(ts[|ts| - 1].evidenceIDs, allowed);
    }
  }

  lemma {:induction false} SayingAreWithin(ts: seq<D.Statement>, allowed: set<string>)
    ensures CitesWithin(KeepSaying(ts, allowed), allowed)
  {
    hide Says, Kept;
    if ts != [] {
      SayingAreWithin(ts[..|ts| - 1], allowed);
      KeptIsWithin(ts[|ts| - 1].evidenceIDs, allowed);
    }
  }

  ghost predicate Grounded(output: D.AgentOutput, evidence: seq<F.EvidenceItem>) {
    && output.evidence == evidence
    && CitesWithin(output.conclusions, Allowed(evidence)) && AllCite(output.conclusions)
    && CitesWithin(output.inferences, Allowed(evidence)) && AllCite(output.inferences)
    && CitesWithin(output.recommendations, Allowed(evidence))
  }

  lemma ParsedIsGrounded(
      decode: Decoder, m: Messages, content: string,
      evidence: seq<F.EvidenceItem>, toolRuns: seq<F.ToolRun>, limitations: seq<L.Limitation>)
    ensures Grounded(Parse(decode, m, content, evidence, toolRuns, limitations).output, evidence)
  {
    hide StripJsonFence, Allowed, KeepBound, KeepSaying, KeepLimitations, ReferencesInvalid, D.Within, NoRepeats;
    match decode(StripJsonFence(content))
    case None =>
    case Some(draft) =>
      BoundAreWithin(draft.conclusions, Allowed(evidence));
      BoundAreWithin(draft.inferences, Allowed(evidence));
      SayingAreWithin(draft.recommendations, Allowed(evidence));
  }

  /** Whatever the model wrote, and repaired or not, the answer cites evidence that was returned. */
  lemma AnswerIsGrounded(
      decode: Decoder, accepts: string -> bool, enabled: bool, m: Messages, content: string,
      evidence: seq<F.EvidenceItem>, toolRuns: seq<F.ToolRun>, limitations: seq<L.Limitation>)
    ensures var r := ParseControlled(decode, accepts, enabled, m, content, evidence, toolRuns, limitations);
            && Grounded(r.output, evidence)
            && (r.repairSuccess ==> r.parseSuccess && r.repairAttempted)
            && (r.repairAttempted ==> enabled && decode(StripJsonFence(content)).None?)
            && (!r.parseSuccess ==> r.output.conclusions == [] && r.output.inferences == [] && r.output.recommendations == [])
  {
    hide StripJsonFence, Grounded, O.RepairJson, FromDraft;
    ParsedIsGrounded(decode, m, content, evidence, toolRuns, limitations);
    var (repaired, ok) := O.RepairJson(enabled, accepts, StripJsonFence(content));
    ParsedIsGrounded(decode, m, repaired, evidence, toolRuns, limitations);
  }

  // ---- Nothing is dropped in silence ---------------------------------------------------------------------

  function Saying(ts: seq<D.Statement>): seq<D.Statement> {
    if ts == [] then []
    else Saying(ts[..|ts| - 1]) + (if Says(ts[|ts| - 1]) then [ts[|ts| - 1]] else [])
  }

  function CleanedAll(ts: seq<D.Statement>, allowed: set<string>): (r: seq<D.Statement>)
    ensures |r| == |ts| && forall i :: 0 <= i < |ts| ==> r[i] == Cleaned(ts[i], allowed)
  {
    seq(|ts|, i requires 0 <= i < |ts| => Cleaned(ts[i], allowed))
  }

  lemma {:induction false} KeepsAllThatSay(ts: seq<D.Statement>, allowed: set<string>)
    ensures !AnyFaulty(ts, allowed, true) ==> KeepBound(ts, allowed) == CleanedAll(Saying(ts), allowed)
    ensures KeepSaying(ts, allowed) == CleanedAll(Saying(ts), allowed)
  {
    hide Says, Kept, CitesUnknown, Cleaned, AnyFaulty;
    if ts != [] {
      var init, last := ts[..|ts| - 1], ts[|ts| - 1];
      KeepsAllThatSay(init, allowed);
      AnyFaultyGrows(ts, |ts| - 1, allowed, true);
      assert ts[..|ts|] == ts;
    }
  }

  /** Cites something that is evidence. */
  predicate CitesKnown(ids: seq<string>, allowed: set<string>) {
    exists i :: 0 <= i < |ids| && TrimSpace(ids[i]) in allowed
  }

  lemma KeptIff(ids: seq<string>, allowed: set<string>)
    ensures Kept(ids, allowed) != [] <==> CitesKnown(ids, allowed)
    ensures forall id :: id in Kept(ids, allowed) <==> id in allowed && Cited(ids, id)
  {
    hide TrimSpace;
    var all, kept := D.TrimAll(ids), Kept(ids, allowed);
    D.KeepValidFacts(all, allowed);
    forall id ensures id in all <==> Cited(ids, id) {
      assert forall i :: 0 <= i < |ids| ==> all[i] == TrimSpace(ids[i]);
    }
    if kept != [] {
      assert kept[0] in kept;
      assert Cited(ids, kept[0]);
    }
    if i :| 0 <= i < |ids| && TrimSpace(ids[i]) in allowed {
      assert Cited(ids, TrimSpace(ids[i]));
    }
  }

  predicate Cited(ids: seq<string>, id: string) {
    exists i :: 0 <= i < |ids| && TrimSpace(ids[i]) == id
  }

  /** The positions of the statements that are kept. */
  function BoundPlaces(ts: seq<D.Statement>, allowed: set<string>): (at: seq<nat>) {
    if ts == [] then []
    else
      BoundPlaces(ts[..|ts| - 1], allowed)
      + (if Says(ts[|ts| - 1]) && CitesKnown(ts[|ts| - 1].evidenceIDs, allowed) then [|ts| - 1] else [])
  }

  /** The statement kept for this one: its text trimmed, and of what it cites the evidence. */
  ghost predicate KeptFor(kept: D.Statement, t: D.Statement, allowed: set<string>) {
    && kept.text == TrimSpace(t.text)
    && NoRepeats(kept.evidenceIDs)
    && forall id :: id in kept.evidenceIDs <==> id in allowed && Cited(t.evidenceIDs, id)
  }

  lemma CleanedIsKeptFor(t: D.Statement, allowed: set<string>)
    ensures KeptFor(Cleaned(t, allowed), t, allowed)
  {
    KeptIff(t.evidenceIDs, allowed);
    KeptIsWithin(t.evidenceIDs, allowed);
    hide Kept, TrimSpace, D.Within;
  }

  /** Exactly the statements that say something and cite some evidence are kept, in order. */
  lemma {:induction false} KeptStatementsAre(ts: seq<D.Statement>, allowed: set<string>)
    ensures var kept, at := KeepBound(ts, allowed), BoundPlaces(ts, allowed);
            && |kept| == |at|
            && (forall k :: 0 <= k < |at| ==> at[k] < |ts| && KeptFor(kept[k], ts[at[k]], allowed))
            && (forall k, l :: 0 <= k < l < |at| ==> at[k] < at[l])
            && (forall i :: i in at <==> 0 <= i < |ts| && TrimSpace(ts[i].text) != "" && CitesKnown(ts[i].evidenceIDs, allowed))
  {
    hide Kept, CitesKnown, KeptFor, Cleaned, TrimSpace;
    if ts != [] {
      var init, last := ts[..|ts| - 1], ts[|ts| - 1];
      KeptStatementsAre(init, allowed);
      KeptIff(last.evidenceIDs, allowed);
      CleanedIsKeptFor(last, allowed);
      assert ts == init + [last];
    }
  }

  // ---- What is reported ---------------------------------------------------------------------------------

  predicate Reports(output: D.AgentOutput, code: string) {
    exists i :: 0 <= i < |output.limitations| && output.limitations[i].code == code
  }

  /** Unless invalid references are reported, every statement with a text is in the answer. */
  lemma NothingIsDroppedInSilence(m: Messages, draft: Draft, evidence: seq<F.EvidenceItem>, toolRuns: seq<F.ToolRun>, limitations: seq<L.Limitation>)
    ensures var output, allowed := FromDraft(m, draft, evidence, toolRuns, limitations), Allowed(evidence);
            && output.recommendations == CleanedAll(Saying(draft.recommendations), allowed)
            && (!Reports(output, "EVIDENCE_REFERENCE_INVALID") ==>
                  && output.conclusions == CleanedAll(Saying(draft.conclusions), allowed)
                  && output.inferences == CleanedAll(Saying(draft.inferences), allowed))
  {
    var output, allowed := FromDraft(m, draft, evidence, toolRuns, limitations), Allowed(evidence);
    hide Allowed, KeepLimitations, AnyFaulty, KeepBound, KeepSaying, Saying, Cleaned;
    KeepsAllThatSay(draft.conclusions, allowed);
    KeepsAllThatSay(draft.inferences, allowed);
    KeepsAllThatSay(draft.recommendations, allowed);
    if ReferencesInvalid(draft, allowed) {
      var report := L.Limitation("EVIDENCE_REFERENCE_INVALID", m.referenceInvalid, "");
      var before := limitations
        + Optional(draft.sectionMissing, L.Limitation("AGENT_OUTPUT_MISSING_REQUIRED_SECTIONS", m.sectionsMissing, ""))
        + KeepLimitations(draft.limitations);
      assert output.limitations[|before|] == report;
    }
  }

  predicate ReportedBefore(ls: seq<L.Limitation>, stated: seq<L.Limitation>, code: string) {
    (exists i :: 0 <= i < |ls| && ls[i].code == code) || (exists i :: 0 <= i < |stated| && StatesCode(stated[i], code))
  }

  /** A limitation of the model's own: it has a message, and without a code it gets a general one. */
  predicate StatesCode(l: L.Limitation, code: string) {
    TrimSpace(l.message) != "" && (TrimSpace(l.code) == code || (TrimSpace(l.code) == "" && code == "AGENT_LIMITATION")) && code != ""
  }

  predicate ReferenceFault(draft: Draft, allowed: set<string>) {
    || (exists i :: 0 <= i < |draft.conclusions| && Unfounded(draft.conclusions[i], allowed))
    || (exists i :: 0 <= i < |draft.inferences| && Unfounded(draft.inferences[i], allowed))
    || (exists i :: 0 <= i < |draft.recommendations| && CitesUnknown(draft.recommendations[i].evidenceIDs, allowed))
  }

  /** Cites something unknown, or says something without citing any evidence. */
  predicate Unfounded(t: D.Statement, allowed: set<string>) {
    CitesUnknown(t.evidenceIDs, allowed) || (TrimSpace(t.text) != "" && !CitesKnown(t.evidenceIDs, allowed))
  }

  /** Each finding about the answer itself is reported exactly when it is the case, or was reported already. */
  lemma ReportedIff(
      decode: Decoder, m: Messages, content: string,
      evidence: seq<F.EvidenceItem>, toolRuns: seq<F.ToolRun>, limitations: seq<L.Limitation>)
    requires decode(StripJsonFence(content)).Some?
    ensures var r := Parse(decode, m, content, evidence, toolRuns, limitations);
            var draft, allowed := decode(StripJsonFence(content)).value, Allowed(evidence);
            && r.parseSuccess && r.output.toolRuns == toolRuns && limitations <= r.output.limitations
            && (Reports(r.output, "EVIDENCE_REFERENCE_INVALID") <==>
                  ReferenceFault(draft, allowed) || ReportedBefore(limitations, draft.limitations, "EVIDENCE_REFERENCE_INVALID"))
            && (Reports(r.output, "AGENT_OUTPUT_MISSING_REQUIRED_SECTIONS") <==>
                  draft.sectionMissing || ReportedBefore(limitations, draft.limitations, "AGENT_OUTPUT_MISSING_REQUIRED_SECTIONS"))
            && (Reports(r.output, "INSUFFICIENT_EVIDENCE") <==>
                  (r.output.conclusions == [] && evidence == [])
                  || ReportedBefore(limitations, draft.limitations, "INSUFFICIENT_EVIDENCE"))
  {
    var draft, allowed := decode(StripJsonFence(content)).value, Allowed(evidence);
    ReferenceFaultIff(draft, allowed);
    var output := FromDraft(m, draft, evidence, toolRuns, limitations);
    assert Parse(decode, m, content, evidence, toolRuns, limitations).output == output by {
      hide StripJsonFence, FromDraft;
    }
    hide *;
    CodesDiffer();
    ReportedFrom(m, draft, evidence, toolRuns, limitations, "EVIDENCE_REFERENCE_INVALID");
    ReportedFrom(m, draft, evidence, toolRuns, limitations, "AGENT_OUTPUT_MISSING_REQUIRED_SECTIONS");
    ReportedFrom(m, draft, evidence, toolRuns, limitations, "INSUFFICIENT_EVIDENCE");
    ParseKeeps(decode, m, content, evidence, toolRuns, limitations);
  }

  lemma ParseKeeps(
      decode: Decoder, m: Messages, content: string,
      evidence: seq<F.EvidenceItem>, toolRuns: seq<F.ToolRun>, limitations: seq<L.Limitation>)
    requires decode(StripJsonFence(content)).Some?
    ensures var r := Parse(decode, m, content, evidence, toolRuns, limitations);
            r.parseSuccess && r.output.toolRuns == toolRuns && limitations <= r.output.limitations
  {
    hide StripJsonFence, Allowed, KeepBound, KeepSaying, KeepLimitations, ReferencesInvalid;
  }

  lemma ReportedFrom(
      m: Messages, draft: Draft, evidence: seq<F.EvidenceItem>, toolRuns: seq<F.ToolRun>, limitations: seq<L.Limitation>, code: string)
    requires code != ""
    ensures var output := FromDraft(m, draft, evidence, toolRuns, limitations);
            Reports(output, code) <==>
            || (draft.sectionMissing && code == "AGENT_OUTPUT_MISSING_REQUIRED_SECTIONS")
            || (ReferencesInvalid(draft, Allowed(evidence)) && code == "EVIDENCE_REFERENCE_INVALID")
            || (output.conclusions == [] && evidence == [] && code == "INSUFFICIENT_EVIDENCE")
            || ReportedBefore(limitations, draft.limitations, code)
  {
    var output := FromDraft(m, draft, evidence, toolRuns, limitations);
    var faulty, empty := ReferencesInvalid(draft, Allowed(evidence)), output.conclusions == [] && evidence == [];
    var missing := L.Limitation("AGENT_OUTPUT_MISSING_REQUIRED_SECTIONS", m.sectionsMissing, "");
    var invalid := L.Limitation("EVIDENCE_REFERENCE_INVALID", m.referenceInvalid, "");
    var nothing := L.Limitation("INSUFFICIENT_EVIDENCE", m.insufficient, "");
    assert output.limitations == limitations + Optional(draft.sectionMissing, missing) + KeepLimitations(draft.limitations)
                                 + Optional(faulty, invalid) + Optional(empty, nothing) by {
      hide Allowed, KeepBound, KeepSaying, KeepLimitations, ReferencesInvalid, Optional;
    }
    assert Reports(output, code) <==> HasCode(output.limitations, code) by {
      hide FromDraft;
    }
    hide *;
    Reported(limitations, draft.limitations, code);
    OptionalHas(draft.sectionMissing, missing, code);
    OptionalHas(faulty, invalid, code);
    OptionalHas(empty, nothing, code);
    FiveParts(limitations, Optional(draft.sectionMissing, missing), KeepLimitations(draft.limitations),
      Optional(faulty, invalid), Optional(empty, nothing), code);
  }

  lemma CodesDiffer()
    ensures "AGENT_OUTPUT_MISSING_REQUIRED_SECTIONS" != "EVIDENCE_REFERENCE_INVALID"
    ensures "EVIDENCE_REFERENCE_INVALID" != "INSUFFICIENT_EVIDENCE"
    ensures "AGENT_OUTPUT_MISSING_REQUIRED_SECTIONS" != "INSUFFICIENT_EVIDENCE"
  {
    assert |"AGENT_OUTPUT_MISSING_REQUIRED_SECTIONS"| == 38 && |"EVIDENCE_REFERENCE_INVALID"| == 26 && |"INSUFFICIENT_EVIDENCE"| == 21;
  }

  lemma OptionalHas(report: bool, l: L.Limitation, code: string)
    ensures HasCode(Optional(report, l), code) <==> report && l.code == code
  {
    assert report ==> Optional(report, l)[0] == l;
  }

  predicate HasCode(ls: seq<L.Limitation>, code: string) {
    exists i :: 0 <= i < |ls| && ls[i].code == code
  }

  lemma HasCodeIn(a: seq<L.Limitation>, b: seq<L.Limitation>, code: string)
    ensures HasCode(a + b, code) <==> HasCode(a, code) || HasCode(b, code)
  {
    var c := a + b;
    assert forall i :: 0 <= i < |a| ==> c[i] == a[i];
    assert forall i :: 0 <= i < |b| ==> c[|a| + i] == b[i];
    if i :| 0 <= i < |b| && b[i].code == code {
      assert c[|a| + i].code == code;
    }
    if i :| 0 <= i < |c| && c[i].code == code {
      assert i < |a| ==> a[i].code == code;
      assert i >= |a| ==> b[i - |a|].code == code;
    }
  }

  lemma FiveParts(
      a: seq<L.Limitation>, b: seq<L.Limitation>, c: seq<L.Limitation>, d: seq<L.Limitation>, e: seq<L.Limitation>, code: string)
    ensures HasCode(a + b + c + d + e, code) <==>
            HasCode(a, code) || HasCode(b, code) || HasCode(c, code) || HasCode(d, code) || HasCode(e, code)
  {
    hide HasCode;
    HasCodeIn(a + b + c + d, e, code);
    HasCodeIn(a + b + c, d, code);
    HasCodeIn(a + b, c, code);
    HasCodeIn(a, b, code);
  }

  lemma Reported(ls: seq<L.Limitation>, stated: seq<L.Limitation>, code: string)
    requires code != ""
    ensures ReportedBefore(ls, stated, code) <==> HasCode(ls, code) || HasCode(KeepLimitations(stated), code)
  {
    StatedCodes(stated, code);
    hide StatesCode, KeepLimitations;
  }

  lemma {:induction false} StatedCodes(stated: seq<L.Limitation>, code: string)
    requires code != ""
    ensures HasCode(KeepLimitations(stated), code) <==> exists i :: 0 <= i < |stated| && StatesCode(stated[i], code)
  {
    hide TrimSpace;
    if stated != [] {
      var init, last := stated[..|stated| - 1], stated[|stated| - 1];
      StatedCodes(init, code);
      var before, now := KeepLimitations(init), KeepLimitations(stated);
      LastCode(last, before, now, code);
      hide KeepLimitations, HasCode, StatesCode;
      if i :| 0 <= i < |init| && StatesCode(init[i], code) {
        assert StatesCode(stated[i], code);
      }
    }
  }

  lemma LastCode(l: L.Limitation, before: seq<L.Limitation>, now: seq<L.Limitation>, code: string)
    requires code != ""
    requires now == if TrimSpace(l.message) == "" then before
                    else before + [L.Limitation(if TrimSpace(l.code) == "" then "AGENT_LIMITATION" else TrimSpace(l.code),
                                                TrimSpace(l.message), TrimSpace(l.tool))]
    ensures HasCode(now, code) <==> HasCode(before, code) || StatesCode(l, code)
  {
    hide TrimSpace;
    if TrimSpace(l.message) != "" {
      var added := L.Limitation(if TrimSpace(l.code) == "" then "AGENT_LIMITATION" else TrimSpace(l.code),
                                TrimSpace(l.message), TrimSpace(l.tool));
      HasCodeIn(before, [added], code);
      assert [added][0] == added;
    }
  }

  lemma ReferenceFaultIff(draft: Draft, allowed: set<string>)
    ensures ReferenceFault(draft, allowed) <==> ReferencesInvalid(draft, allowed)
  {
    forall t: D.Statement ensures Unfounded(t, allowed) <==> Faulty(t, allowed, true) {
      KeptIff(t.evidenceIDs, allowed);
      hide Kept, CitesKnown, CitesUnknown, TrimSpace;
    }
    hide Unfounded, CitesUnknown, Kept;
  }

  /** A text that does not decode leaves nothing but the report of that. */
  lemma UnparsedSaysNothing(
      decode: Decoder, m: Messages, content: string,
      evidence: seq<F.EvidenceItem>, toolRuns: seq<F.ToolRun>, limitations: seq<L.Limitation>)
    requires decode(StripJsonFence(content)).None?
    ensures var r := Parse(decode, m, content, evidence, toolRuns, limitations);
            && !r.parseSuccess && r.output.conclusions == [] && r.output.inferences == [] && r.output.recommendations == []
            && r.output.evidence == evidence && r.output.toolRuns == toolRuns
            && r.output.limitations == limitations + [L.Limitation("AGENT_OUTPUT_PARSE_FAILED", m.parseFailed, "")]
  {
  }

  /** A fenced text is what stands between the line of the opening fence and the closing one. */
  lemma FenceIsStripped(content: string, front: string, language: string, body: string, back: string)
    requires content == front + "```" + language + "\n" + body + "```" + back
    requires AllSpaces(front) && AllSpaces(back) && '\n' !in language
    ensures StripJsonFence(content) == TrimSpace(body)
  {
    var c := "```" + language + "\n" + body + "```";
    assert content == front + c + back;
    assert c[0] == '`' && c[|c| - 1] == '`';
    TrimSpaceIsTheCore(content, front, c, back);
    hide TrimSpace;
    var n := 3 + |language|;
    assert c[n] == '\n' && c[..n] == "```" + language;
    LineBreakAt(c, n);
    assert c[n + 1..] == body + "```";
    BodyBeforeFence(body);
  }

  lemma {:induction false} LineBreakAt(c: string, n: nat)
    requires n < |c| && c[n] == '\n' && '\n' !in c[..n]
    ensures IndexOf(c, '\n') == Some(n)
  {
    if n > 0 {
      assert c[..n] == [c[0]] + c[1..][..n - 1];
      LineBreakAt(c[1..], n - 1);
    }
  }

  lemma BodyBeforeFence(body: string)
    ensures TrimSpace(TrimSuffix(TrimSpace(body + "```"), "```")) == TrimSpace(body)
  {
    TrimLeftKeeps(body);
    var l := TrimLeft(body);
    var front := body[..|body| - |l|];
    var core := l + "```";
    assert body + "```" == front + core + "";
    TrimSpaceIsTheCore(body + "```", front, core, "");
    assert core[|core| - 3..] == "```" && core[..|core| - 3] == l;
    assert TrimLeft(l) == l;
  }

  // ---- Repair ------------------------------------------------------------------------------------------------

  /**
   An object with trailing commas gives the very answer it gives without them, if no bracket has
   two; otherwise it is not parsed at all.
   */
  lemma TrailingCommasAreForgivenIff(
      decode: Decoder, accepts: string -> bool, m: Messages, n: J.Node,
      evidence: seq<F.EvidenceItem>, toolRuns: seq<F.ToolRun>, limitations: seq<L.Limitation>)
    requires n.Container? && n.isObject && J.WellFormed(n) && !J.NoTrailing(n)
    requires forall s :: accepts(s) <==> J.IsJson(s)
    requires forall s :: decode(s).Some? ==> accepts(s)
    ensures var dirty := ParseControlled(decode, accepts, true, m, J.Render(n, true), evidence, toolRuns, limitations);
            var clean := Parse(decode, m, J.Render(n, false), evidence, toolRuns, limitations);
            if J.AtMostOne(n) then dirty == clean.(repairAttempted := true, repairSuccess := clean.parseSuccess)
            else !dirty.parseSuccess && dirty.repairAttempted && !dirty.repairSuccess
  {
    hide J.Render, J.IsJson, J.WellFormed, J.NoTrailing, J.AtMostOne, O.RepairJson, FromDraft;
    var content := J.Render(n, true);
    ObjectHasNoFence(n, true);
    J.IsJsonIffNoTrailing(n);
    assert O.ValidJson(accepts, content) == accepts(content);
    assert "" + content + "" == content;
    NoProse(content);
    O.RepairSucceedsIff(accepts, n, "", "");
  }

  lemma NoProse(obj: string)
    ensures O.BraceFree("") && O.FenceSpares("", obj, "")
  {
  }

  lemma ObjectHasNoFence(n: J.Node, commas: bool)
    requires n.Container? && n.isObject && J.WellFormed(n)
    ensures StripJsonFence(J.Render(n, commas)) == J.Render(n, commas) == TrimSpace(J.Render(n, commas))
  {
    hide J.Render, J.WellFormed;
    var s := J.Render(n, commas);
    O.RenderedObjectText(n, commas);
    TrimSpaceTrims(s);
    assert s[0] == '{';
  }
}
