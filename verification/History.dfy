/**
 The evaluation of a finished turn (internal/agent/control/state.go and Evaluate in
 controller.go): the history of tool runs is summed up, and the sums decide about a fallback.
 */
module History {

  import opened Text
  import Aggregate
  import Budget
  import Fingerprint

  datatype ToolRun = ToolRun(
    tool: string, normalizedArguments: string, success: bool, errorCode: string, evidenceCount: int)

  datatype State = State(
    toolCallCount: nat, successfulToolCount: nat, failedToolCount: nat, consecutiveToolFailures: nat,
    repeatedToolCallSignature: string, repeatedToolCallCount: nat, evidenceCount: int, limitationsCount: int,
    elapsed: int, outputParseSuccess: bool, missingRequiredSections: bool, maxIterationsReachedLikely: bool)

  /** strconv.Itoa. */
  function Itoa(n: int): string {
    if n < 0 then "-" + Aggregate.Decimal(-n) else Aggregate.Decimal(n)
  }

  function Signature(codec: Fingerprint.Codec, run: ToolRun): string {
    var tool := TrimSpace(run.tool);
    if tool == "" then ""
    else if TrimSpace(run.normalizedArguments) != "" then
      Fingerprint.ToolCallFingerprint(codec, tool, run.normalizedArguments)
    else tool + "|legacy|" + TrimSpace(run.errorCode) + "|" + Itoa(run.evidenceCount)
  }

  lemma ItoaIsInjective(m: int, n: int)
    ensures Itoa(m) == Itoa(n) <==> m == n
  {
    ItoaShape(m);
    ItoaShape(n);
    hide Itoa, Aggregate.Decimal;
    if Itoa(m) == Itoa(n) {
      assert m < 0 <==> n < 0;
      var s := if m < 0 then Itoa(m)[1..] else Itoa(m);
      Aggregate.DecimalIsRead(if m < 0 then -m else m);
      Aggregate.DecimalIsRead(if n < 0 then -n else n);
    }
  }

  lemma ItoaShape(n: int)
    ensures Itoa(n) != "" && (Itoa(n)[0] == '-' <==> n < 0)
    ensures if n < 0 then Itoa(n)[1..] == Aggregate.Decimal(-n) else Itoa(n) == Aggregate.Decimal(n)
  {
    FirstDigit(if n < 0 then -n else n);
    hide Aggregate.Decimal;
    assert n < 0 ==> Itoa(n)[1..] == Aggregate.Decimal(-n);
  }

  lemma {:induction false} FirstDigit(n: nat)
    ensures '0' <= Aggregate.Decimal(n)[0] <= '9'
  {
    if n >= 10 {
      FirstDigit(n / 10);
    }
  }

  /** A run without recorded arguments. */
  predicate Legacy(run: ToolRun) {
    TrimSpace(run.tool) != "" && TrimSpace(run.normalizedArguments) == ""
  }

  /** Runs are told apart by name and arguments; without arguments, by name, error and evidence. */
  lemma SignaturesTell(codec: Fingerprint.Codec, a: ToolRun, b: ToolRun)
    ensures Signature(codec, a) == "" <==> TrimSpace(a.tool) == ""
    ensures TrimSpace(a.tool) != "" && !Legacy(a) ==>
              Signature(codec, a) == Fingerprint.ToolCallFingerprint(codec, TrimSpace(a.tool), a.normalizedArguments)
    ensures Legacy(a) && Legacy(b) && NoBars(a) && NoBars(b) ==>
              (Signature(codec, a) == Signature(codec, b) <==>
                 TrimSpace(a.tool) == TrimSpace(b.tool) && TrimSpace(a.errorCode) == TrimSpace(b.errorCode)
                 && a.evidenceCount == b.evidenceCount)
  {
    TrimSpaceTrims(a.tool);
    if Legacy(a) && Legacy(b) {
      LegacyText(codec, a);
      LegacyText(codec, b);
      hide Signature, TrimSpace, Itoa, Fingerprint.ToolCallFingerprint;
      var x, y := Rest(a), Rest(b);
      JoinedEqualIff(TrimSpace(a.tool), "legacy|" + x, TrimSpace(b.tool), "legacy|" + y, '|');
      assert ("legacy|" + x)[7..] == x && ("legacy|" + y)[7..] == y;
      JoinedEqualIff(TrimSpace(a.errorCode), Itoa(a.evidenceCount), TrimSpace(b.errorCode), Itoa(b.evidenceCount), '|');
      ItoaIsInjective(a.evidenceCount, b.evidenceCount);
    }
  }

  predicate NoBars(run: ToolRun) {
    '|' !in TrimSpace(run.tool) && '|' !in TrimSpace(run.errorCode)
  }

  function Rest(run: ToolRun): string {
    TrimSpace(run.errorCode) + ['|'] + Itoa(run.evidenceCount)
  }

  lemma LegacyText(codec: Fingerprint.Codec, run: ToolRun)
    requires Legacy(run)
    ensures Signature(codec, run) == TrimSpace(run.tool) + ['|'] + ("legacy|" + Rest(run))
  {
    hide TrimSpace, Itoa;
    var t, c, i := TrimSpace(run.tool), TrimSpace(run.errorCode), Itoa(run.evidenceCount);
    assert t + "|legacy|" + c + "|" + i == t + ['|'] + ("legacy|" + (c + ['|'] + i));
  }

  function Successes(runs: seq<ToolRun>): (n: nat)
    ensures n <= |runs|
  {
    if runs == [] then 0
    else Successes(runs[..|runs| - 1]) + (if runs[|runs| - 1].success then 1 else 0)
  }

  /** How often a signature occurs. */
  function Multiplicity(codec: Fingerprint.Codec, runs: seq<ToolRun>, signature: string): (n: nat)
    ensures n <= |runs|
  {
    if runs == [] then 0
    else
      Multiplicity(codec, runs[..|runs| - 1], signature)
      + (if Signature(codec, runs[|runs| - 1]) == signature then 1 else 0)
  }

  function Places(runs: seq<ToolRun>, p: ToolRun -> bool): set<nat> {
    set i | 0 <= i < |runs| && p(runs[i])
  }

  lemma PlacesGrow(runs: seq<ToolRun>, p: ToolRun -> bool)
    requires runs != []
    ensures var n := |runs| - 1;
            |Places(runs, p)| == |Places(runs[..n], p)| + (if p(runs[n]) then 1 else 0)
  {
    var n := |runs| - 1;
    var before := Places(runs[..n], p);
    assert Places(runs, p) == if p(runs[n]) then before + {n} else before;
  }

  /** Both counts are numbers of runs. */
  lemma {:induction false} CountsAreNumbersOfRuns(codec: Fingerprint.Codec, runs: seq<ToolRun>, signature: string)
    ensures Successes(runs) == |Places(runs, (run: ToolRun) => run.success)|
    ensures Multiplicity(codec, runs, signature) == |Places(runs, (run: ToolRun) => Signature(codec, run) == signature)|
  {
    var won: ToolRun -> bool := (run: ToolRun) => run.success;
    var made: ToolRun -> bool := (run: ToolRun) => Signature(codec, run) == signature;
    if runs == [] {
      assert Places(runs, won) == {} && Places(runs, made) == {};
    } else {
      PlacesGrow(runs, won);
      PlacesGrow(runs, made);
      CountsAreNumbersOfRuns(codec, runs[..|runs| - 1], signature);
      hide Places, Signature;
    }
  }

  /** The last k runs all failed. */
  predicate LastFailed(runs: seq<ToolRun>, k: nat)
    requires k <= |runs|
  {
    forall i :: |runs| - k <= i < |runs| ==> !runs[i].success
  }

  /** No named signature occurs more than n times, and one does occur n times if n > 0. */
  ghost predicate IsMaximum(codec: Fingerprint.Codec, runs: seq<ToolRun>, signature: string, n: nat) {
    && (forall s :: s != "" ==> Multiplicity(codec, runs, s) <= n)
    && (n > 0 ==> signature != "" && Multiplicity(codec, runs, signature) == n)
    && (n == 0 ==> signature == "")
  }

  /** The signature was the first to occur n times. */
  ghost predicate ReachedFirst(codec: Fingerprint.Codec, runs: seq<ToolRun>, signature: string, n: nat) {
    exists i :: ReachedAt(codec, runs, signature, n, i)
  }

  ghost predicate ReachedAt(codec: Fingerprint.Codec, runs: seq<ToolRun>, signature: string, n: nat, i: int) {
    && 0 <= i < |runs| && Multiplicity(codec, runs[..i + 1], signature) == n
    && forall s :: s != "" ==> Multiplicity(codec, runs[..i], s) < n
  }

  method BuildState(
      codec: Fingerprint.Codec, toolRuns: seq<ToolRun>, evidenceCount: int, limitationsCount: int, elapsed: int,
      outputParseSuccess: bool, missingRequiredSections: bool, maxIterations: int)
      returns (state: State)
    ensures state.toolCallCount == |toolRuns| == state.successfulToolCount + state.failedToolCount
    ensures state.successfulToolCount == Successes(toolRuns)
    ensures state.consecutiveToolFailures <= |toolRuns|
    ensures forall k: nat :: k <= |toolRuns| ==> (k <= state.consecutiveToolFailures <==> LastFailed(toolRuns, k))
    ensures IsMaximum(codec, toolRuns, state.repeatedToolCallSignature, state.repeatedToolCallCount)
    ensures state.repeatedToolCallCount > 0 ==>
              ReachedFirst(codec, toolRuns, state.repeatedToolCallSignature, state.repeatedToolCallCount)
    ensures state.maxIterationsReachedLikely <==> 0 < maxIterations <= |toolRuns|
    ensures state.evidenceCount == evidenceCount && state.limitationsCount == limitationsCount && state.elapsed == elapsed
    ensures state.outputParseSuccess == outputParseSuccess && state.missingRequiredSections == missingRequiredSections
  {
    hide Signature, IsMaximum, ReachedFirst;
    var successful, failed, consecutive: nat := 0, 0, 0;
    var repeatedSignature, repeated: nat := "", 0;
    var signatureCounts: map<string, nat> := map[];
    NoRuns(codec);
    assert toolRuns[..0] == [];
    for i := 0 to |toolRuns|
      invariant successful == Successes(toolRuns[..i]) && successful + failed == i
      invariant consecutive <= i
      invariant forall k :: i - consecutive <= k < i ==> !toolRuns[k].success
      invariant consecutive < i ==> toolRuns[i - consecutive - 1].success
      invariant forall s :: s != "" ==> Budget.CountOf(signatureCounts, s) == Multiplicity(codec, toolRuns[..i], s)
      invariant IsMaximum(codec, toolRuns[..i], repeatedSignature, repeated)
      invariant repeated > 0 ==> ReachedFirst(codec, toolRuns[..i], repeatedSignature, repeated)
    {
      assert toolRuns[..i + 1][..i] == toolRuns[..i];
      var run := toolRuns[i];
      if run.success {
        successful, consecutive := successful + 1, 0;
      } else {
        failed, consecutive := failed + 1, consecutive + 1;
      }
      var signature := Signature(codec, run);
      OneMoreRun(codec, toolRuns, i, repeatedSignature, repeated);
      if signature == "" {
        continue;
      }
      signatureCounts := signatureCounts[signature := Budget.CountOf(signatureCounts, signature) + 1];
      if signatureCounts[signature] > repeated {
        repeated := signatureCounts[signature];
        repeatedSignature := signature;
      }
    }
    assert toolRuns[..|toolRuns|] == toolRuns;
    LongestSuffix(toolRuns, consecutive);
    state := State(|toolRuns|, successful, failed, consecutive, repeatedSignature, repeated, evidenceCount, limitationsCount,
      elapsed, outputParseSuccess, missingRequiredSections, maxIterations > 0 && |toolRuns| >= maxIterations);
  }

  lemma NoRuns(codec: Fingerprint.Codec)
    ensures IsMaximum(codec, [], "", 0)
  {
  }

  lemma LongestSuffix(runs: seq<ToolRun>, n: nat)
    requires n <= |runs| && LastFailed(runs, n)
    requires n < |runs| ==> runs[|runs| - n - 1].success
    ensures forall k: nat :: k <= |runs| ==> (k <= n <==> LastFailed(runs, k))
  {
  }

  /** What one more run does to the maximum. */
  lemma OneMoreRun(codec: Fingerprint.Codec, runs: seq<ToolRun>, i: nat, signature: string, n: nat)
    requires i < |runs| && IsMaximum(codec, runs[..i], signature, n)
    requires n > 0 ==> ReachedFirst(codec, runs[..i], signature, n)
    ensures var s := Signature(codec, runs[i]);
            var now := Multiplicity(codec, runs[..i], s) + 1;
            && (s == "" || now <= n ==>
                  && IsMaximum(codec, runs[..i + 1], signature, n)
                  && (n > 0 ==> ReachedFirst(codec, runs[..i + 1], signature, n)))
            && (s != "" && now > n ==> IsMaximum(codec, runs[..i + 1], s, now) && ReachedFirst(codec, runs[..i + 1], s, now))
            && (forall t :: Multiplicity(codec, runs[..i + 1], t) == Multiplicity(codec, runs[..i], t) + if t == s then 1 else 0)
  {
    hide Signature, Multiplicity, ReachedFirst, IsMaximum;
    var s := Signature(codec, runs[i]);
    var now := Multiplicity(codec, runs[..i], s) + 1;
    MultiplicityStep(codec, runs, i);
    if n > 0 {
      StillReachedFirst(codec, runs, i, signature, n);
    }
    MaximumStep(codec, runs[..i], runs[..i + 1], s, signature, n);
    if s != "" && now > n {
      BelowMaximum(codec, runs[..i], signature, n, now);
      assert runs[..i + 1][..i + 1] == runs[..i + 1] && runs[..i + 1][..i] == runs[..i];
      ReachedNow(codec, runs[..i + 1], s, now, i);
    }
  }

  lemma MultiplicityStep(codec: Fingerprint.Codec, runs: seq<ToolRun>, i: nat)
    requires i < |runs|
    ensures forall t :: Multiplicity(codec, runs[..i + 1], t)
                        == Multiplicity(codec, runs[..i], t) + if t == Signature(codec, runs[i]) then 1 else 0
  {
    hide Signature;
    assert runs[..i + 1][..i] == runs[..i];
  }

  lemma MaximumStep(
      codec: Fingerprint.Codec, before: seq<ToolRun>, after: seq<ToolRun>, s: string, signature: string, n: nat)
    requires IsMaximum(codec, before, signature, n)
    requires forall t :: Multiplicity(codec, after, t) == Multiplicity(codec, before, t) + if t == s then 1 else 0
    ensures var now := Multiplicity(codec, before, s) + 1;
            && (s == "" || now <= n ==> IsMaximum(codec, after, signature, n))
            && (s != "" && now > n ==> IsMaximum(codec, after, s, now))
  {
    hide Multiplicity;
  }

  lemma BelowMaximum(codec: Fingerprint.Codec, runs: seq<ToolRun>, signature: string, n: nat, above: nat)
    requires IsMaximum(codec, runs, signature, n) && n < above
    ensures forall s :: s != "" ==> Multiplicity(codec, runs, s) < above
  {
    hide Multiplicity;
  }

  lemma StillReachedFirst(codec: Fingerprint.Codec, runs: seq<ToolRun>, i: nat, signature: string, n: nat)
    requires i < |runs| && ReachedFirst(codec, runs[..i], signature, n)
    ensures ReachedFirst(codec, runs[..i + 1], signature, n)
  {
    hide Multiplicity;
    var before, after := runs[..i], runs[..i + 1];
    var j :| ReachedAt(codec, before, signature, n, j);
    assert after[..j + 1] == before[..j + 1] && after[..j] == before[..j];
    assert ReachedAt(codec, after, signature, n, j);
  }

  lemma ReachedNow(codec: Fingerprint.Codec, runs: seq<ToolRun>, signature: string, n: nat, i: nat)
    requires i < |runs| && Multiplicity(codec, runs[..i + 1], signature) == n
    requires forall s :: s != "" ==> Multiplicity(codec, runs[..i], s) < n
    ensures ReachedFirst(codec, runs, signature, n)
  {
    assert ReachedAt(codec, runs, signature, n, i);
  }

  // ---- Evaluation ------------------------------------------------------------------------------

  /** What can be wrong with a turn. */
  datatype Reason =
    | InvalidFinalJson
    | MissingRequiredSections
    | MaxToolCallsExceeded
    | ConsecutiveToolFailures
    | RepeatedToolCall
    | MaxIterationsReached
    | TotalExecutionTimeout
    | EmptyEvidence

  function Code(reason: Reason): string {
    match reason
    case InvalidFinalJson => "AGENT_OUTPUT_PARSE_FAILED"
    case MissingRequiredSections => "AGENT_OUTPUT_MISSING_REQUIRED_SECTIONS"
    case MaxToolCallsExceeded => "AGENT_MAX_TOOL_CALLS_EXCEEDED"
    case ConsecutiveToolFailures => "AGENT_CONSECUTIVE_TOOL_FAILURES"
    case RepeatedToolCall => "AGENT_REPEATED_TOOL_CALL"
    case MaxIterationsReached => "AGENT_MAX_ITERATIONS_REACHED"
    case TotalExecutionTimeout => "AGENT_TOTAL_EXECUTION_TIMEOUT"
    case EmptyEvidence => "INSUFFICIENT_EVIDENCE"
  }

  /** No reason is the source's empty failure reason; limitations are given by their codes. */
  datatype Evaluation = Evaluation(
    failureReason: Option<Reason>, stopReason: Budget.StopReason, shouldFallback: bool, controlled: bool, limitations: seq<string>)

  function Given(reasons: seq<Reason>, condition: bool, reason: Reason): seq<Reason> {
    if condition then reasons + [reason] else reasons
  }

  /** What is wrong, in order of precedence. */
  function Faults(config: Budget.Config, s: State): seq<Reason> {
    var f1 := Given([], !s.outputParseSuccess, InvalidFinalJson);
    var f2 := Given(f1, s.missingRequiredSections, MissingRequiredSections);
    var f3 := Given(f2, s.toolCallCount > config.maxToolCalls, MaxToolCallsExceeded);
    var f4 := Given(f3, s.consecutiveToolFailures >= config.maxConsecutiveToolFailures, ConsecutiveToolFailures);
    var f5 := Given(f4, config.enableRepeatedToolDetection && s.repeatedToolCallCount > config.maxRepeatedToolCalls, RepeatedToolCall);
    var f6 := Given(f5, s.maxIterationsReachedLikely, MaxIterationsReached);
    var f7 := Given(f6, s.elapsed > config.totalExecutionTimeout, TotalExecutionTimeout);
    Given(f7, s.evidenceCount == 0, EmptyEvidence)
  }

  /** The condition under which a reason is given. */
  predicate Applies(config: Budget.Config, s: State, reason: Reason) {
    match reason
    case InvalidFinalJson => !s.outputParseSuccess
    case MissingRequiredSections => s.missingRequiredSections
    case MaxToolCallsExceeded => s.toolCallCount > config.maxToolCalls
    case ConsecutiveToolFailures => s.consecutiveToolFailures >= config.maxConsecutiveToolFailures
    case RepeatedToolCall => config.enableRepeatedToolDetection && s.repeatedToolCallCount > config.maxRepeatedToolCalls
    case MaxIterationsReached => s.maxIterationsReachedLikely
    case TotalExecutionTimeout => s.elapsed > config.totalExecutionTimeout
    case EmptyEvidence => s.evidenceCount == 0
  }

  function Precedence(reason: Reason): nat {
    match reason
    case InvalidFinalJson => 0
    case MissingRequiredSections => 1
    case MaxToolCallsExceeded => 2
    case ConsecutiveToolFailures => 3
    case RepeatedToolCall => 4
    case MaxIterationsReached => 5
    case TotalExecutionTimeout => 6
    case EmptyEvidence => 7
  }

  /** All reasons below this precedence that apply, each once, in order. */
  predicate Lists(config: Budget.Config, s: State, reasons: seq<Reason>, below: nat) {
    && (forall r :: r in reasons <==> Applies(config, s, r) && Precedence(r) < below)
    && forall i, j :: 0 <= i < j < |reasons| ==> Precedence(reasons[i]) < Precedence(reasons[j])
  }

  lemma ListsOneMore(config: Budget.Config, s: State, reasons: seq<Reason>, reason: Reason)
    requires Lists(config, s, reasons, Precedence(reason))
    ensures Lists(config, s, Given(reasons, Applies(config, s, reason), reason), Precedence(reason) + 1)
  {
    hide Applies;
    var more := Given(reasons, Applies(config, s, reason), reason);
    assert forall r :: Precedence(r) == Precedence(reason) ==> r == reason;
    assert forall i :: 0 <= i < |reasons| ==> reasons[i] in reasons;
  }

  /** The faults are exactly the reasons that apply, in order of precedence. */
  lemma FaultsAre(config: Budget.Config, s: State)
    ensures Lists(config, s, Faults(config, s), 8)
  {
    hide Given, Lists;
    NothingListed(config, s);
    var f1 := Given([], Applies(config, s, InvalidFinalJson), InvalidFinalJson);
    ListsOneMore(config, s, [], InvalidFinalJson);
    var f2 := Given(f1, Applies(config, s, MissingRequiredSections), MissingRequiredSections);
    ListsOneMore(config, s, f1, MissingRequiredSections);
    var f3 := Given(f2, Applies(config, s, MaxToolCallsExceeded), MaxToolCallsExceeded);
    ListsOneMore(config, s, f2, MaxToolCallsExceeded);
    var f4 := Given(f3, Applies(config, s, ConsecutiveToolFailures), ConsecutiveToolFailures);
    ListsOneMore(config, s, f3, ConsecutiveToolFailures);
    var f5 := Given(f4, Applies(config, s, RepeatedToolCall), RepeatedToolCall);
    ListsOneMore(config, s, f4, RepeatedToolCall);
    var f6 := Given(f5, Applies(config, s, MaxIterationsReached), MaxIterationsReached);
    ListsOneMore(config, s, f5, MaxIterationsReached);
    var f7 := Given(f6, Applies(config, s, TotalExecutionTimeout), TotalExecutionTimeout);
    ListsOneMore(config, s, f6, TotalExecutionTimeout);
    ListsOneMore(config, s, f7, EmptyEvidence);
  }

  lemma NothingListed(config: Budget.Config, s: State)
    ensures Lists(config, s, [], 0)
  {
  }

  /** The first of the reasons that apply. */
  predicate IsFirstReason(config: Budget.Config, s: State, reason: Reason) {
    Applies(config, s, reason) && forall r :: Applies(config, s, r) ==> Precedence(reason) <= Precedence(r)
  }

  lemma FirstFault(config: Budget.Config, s: State, reason: Reason)
    ensures Faults(config, s) != [] && Faults(config, s)[0] == reason <==> IsFirstReason(config, s, reason)
  {
    FaultsAre(config, s);
    hide Faults, Applies;
    var faults := Faults(config, s);
    assert forall i :: 0 <= i < |faults| ==> faults[i] in faults;
    assert forall r :: Applies(config, s, r) ==> r in faults;
    assert forall r :: Precedence(r) == Precedence(reason) ==> r == reason;
  }

  /** Different reasons are reported under different codes. */
  lemma CodesDiffer(a: Reason, b: Reason)
    ensures Code(a) == Code(b) <==> a == b
  {
    CodeShape(a);
    CodeShape(b);
    hide Code;
  }

  lemma CodeShape(a: Reason)
    ensures var code := Code(a);
            && |code| == (match a case InvalidFinalJson => 25 case MissingRequiredSections => 38 case MaxToolCallsExceeded => 29
                                  case ConsecutiveToolFailures => 31 case RepeatedToolCall => 24 case MaxIterationsReached => 28
                                  case TotalExecutionTimeout => 29 case EmptyEvidence => 21)
            && (code[6] == 'T' <==> a == TotalExecutionTimeout)
  {
  }

  predicate FallbackRequired(config: Budget.Config, s: State) {
    || !s.outputParseSuccess
    || s.toolCallCount > config.maxToolCalls
    || s.consecutiveToolFailures >= config.maxConsecutiveToolFailures
    || s.elapsed > config.totalExecutionTimeout
  }

  function StopReasonForFailure(reason: Option<Reason>): Budget.StopReason {
    match reason
    case Some(MaxToolCallsExceeded) => Budget.ToolBudgetExceeded
    case Some(ConsecutiveToolFailures) => Budget.ToolFailure
    case Some(RepeatedToolCall) => Budget.RepeatedToolCall
    case Some(MaxIterationsReached) => Budget.MaxStepsReached
    case Some(TotalExecutionTimeout) => Budget.Timeout
    case Some(InvalidFinalJson) => Budget.ModelFailure
    case Some(MissingRequiredSections) => Budget.ModelFailure
    case _ => Budget.Running
  }

  /** The evaluation that these reasons amount to. */
  ghost predicate Reflects(e: Evaluation, reasons: seq<Reason>) {
    && |e.limitations| == |reasons|
    && (forall i :: 0 <= i < |reasons| ==> e.limitations[i] == Code(reasons[i]))
    && e.failureReason == (if reasons == [] then None else Some(reasons[0]))
    && (e.controlled <==> reasons != [])
  }

  method AddControlled(condition: bool, e: Evaluation, reason: Reason, fallback: bool, ghost reasons: seq<Reason>)
      returns (r: Evaluation)
    requires Reflects(e, reasons)
    ensures Reflects(r, Given(reasons, condition, reason))
    ensures r.shouldFallback <==> e.shouldFallback || (condition && fallback)
    ensures r.stopReason == e.stopReason
  {
    hide Code;
    r := e;
    if condition {
      r := e.(failureReason := if e.failureReason.None? then Some(reason) else e.failureReason,
              controlled := true,
              shouldFallback := e.shouldFallback || fallback,
              limitations := e.limitations + [Code(reason)]);
    }
  }

  lemma ReasonsReported(config: Budget.Config, s: State, e: Evaluation)
    requires Reflects(e, Faults(config, s))
    ensures forall r :: Code(r) in e.limitations <==> Applies(config, s, r)
    ensures forall r :: e.failureReason == Some(r) <==> IsFirstReason(config, s, r)
  {
    FaultsAre(config, s);
    hide Faults, Code, Applies, IsFirstReason;
    var faults := Faults(config, s);
    forall r ensures Code(r) in e.limitations <==> Applies(config, s, r) {
      if Applies(config, s, r) {
        var i :| 0 <= i < |faults| && faults[i] == r;
        assert e.limitations[i] == Code(r);
      }
      if Code(r) in e.limitations {
        var i :| 0 <= i < |e.limitations| && e.limitations[i] == Code(r);
        CodesDiffer(r, faults[i]);
        assert faults[i] in faults;
      }
    }
    forall r ensures e.failureReason == Some(r) <==> IsFirstReason(config, s, r) {
      FirstFault(config, s, r);
    }
  }

  /** The reason a turn is stopped for is that of its failure; empty evidence stops nothing. */
  predicate StopReasonTells(e: Evaluation) {
    && (e.stopReason == Budget.Timeout <==> e.failureReason == Some(TotalExecutionTimeout))
    && (e.stopReason == Budget.ToolBudgetExceeded <==> e.failureReason == Some(MaxToolCallsExceeded))
    && (e.stopReason == Budget.RepeatedToolCall <==> e.failureReason == Some(RepeatedToolCall))
    && (e.stopReason == Budget.MaxStepsReached <==> e.failureReason == Some(MaxIterationsReached))
    && (e.stopReason == Budget.ToolFailure <==> e.failureReason == Some(ConsecutiveToolFailures))
    && (e.stopReason == Budget.ModelFailure <==> e.failureReason in {Some(InvalidFinalJson), Some(MissingRequiredSections)})
    && (e.stopReason == Budget.Running <==> e.failureReason in {None, Some(EmptyEvidence)})
  }

  lemma StopReasonFollows(e: Evaluation)
    requires e.stopReason == StopReasonForFailure(e.failureReason)
    ensures StopReasonTells(e)
  {
  }

  /** A fallback is required for exactly four of the reasons, and an evaluation is controlled when it has any. */
  method Evaluate(config: Budget.Config, s: State) returns (e: Evaluation)
    ensures Reflects(e, Faults(config, s))
    ensures e.shouldFallback <==> FallbackRequired(config, s)
    ensures e.controlled <==> e.failureReason.Some?
    ensures e.controlled <==> e.limitations != []
    ensures e.stopReason == StopReasonForFailure(e.failureReason)
    ensures forall r :: Code(r) in e.limitations <==> Applies(config, s, r)
    ensures forall r :: e.failureReason == Some(r) <==> IsFirstReason(config, s, r)
    ensures StopReasonTells(e)
  {
    hide Code, Given, Lists, Applies, IsFirstReason, StopReasonTells;
    e := Evaluation(None, Budget.Running, false, false, []);
    ghost var reasons: seq<Reason> := [];
    e := AddControlled(!s.outputParseSuccess, e, InvalidFinalJson, true, reasons);
    reasons := Given(reasons, !s.outputParseSuccess, InvalidFinalJson);
    e := AddControlled(s.missingRequiredSections, e, MissingRequiredSections, false, reasons);
    reasons := Given(reasons, s.missingRequiredSections, MissingRequiredSections);
    e := AddControlled(s.toolCallCount > config.maxToolCalls, e, MaxToolCallsExceeded, true, reasons);
    reasons := Given(reasons, s.toolCallCount > config.maxToolCalls, MaxToolCallsExceeded);
    e := AddControlled(s.consecutiveToolFailures >= config.maxConsecutiveToolFailures, e, ConsecutiveToolFailures, true, reasons);
    reasons := Given(reasons, s.consecutiveToolFailures >= config.maxConsecutiveToolFailures, ConsecutiveToolFailures);
    e := AddControlled(config.enableRepeatedToolDetection && s.repeatedToolCallCount > config.maxRepeatedToolCalls, e, RepeatedToolCall, false, reasons);
    reasons := Given(reasons, config.enableRepeatedToolDetection && s.repeatedToolCallCount > config.maxRepeatedToolCalls, RepeatedToolCall);
    e := AddControlled(s.maxIterationsReachedLikely, e, MaxIterationsReached, false, reasons);
    reasons := Given(reasons, s.maxIterationsReachedLikely, MaxIterationsReached);
    e := AddControlled(s.elapsed > config.totalExecutionTimeout, e, TotalExecutionTimeout, true, reasons);
    reasons := Given(reasons, s.elapsed > config.totalExecutionTimeout, TotalExecutionTimeout);
    e := AddControlled(s.evidenceCount == 0, e, EmptyEvidence, false, reasons);
    reasons := Given(reasons, s.evidenceCount == 0, EmptyEvidence);
    e := e.(stopReason := StopReasonForFailure(e.failureReason));
    assert Reflects(e, Faults(config, s));
    hide Faults, Reflects, FallbackRequired, StopReasonForFailure;
    StopReasonFollows(e);
    ReasonsReported(config, s, e);
  }

  /** A finished turn. */
  datatype Turn = Turn(
    toolRuns: seq<ToolRun>, evidenceCount: int, elapsed: int, outputParseSuccess: bool, missingRequiredSections: bool,
    maxIterations: int)
  {
    /** What is wrong with it, told by its runs. */
    ghost predicate Has(config: Budget.Config, codec: Fingerprint.Codec, reason: Reason) {
      match reason
      case InvalidFinalJson => !outputParseSuccess
      case MissingRequiredSections => missingRequiredSections
      case MaxToolCallsExceeded => |toolRuns| > config.maxToolCalls
      case ConsecutiveToolFailures =>
        0 <= config.maxConsecutiveToolFailures <= |toolRuns| && LastFailed(toolRuns, config.maxConsecutiveToolFailures)
      case RepeatedToolCall => config.enableRepeatedToolDetection && !NoneExceeds(codec, toolRuns, config.maxRepeatedToolCalls)
      case MaxIterationsReached => 0 < maxIterations <= |toolRuns|
      case TotalExecutionTimeout => elapsed > config.totalExecutionTimeout
      case EmptyEvidence => evidenceCount == 0
    }
  }

  /** The whole evaluation, told by the runs themselves (react_runner.go:240-249). */
  method EvaluateTurn(
      config: Budget.Config, codec: Fingerprint.Codec, toolRuns: seq<ToolRun>, evidenceCount: int, limitationsCount: int,
      elapsed: int, outputParseSuccess: bool, missingRequiredSections: bool, maxIterations: int)
      returns (e: Evaluation)
    requires config.Positive()
    ensures e.shouldFallback <==>
              || !outputParseSuccess
              || |toolRuns| > config.maxToolCalls
              || (config.maxConsecutiveToolFailures <= |toolRuns| && LastFailed(toolRuns, config.maxConsecutiveToolFailures))
              || elapsed > config.totalExecutionTimeout
    ensures var turn := Turn(toolRuns, evidenceCount, elapsed, outputParseSuccess, missingRequiredSections, maxIterations);
            && (forall r :: Code(r) in e.limitations <==> turn.Has(config, codec, r))
            && (forall r :: e.failureReason == Some(r) <==>
                  turn.Has(config, codec, r) && forall q :: turn.Has(config, codec, q) ==> Precedence(r) <= Precedence(q))
    ensures StopReasonTells(e)
    ensures !e.controlled <==>
              && outputParseSuccess && !missingRequiredSections
              && |toolRuns| <= config.maxToolCalls && !(0 < maxIterations <= |toolRuns|)
              && !(config.maxConsecutiveToolFailures <= |toolRuns| && LastFailed(toolRuns, config.maxConsecutiveToolFailures))
              && (config.enableRepeatedToolDetection ==> NoneExceeds(codec, toolRuns, config.maxRepeatedToolCalls))
              && elapsed <= config.totalExecutionTimeout && evidenceCount != 0
  {
    hide Signature, Multiplicity, ReachedFirst, Successes, IsMaximum, NoneExceeds, Code, StopReasonForFailure;
    var state := BuildState(codec, toolRuns, evidenceCount, limitationsCount, elapsed, outputParseSuccess,
      missingRequiredSections, maxIterations);
    e := Evaluate(config, state);
    FaultsOf(config, state);
    var k := config.maxConsecutiveToolFailures;
    assert k <= state.consecutiveToolFailures <==> k <= |toolRuns| && LastFailed(toolRuns, k);
    MaximumWithin(codec, toolRuns, state.repeatedToolCallSignature, state.repeatedToolCallCount, config.maxRepeatedToolCalls);
    ghost var turn := Turn(toolRuns, evidenceCount, elapsed, outputParseSuccess, missingRequiredSections, maxIterations);
    hide Faults, Reflects, StopReasonTells;
    TurnHasWhatApplies(config, codec, turn, state);
    hide Applies, Turn.Has, FallbackRequired;
    assert forall r :: e.failureReason == Some(r) <==> IsFirstReason(config, state, r);
  }

  lemma TurnHasWhatApplies(config: Budget.Config, codec: Fingerprint.Codec, turn: Turn, s: State)
    requires s.toolCallCount == |turn.toolRuns| && s.evidenceCount == turn.evidenceCount && s.elapsed == turn.elapsed
    requires s.outputParseSuccess == turn.outputParseSuccess && s.missingRequiredSections == turn.missingRequiredSections
    requires s.maxIterationsReachedLikely <==> 0 < turn.maxIterations <= |turn.toolRuns|
    requires var k := config.maxConsecutiveToolFailures;
             k <= s.consecutiveToolFailures <==> 0 <= k <= |turn.toolRuns| && LastFailed(turn.toolRuns, k)
    requires s.repeatedToolCallCount <= config.maxRepeatedToolCalls <==> NoneExceeds(codec, turn.toolRuns, config.maxRepeatedToolCalls)
    ensures forall r :: turn.Has(config, codec, r) <==> Applies(config, s, r)
  {
    hide NoneExceeds;
  }

  lemma MaximumWithin(codec: Fingerprint.Codec, runs: seq<ToolRun>, signature: string, n: nat, limit: int)
    requires IsMaximum(codec, runs, signature, n) && limit >= 0
    ensures n <= limit <==> NoneExceeds(codec, runs, limit)
  {
    if n <= limit {
      forall s ensures s != "" ==> Multiplicity(codec, runs, s) <= limit {
      }
    } else {
      assert !(signature != "" ==> Multiplicity(codec, runs, signature) <= limit);
    }
  }

  /** No named call was made more often than the limit. */
  ghost predicate NoneExceeds(codec: Fingerprint.Codec, runs: seq<ToolRun>, limit: int) {
    forall s :: s != "" ==> Multiplicity(codec, runs, s) <= limit
  }

  lemma FaultsOf(config: Budget.Config, s: State)
    ensures Faults(config, s) == [] <==>
              && s.outputParseSuccess && !s.missingRequiredSections
              && s.toolCallCount <= config.maxToolCalls
              && s.consecutiveToolFailures < config.maxConsecutiveToolFailures
              && !(config.enableRepeatedToolDetection && s.repeatedToolCallCount > config.maxRepeatedToolCalls)
              && !s.maxIterationsReachedLikely
              && s.elapsed <= config.totalExecutionTimeout && s.evidenceCount != 0
  {
  }
}
