/**
 The per-turn execution budget (internal/agent/control/budget.go).

 The locked methods of the Go type are atomic, so each one is a function on
 `State`; the class at the end of the module updates its fields in place and is
 proved against those functions. The clock and the context are inputs of every
 operation that consults them.
 */
module Budget {
  import opened Fingerprint

  /** `Running` is the source's empty stop reason. */
  datatype StopReason =
    | Running
    | Completed
    | ClarificationRequired
    | MaxStepsReached
    | ToolBudgetExceeded
    | RepeatedToolCall
    | Timeout
    | ToolFailure
    | ModelFailure
    | RetryExhausted

  datatype Config = Config(
    maxIterations: int,
    maxToolCalls: int,
    maxRepeatedToolCalls: int,
    maxRetries: int,
    maxConsecutiveToolFailures: int,
    totalExecutionTimeout: int,
    enableJSONRepairOnce: bool,
    enableRepeatedToolDetection: bool)
  {
    predicate Positive() {
      && maxIterations > 0 && maxToolCalls > 0 && maxRepeatedToolCalls > 0 && maxRetries > 0
      && maxConsecutiveToolFailures > 0 && totalExecutionTimeout > 0
    }
  }

  /** Durations are nanoseconds, as in time.Duration. */
  const SECOND := 1_000_000_000

  const DEFAULT_CONFIG := Config(6, 12, 2, 1, 3, 30 * SECOND, true, true)

  function PositiveOr(value: int, default: int): int {
    if value <= 0 then default else value
  }

  function Normalize(c: Config): (r: Config)
    ensures r.Positive()
    ensures c.Positive() ==> r == c
  {
    var d := DEFAULT_CONFIG;
    c.(maxIterations := PositiveOr(c.maxIterations, d.maxIterations),
       maxToolCalls := PositiveOr(c.maxToolCalls, d.maxToolCalls),
       maxRepeatedToolCalls := PositiveOr(c.maxRepeatedToolCalls, d.maxRepeatedToolCalls),
       maxRetries := PositiveOr(c.maxRetries, d.maxRetries),
       maxConsecutiveToolFailures := PositiveOr(c.maxConsecutiveToolFailures, d.maxConsecutiveToolFailures),
       totalExecutionTimeout := PositiveOr(c.totalExecutionTimeout, d.totalExecutionTimeout))
  }

  /** What a locked method reads from outside: ctx.Err() != nil and time.Since(started). */
  datatype Clock = Clock(contextDone: bool, elapsed: int)

  datatype State = State(
    config: Config,
    steps: nat,
    toolCalls: nat,
    retries: nat,
    repeated: nat,
    fingerprints: map<string, nat>,
    stopReason: StopReason)

  function NewState(config: Config): State {
    State(Normalize(config), 0, 0, 0, 0, map[], Running)
  }

  // ---- Operations ------------------------------------------------------------

  function StopWith(s: State, reason: StopReason): State {
    if s.stopReason == Running then s.(stopReason := reason) else s
  }

  function CheckStopped(s: State, now: Clock): State {
    if s.stopReason != Running then s
    else if now.contextDone then StopWith(s, Timeout)
    else if now.elapsed >= s.config.totalExecutionTimeout then StopWith(s, Timeout)
    else s
  }

  function CountOf(counts: map<string, nat>, key: string): nat {
    if key in counts then counts[key] else 0
  }

  /** The state after an operation and the reason it returned. */
  datatype Reply = Reply(state: State, reason: StopReason)

  function StartStep(s: State, now: Clock): Reply {
    var s1 := CheckStopped(s, now);
    if s1.stopReason != Running then Reply(s1, s1.stopReason)
    else if s1.steps >= s1.config.maxIterations then Reply(StopWith(s1, MaxStepsReached), MaxStepsReached)
    else Reply(s1.(steps := s1.steps + 1), Running)
  }

  /** `fingerprint` is empty when the tool name is blank. */
  function BeforeToolCall(s: State, now: Clock, fingerprint: string): Reply {
    var s1 := CheckStopped(s, now);
    if s1.stopReason != Running then Reply(s1, s1.stopReason)
    else if s1.toolCalls >= s1.config.maxToolCalls then Reply(StopWith(s1, ToolBudgetExceeded), ToolBudgetExceeded)
    else if fingerprint == "" then Reply(s1.(toolCalls := s1.toolCalls + 1), Running)
    else
      var n := CountOf(s1.fingerprints, fingerprint) + 1;
      var s2 := s1.(fingerprints := s1.fingerprints[fingerprint := n],
                    repeated := if n > 1 then s1.repeated + 1 else s1.repeated);
      if s2.config.enableRepeatedToolDetection && n > s2.config.maxRepeatedToolCalls then
        Reply(StopWith(s2, RepeatedToolCall), RepeatedToolCall)
      else
        Reply(s2.(toolCalls := s2.toolCalls + 1), Running)
  }

  function RecordRetry(s: State, now: Clock): Reply {
    var s1 := CheckStopped(s, now);
    if s1.stopReason != Running then Reply(s1, s1.stopReason)
    else if s1.retries >= s1.config.maxRetries then Reply(StopWith(s1, RetryExhausted), RetryExhausted)
    else Reply(s1.(retries := s1.retries + 1), Running)
  }

  function Complete(s: State): Reply {
    var s1 := StopWith(s, Completed);
    Reply(s1, s1.stopReason)
  }

  function Stop(s: State, reason: StopReason): Reply {
    var s1 := StopWith(s, reason);
    Reply(s1, s1.stopReason)
  }

  // ---- Runs --------------------------------------------------------------------

  datatype Op =
    | OpStartStep(now: Clock)
    | OpBeforeToolCall(now: Clock, fingerprint: string)
    | OpRecordRetry(now: Clock)
    | OpComplete
    | OpStop(reason: StopReason)

  function Apply(s: State, op: Op): Reply {
    match op
    case OpStartStep(now) => StartStep(s, now)
    case OpBeforeToolCall(now, fingerprint) => BeforeToolCall(s, now, fingerprint)
    case OpRecordRetry(now) => RecordRetry(s, now)
    case OpComplete => Complete(s)
    case OpStop(reason) => Stop(s, reason)
  }

  /** The state a run reaches, with an account of what its replies said on the way. */
  datatype Ledger = Ledger(
    state: State,
    started: nat,            // steps that were let through
    admittedNamed: nat,      // tool calls let through, fingerprint not empty
    admittedAnonymous: nat,  // tool calls let through, fingerprint empty
    retriesGranted: nat,
    repeatStops: nat)        // replies by which a repeat check stopped the turn

  function Advance(l: Ledger, op: Op): Ledger {
    var r := Apply(l.state, op);
    var granted := r.reason == Running;
    Ledger(
      r.state,
      if op.OpStartStep? && granted then l.started + 1 else l.started,
      if op.OpBeforeToolCall? && op.fingerprint != "" && granted then l.admittedNamed + 1 else l.admittedNamed,
      if op.OpBeforeToolCall? && op.fingerprint == "" && granted then l.admittedAnonymous + 1 else l.admittedAnonymous,
      if op.OpRecordRetry? && granted then l.retriesGranted + 1 else l.retriesGranted,
      if op.OpBeforeToolCall? && l.state.stopReason == Running && r.reason == RepeatedToolCall
      then l.repeatStops + 1 else l.repeatStops)
  }

  function Replay(config: Config, ops: seq<Op>): Ledger {
    if ops == [] then Ledger(NewState(config), 0, 0, 0, 0, 0)
    else Advance(Replay(config, ops[..|ops| - 1]), ops[|ops| - 1])
  }

  // ---- Sums over the fingerprint counts ------------------------------------------

  ghost function SumCounts(counts: map<string, nat>): nat {
    if counts == map[] then 0
    else
      var k :| k in counts;
      counts[k] + SumCounts(counts - {k})
  }

  lemma {:induction false} SumCountsSplit(counts: map<string, nat>, key: string)
    requires key in counts
    ensures SumCounts(counts) == counts[key] + SumCounts(counts - {key})
    decreases |counts|
  {
    var k :| k in counts && SumCounts(counts) == counts[k] + SumCounts(counts - {k});
    if k != key {
      var rest := counts - {k};
      assert |rest.Keys| == |counts.Keys - {k}| < |counts.Keys| by { assert rest.Keys == counts.Keys - {k}; }
      SumCountsSplit(rest, key);
      SumCountsSplit(counts - {key}, k) by {
        assert (counts - {key}).Keys == counts.Keys - {key};
      }
      assert rest - {key} == counts - {key} - {k};
    }
  }

  lemma SumCountsBump(counts: map<string, nat>, key: string)
    ensures SumCounts(counts[key := CountOf(counts, key) + 1]) == SumCounts(counts) + 1
  {
    var bumped := counts[key := CountOf(counts, key) + 1];
    SumCountsSplit(bumped, key);
    assert bumped - {key} == counts - {key};
    if key in counts {
      SumCountsSplit(counts, key);
    } else {
      assert counts - {key} == counts;
    }
  }

  // ---- What every operation keeps ---------------------------------------------

  ghost predicate Balanced(l: Ledger) {
    && Accounts(l)
    && (l.state.config.enableRepeatedToolDetection ==> RepeatsBounded(l))
  }

  /** The counters against what the replies said. */
  ghost predicate Accounts(l: Ledger) {
    var s := l.state;
    && s.config.Positive()
    && s.steps == l.started <= s.config.maxIterations
    && s.toolCalls == l.admittedNamed + l.admittedAnonymous <= s.config.maxToolCalls
    && s.retries == l.retriesGranted <= s.config.maxRetries
    && SumCounts(s.fingerprints) == l.admittedNamed + l.repeatStops
    && s.repeated + |s.fingerprints| == SumCounts(s.fingerprints)
    && l.repeatStops <= 1
    && (l.repeatStops == 1 ==> s.stopReason == RepeatedToolCall)
    && (forall f :: f in s.fingerprints ==> s.fingerprints[f] > 0 && f != "")
  }

  /** With detection on, only the call that stopped the turn can be over the limit, by one. */
  ghost predicate RepeatsBounded(l: Ledger) {
    var s := l.state;
    && (l.repeatStops == 0 ==> forall f :: f in s.fingerprints ==> s.fingerprints[f] <= s.config.maxRepeatedToolCalls)
    && (l.repeatStops == 1 ==>
          exists g :: g in s.fingerprints && s.fingerprints[g] == s.config.maxRepeatedToolCalls + 1
                      && forall f :: f in s.fingerprints && f != g ==> s.fingerprints[f] <= s.config.maxRepeatedToolCalls)
  }

  lemma AdvanceKeepsBalance(l: Ledger, op: Op)
    requires Balanced(l)
    ensures Balanced(Advance(l, op)) && Advance(l, op).state.config == l.state.config
  {
    if op.OpBeforeToolCall? {
      ToolCallKeepsConfig(l.state, op.now, op.fingerprint);
      hide Balanced, BeforeToolCall;
      ToolCallKeepsBalance(l, op.now, op.fingerprint);
    } else {
      hide BeforeToolCall, SumCounts;
    }
  }

  lemma ToolCallKeepsConfig(s: State, now: Clock, fingerprint: string)
    ensures BeforeToolCall(s, now, fingerprint).state.config == s.config
  {
  }

  lemma ToolCallKeepsBalance(l: Ledger, now: Clock, fingerprint: string)
    requires Balanced(l)
    ensures Balanced(Advance(l, OpBeforeToolCall(now, fingerprint)))
  {
    ToolCallKeepsAccounts(l, now, fingerprint);
    var s := CheckStopped(l.state, now);
    if s.stopReason == Running && s.toolCalls < s.config.maxToolCalls && fingerprint != ""
       && s.config.enableRepeatedToolDetection {
      CountingKeepsRepeatsBounded(l, now, fingerprint);
    }
  }

  lemma ToolCallKeepsAccounts(l: Ledger, now: Clock, fingerprint: string)
    requires Accounts(l)
    ensures Accounts(Advance(l, OpBeforeToolCall(now, fingerprint)))
  {
    var s := CheckStopped(l.state, now);
    if s.stopReason == Running && s.toolCalls < s.config.maxToolCalls && fingerprint != "" {
      CountingKeepsAccounts(s.fingerprints, fingerprint);
    }
    hide SumCounts;
  }

  lemma CountingKeepsAccounts(counts: map<string, nat>, key: string)
    ensures var bumped := counts[key := CountOf(counts, key) + 1];
            && SumCounts(bumped) == SumCounts(counts) + 1
            && |bumped| == (if key in counts then |counts| else |counts| + 1)
  {
    SumCountsBump(counts, key);
  }

  lemma CountingKeepsRepeatsBounded(l: Ledger, now: Clock, fingerprint: string)
    requires Balanced(l) && CheckStopped(l.state, now).stopReason == Running
    requires l.state.config.enableRepeatedToolDetection
    requires l.state.toolCalls < l.state.config.maxToolCalls && fingerprint != ""
    ensures RepeatsBounded(Advance(l, OpBeforeToolCall(now, fingerprint)))
  {
    var counts := l.state.fingerprints;
    var limit := l.state.config.maxRepeatedToolCalls;
    var n := CountOf(counts, fingerprint) + 1;
    var later := Advance(l, OpBeforeToolCall(now, fingerprint)).state;
    assert later.fingerprints == counts[fingerprint := n];
    if n > limit {
      assert fingerprint in later.fingerprints && later.fingerprints[fingerprint] == limit + 1;
    }
  }

  /**
   Conservation over every run: the counters are exactly what the replies admitted,
   the fingerprint counts account for every named call that was looked at, and the
   limits hold.
   */
  lemma {:induction false} EveryRunBalances(config: Config, ops: seq<Op>)
    ensures Balanced(Replay(config, ops))
    ensures Replay(config, ops).state.config == Normalize(config)
  {
    if ops == [] {
    } else {
      hide Balanced, Advance;
      EveryRunBalances(config, ops[..|ops| - 1]);
      AdvanceKeepsBalance(Replay(config, ops[..|ops| - 1]), ops[|ops| - 1]);
    }
  }

  /** At most one fingerprint is ever over the limit, by one, and only in a stopped turn. */
  lemma AtMostOneOverLimit(config: Config, ops: seq<Op>, f: string, g: string)
    requires Normalize(config).enableRepeatedToolDetection
    ensures var s := Replay(config, ops).state;
            var limit := s.config.maxRepeatedToolCalls;
            && CountOf(s.fingerprints, f) <= limit + 1
            && (CountOf(s.fingerprints, f) > limit ==> s.stopReason == RepeatedToolCall)
            && (CountOf(s.fingerprints, f) > limit && CountOf(s.fingerprints, g) > limit ==> f == g)
  {
    EveryRunBalances(config, ops);
  }

  /** A stop reason is final: whatever follows, the whole state stays as it was. */
  lemma {:induction false} StopIsSticky(config: Config, ops: seq<Op>, more: seq<Op>)
    requires Replay(config, ops).state.stopReason != Running
    ensures Replay(config, ops + more) == Replay(config, ops)
  {
    if more == [] {
      assert ops + more == ops;
    } else {
      var before := ops + more[..|more| - 1];
      assert (ops + more)[..|ops + more| - 1] == before;
      StopIsSticky(config, ops, more[..|more| - 1]);
    }
  }

  /** A turn that was never told to stop and is still running has refused nothing. */
  lemma {:induction false} RunningMeansNothingRefused(config: Config, ops: seq<Op>, k: nat)
    requires k < |ops|
    requires Replay(config, ops).state.stopReason == Running
    ensures Apply(Replay(config, ops[..k]).state, ops[k]).reason == Running
    ensures Replay(config, ops[..k]).state.stopReason == Running
  {
    var shorter := ops[..k + 1];
    assert shorter + ops[k + 1..] == ops;
    assert shorter[..|shorter| - 1] == ops[..k];
    assert ops[..k] + ops[k..] == ops;
    if Replay(config, ops[..k]).state.stopReason != Running {
      StopIsSticky(config, ops[..k], ops[k..]);
    }
    if Replay(config, shorter).state.stopReason != Running {
      StopIsSticky(config, shorter, ops[k + 1..]);
    }
  }

  // ---- What is let through, and why not ------------------------------------------------

  /** The turn runs, its context lives and its time is not up. */
  predicate Open(config: Config, s: State, now: Clock) {
    s.stopReason == Running && !now.contextDone && now.elapsed < config.totalExecutionTimeout
  }

  /** The reason given to a turn that is not open. */
  function ClosedFor(s: State): StopReason {
    if s.stopReason != Running then s.stopReason else Timeout
  }

  /** A named call has been looked at as often as detection allows. */
  predicate Exhausted(config: Config, s: State, fingerprint: string) {
    config.enableRepeatedToolDetection && fingerprint in s.fingerprints && s.fingerprints[fingerprint] >= config.maxRepeatedToolCalls
  }

  /**
   In every reachable state: exactly which step, tool call and retry is let through, and which
   reason the others are given, by clock, counters and limits. The reply is the reason kept.
   */
  lemma EveryReplyIsExplained(config: Config, ops: seq<Op>, op: Op)
    ensures var cfg, s := Normalize(config), Replay(config, ops).state;
            var r := Apply(s, op);
            && r.state.stopReason == r.reason
            && match op
               case OpStartStep(now) =>
                 && (r.reason == Running <==> Open(cfg, s, now) && s.steps < cfg.maxIterations)
                 && (r.reason != Running ==> r.reason == if Open(cfg, s, now) then MaxStepsReached else ClosedFor(s))
               case OpRecordRetry(now) =>
                 && (r.reason == Running <==> Open(cfg, s, now) && s.retries < cfg.maxRetries)
                 && (r.reason != Running ==> r.reason == if Open(cfg, s, now) then RetryExhausted else ClosedFor(s))
               case OpBeforeToolCall(now, fingerprint) =>
                 && (r.reason == Running <==>
                       Open(cfg, s, now) && s.toolCalls < cfg.maxToolCalls && !(fingerprint != "" && Exhausted(cfg, s, fingerprint)))
                 && (r.reason != Running ==>
                       r.reason == if !Open(cfg, s, now) then ClosedFor(s)
                                   else if s.toolCalls >= cfg.maxToolCalls then ToolBudgetExceeded
                                   else RepeatedToolCall)
               case OpComplete => r.reason == if s.stopReason == Running then Completed else s.stopReason
               case OpStop(reason) => r.reason == if s.stopReason == Running then reason else s.stopReason
  {
    EveryRunBalances(config, ops);
    hide Replay, Normalize, SumCounts;
  }

  /** A limit that is not positive is replaced: 6 steps, 12 calls, 2 repeats, 1 retry, 3 failures, 30 seconds. */
  lemma DefaultLimits(c: Config)
    ensures var r := Normalize(c);
            && r.maxIterations == (if c.maxIterations > 0 then c.maxIterations else 6)
            && r.maxToolCalls == (if c.maxToolCalls > 0 then c.maxToolCalls else 12)
            && r.maxRepeatedToolCalls == (if c.maxRepeatedToolCalls > 0 then c.maxRepeatedToolCalls else 2)
            && r.maxRetries == (if c.maxRetries > 0 then c.maxRetries else 1)
            && r.maxConsecutiveToolFailures == (if c.maxConsecutiveToolFailures > 0 then c.maxConsecutiveToolFailures else 3)
            && r.totalExecutionTimeout == (if c.totalExecutionTimeout > 0 then c.totalExecutionTimeout else 30_000_000_000)
            && r.enableJSONRepairOnce == c.enableJSONRepairOnce
            && r.enableRepeatedToolDetection == c.enableRepeatedToolDetection
  {
  }

  // ---- The object -------------------------------------------------------------------

  class ExecutionBudget {
    const codec: Codec
    const config: Config
    var steps: nat
    var toolCalls: nat
    var retries: nat
    var repeated: nat
    var fingerprints: map<string, nat>
    var stopReason: StopReason

    /** The fields as one value. */
    function Current(): State
      reads this
    {
      State(config, steps, toolCalls, retries, repeated, fingerprints, stopReason)
    }

    constructor (codec: Codec, config: Config)
      ensures Current() == NewState(config) && this.codec == codec
    {
      this.codec := codec;
      this.config := Normalize(config);
      steps, toolCalls, retries, repeated := 0, 0, 0, 0;
      fingerprints := map[];
      stopReason := Running;
    }

    method StopLocked(reason: StopReason) returns (r: StopReason)
      modifies this`stopReason
      ensures Current() == StopWith(old(Current()), reason)
      ensures r == stopReason
    {
      if stopReason == Running {
        stopReason := reason;
      }
      r := stopReason;
    }

    method CheckStoppedLocked(now: Clock) returns (r: StopReason)
      modifies this`stopReason
      ensures Current() == CheckStopped(old(Current()), now)
      ensures r == stopReason
    {
      if stopReason != Running {
        return stopReason;
      }
      if now.contextDone {
        r := StopLocked(Timeout);
        return;
      }
      if now.elapsed >= config.totalExecutionTimeout {
        r := StopLocked(Timeout);
        return;
      }
      r := Running;
    }

    method StartStep(now: Clock) returns (r: StopReason)
      modifies this
      ensures Reply(Current(), r) == Apply(old(Current()), OpStartStep(now))
    {
      r := CheckStoppedLocked(now);
      if r != Running {
        return;
      }
      if steps >= config.maxIterations {
        r := StopLocked(MaxStepsReached);
        return;
      }
      steps := steps + 1;
      r := Running;
    }

    method BeforeToolCall(now: Clock, toolName: string, arguments: string) returns (r: StopReason)
      modifies this
      ensures Reply(Current(), r)
           == Apply(old(Current()), OpBeforeToolCall(now, ToolCallFingerprint(codec, toolName, arguments)))
    {
      hide ToolCallFingerprint;
      r := CheckStoppedLocked(now);
      if r != Running {
        return;
      }
      if toolCalls >= config.maxToolCalls {
        r := StopLocked(ToolBudgetExceeded);
        return;
      }
      var fingerprint := ToolCallFingerprint(codec, toolName, arguments);
      if fingerprint != "" {
        fingerprints := fingerprints[fingerprint := CountOf(fingerprints, fingerprint) + 1];
        if fingerprints[fingerprint] > 1 {
          repeated := repeated + 1;
        }
        if config.enableRepeatedToolDetection && fingerprints[fingerprint] > config.maxRepeatedToolCalls {
          r := StopLocked(RepeatedToolCall);
          return;
        }
      }
      toolCalls := toolCalls + 1;
      r := Running;
    }

    method RecordRetry(now: Clock) returns (r: StopReason)
      modifies this
      ensures Reply(Current(), r) == Apply(old(Current()), OpRecordRetry(now))
    {
      r := CheckStoppedLocked(now);
      if r != Running {
        return;
      }
      if retries >= config.maxRetries {
        r := StopLocked(RetryExhausted);
        return;
      }
      retries := retries + 1;
      r := Running;
    }

    method Complete() returns (r: StopReason)
      modifies this
      ensures Reply(Current(), r) == Apply(old(Current()), OpComplete)
    {
      if stopReason == Running {
        stopReason := Completed;
      }
      r := stopReason;
    }

    method Stop(reason: StopReason) returns (r: StopReason)
      modifies this
      ensures Reply(Current(), r) == Apply(old(Current()), OpStop(reason))
    {
      r := StopLocked(reason);
    }
  }
}
