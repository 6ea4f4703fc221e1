/**
 toolDedupeCache and agentTool.InvokableRun as the objects they are
 (internal/agent/eino/react_runner.go). The methods update the fields in place, one
 locked method at a time; what they do is the step system of module Harness.
 */
module DedupeCache {
  import opened Text
  import opened Harness
  import B = Budget
  import F = Fingerprint

  /** What the world answers during one call: two clock readings and two provider replies. */
  datatype Oracle = Oracle(
    beforeCall: B.Clock,
    first: ProviderReply,
    beforeRetry: B.Clock,
    second: ProviderReply)

  /** The step system as one call that runs alone sees it. */
  function Alone(budget: B.State, cache: Cache, call: Call, phase: Phase): System {
    System(budget, cache, map[0 := Thread(call, phase)])
  }

  lemma {:induction false} RunAppend(s: System, actions: seq<Action>, a: Action)
    requires IsRun(s, actions) && Enabled(Run(s, actions), a)
    ensures IsRun(s, actions + [a]) && Run(s, actions + [a]) == Step(Run(s, actions), a)
    decreases |actions|
  {
    hide Step, Enabled;
    if actions == [] {
      assert actions + [a] == [a];
      assert [a][1..] == [];
    } else {
      RunAppend(Step(s, actions[0]), actions[1..], a);
      assert (actions + [a])[1..] == actions[1..] + [a];
    }
  }

  lemma AloneMoves(budget: B.State, cache: Cache, call: Call, p: Phase, q: Phase)
    ensures Move(Alone(budget, cache, call, p), 0, q) == Alone(budget, cache, call, q)
  {
    assert map[0 := Thread(call, p)][0 := Thread(call, q)] == map[0 := Thread(call, q)];
  }

  // ---- One call among many -------------------------------------------------------------------

  /** An action of the call that runs alone. */
  predicate OwnAction(a: Action) {
    !a.Spawn? && !a.RunnerStep? && a.id == 0
  }

  predicate Own(actions: seq<Action>) {
    forall i :: 0 <= i < |actions| ==> OwnAction(actions[i])
  }

  predicate OwnRun(s: System, actions: seq<Action>) {
    IsRun(s, actions) && Own(actions)
  }

  /** What one of many calls sees of the system. */
  function AsAlone(s: System, id: nat): System
    requires id in s.threads
  {
    Alone(s.budget, s.cache, s.threads[id].call, s.threads[id].phase)
  }

  /** The action of the call that runs alone, taken by number id. */
  function As(a: Action, id: nat): Action
    requires OwnAction(a)
  {
    match a
    case RecordAttempt(_) => RecordAttempt(id)
    case AskBudget(_, now) => AskBudget(id, now)
    case Lookup(_) => Lookup(id)
    case RecordDeduped(_) => RecordDeduped(id)
    case RecordExecuted(_) => RecordExecuted(id)
    case ProviderReturns(_, reply) => ProviderReturns(id, reply)
    case AskRetry(_, now) => AskRetry(id, now)
    case RecordRetry(_) => RecordRetry(id)
    case RecordStatus(_) => RecordStatus(id)
    case StoreResult(_) => StoreResult(id)
  }

  function AllAs(actions: seq<Action>, id: nat): (r: seq<Action>)
    requires Own(actions)
    ensures |r| == |actions| && forall i :: 0 <= i < |actions| ==> r[i] == As(actions[i], id)
  {
    seq(|actions|, i requires 0 <= i < |actions| => As(actions[i], id))
  }

  /** Nothing but thread id, the budget and the cache differ. */
  predicate OthersAlike(s: System, later: System, id: nat) {
    id in s.threads && id in later.threads && later.threads == s.threads[id := later.threads[id]]
  }

  /**
   A step of one call is the same among any others: it is enabled when it would be for the call
   alone, does to budget, cache and this call what it would do alone, and touches no other call.
   */
  lemma StepProjects(s: System, id: nat, a: Action)
    requires id in s.threads && OwnAction(a)
    ensures Enabled(s, As(a, id)) <==> Enabled(AsAlone(s, id), a)
    ensures Enabled(s, As(a, id)) ==>
              var later := Step(s, As(a, id));
              OthersAlike(s, later, id) && AsAlone(later, id) == Step(AsAlone(s, id), a)
  {
    hide B.BeforeToolCall, B.RecordRetry, DataStatus, RecordDataStatus, Store, StoredSequence;
    if Enabled(s, As(a, id)) {
      var alone := AsAlone(s, id);
      assert forall phase :: Move(alone, 0, phase).threads == map[0 := Thread(alone.threads[0].call, phase)];
    }
  }

  /** So what a call does alone, it does in any system, as long as no other call comes between. */
  lemma {:induction false} RunProjects(s: System, id: nat, actions: seq<Action>)
    requires id in s.threads && OwnRun(AsAlone(s, id), actions)
    ensures IsRun(s, AllAs(actions, id))
    ensures var later := Run(s, AllAs(actions, id));
            OthersAlike(s, later, id) && AsAlone(later, id) == Run(AsAlone(s, id), actions)
    decreases |actions|
  {
    hide Step, Enabled, As;
    if actions != [] {
      StepProjects(s, id, actions[0]);
      var next := Step(s, As(actions[0], id));
      assert AllAs(actions, id)[1..] == AllAs(actions[1..], id);
      RunProjects(next, id, actions[1..]);
    }
  }

  // ---- Outcomes --------------------------------------------------------------------------------

  /** What a call makes of the provider's last answer. */
  predicate Concludes(last: ProviderReply, outcome: Outcome) {
    match last
    case ProviderError(_) => outcome == Failed
    case Undecodable => outcome == Raw
    case Decoded(_, None) => outcome == Raw
    case Decoded(result, Some(encoded)) =>
      outcome.Completed? && outcome.encoded == encoded && outcome.status == DataStatus(result)
  }

  /** Everything but counters of attempts, executions and retries is what it was. */
  predicate SameEntries(c: Cache, d: Cache) {
    c.entries == d.entries && c.next == d.next
  }

  /** A result that can be stored is in the cache afterwards, under the number replied. */
  predicate Kept(c: Cache, signature: string, outcome: Outcome) {
    outcome.Completed? && outcome.encoded != "" && signature != "" ==>
      signature in c.entries && c.entries[signature].sequence == outcome.sequence
  }

  lemma StoreKeeps(c: Cache, signature: string, encoded: string, status: string)
    ensures var d := Store(c, signature, encoded, status);
            && (encoded != "" && signature != "" ==>
                  signature in d.entries && d.entries[signature].sequence == StoredSequence(c, signature, encoded))
            && d.attempts == c.attempts && d.executed == c.executed && d.deduped == c.deduped && d.retries == c.retries
  {
  }

  /**
   What a call that was let through leaves behind. A stored signature is answered with its entry and
   runs nothing; any other runs the provider, a second time exactly after a retryable error that the
   budget lets through, and is concluded by the last answer.
   */
  predicate Outcomes(signature: string, oracle: Oracle, b: B.State, before: Cache, after: Cache, outcome: Outcome, runs: nat) {
    if signature != "" && signature in before.entries then
      && outcome == Deduplicated(before.entries[signature]) && runs == 0 && SameEntries(after, before)
      && after.executed == before.executed && after.retries == before.retries && after.deduped == before.deduped + 1
    else
      Executes(signature, oracle, b, before, after, outcome, runs)
  }

  predicate Executes(signature: string, oracle: Oracle, b: B.State, before: Cache, after: Cache, outcome: Outcome, runs: nat) {
    && (runs == 1 || runs == 2)
    && (runs == 2 <==> oracle.first == ProviderError(true) && B.RecordRetry(b, oracle.beforeRetry).reason == B.Running)
    && Concludes(if runs == 2 then oracle.second else oracle.first, outcome) && Kept(after, signature, outcome)
    && after.executed == before.executed + runs && after.retries == before.retries + runs - 1
    && after.deduped == before.deduped
  }

  class ToolDedupeCache {
    const budget: B.ExecutionBudget
    var next: nat
    var entries: map<string, Entry>
    var attemptCount: nat
    var executedCount: nat
    var dedupedCount: nat
    var retryCount: nat
    var effectiveCount: nat
    var noDataCount: nat
    var partialCount: nat
    var fallbackCount: nat

    function Contents(): Cache
      reads this
    {
      Cache(next, entries, attemptCount, executedCount, dedupedCount, retryCount,
            effectiveCount, noDataCount, partialCount, fallbackCount)
    }

    constructor (codec: F.Codec, config: B.Config)
      ensures Contents() == EMPTY_CACHE
      ensures fresh(budget) && budget.codec == codec && budget.Current() == B.NewState(config)
    {
      budget := new B.ExecutionBudget(codec, config);
      next, entries := 0, map[];
      attemptCount, executedCount, dedupedCount, retryCount := 0, 0, 0, 0;
      effectiveCount, noDataCount, partialCount, fallbackCount := 0, 0, 0, 0;
    }

    method LookupEntry(signature: string) returns (entry: Option<Entry>)
      ensures entry == if signature != "" && signature in entries
                       then Some(entries[signature]) else None
    {
      if signature == "" || signature !in entries {
        return None;
      }
      entry := Some(entries[signature]);
    }

    method RecordAttemptLocked()
      modifies this`attemptCount
      ensures attemptCount == old(attemptCount) + 1
    {
      attemptCount := attemptCount + 1;
    }

    method RecordExecutedLocked()
      modifies this`executedCount
      ensures executedCount == old(executedCount) + 1
    {
      executedCount := executedCount + 1;
    }

    method RecordDedupedLocked()
      modifies this`dedupedCount
      ensures dedupedCount == old(dedupedCount) + 1
    {
      dedupedCount := dedupedCount + 1;
    }

    method RecordRetryLocked()
      modifies this`retryCount
      ensures retryCount == old(retryCount) + 1
    {
      retryCount := retryCount + 1;
    }

    method RecordDataStatusLocked(dataStatus: string)
      modifies this`effectiveCount, this`noDataCount, this`partialCount, this`fallbackCount
      ensures Contents() == RecordDataStatus(old(Contents()), dataStatus)
      ensures noDataCount == old(noDataCount) + (if dataStatus == "empty" then 1 else 0)
      ensures partialCount == old(partialCount) + (if dataStatus == "partial" then 1 else 0)
      ensures fallbackCount == old(fallbackCount) + (if dataStatus == "fallback" then 1 else 0)
      ensures effectiveCount == old(effectiveCount)
              + (if dataStatus == "available" || dataStatus == "partial" || dataStatus == "fallback" then 1 else 0)
    {
      if dataStatus == "available" || dataStatus == "partial" || dataStatus == "fallback" {
        effectiveCount := effectiveCount + 1;
      }
      if dataStatus == "empty" {
        noDataCount := noDataCount + 1;
      } else if dataStatus == "partial" {
        partialCount := partialCount + 1;
      } else if dataStatus == "fallback" {
        fallbackCount := fallbackCount + 1;
      }
    }

    method StoreLocked(signature: string, encoded: string, dataStatus: string) returns (sequence: nat)
      modifies this`next, this`entries
      ensures Contents() == Store(old(Contents()), signature, encoded, dataStatus)
      ensures sequence == StoredSequence(old(Contents()), signature, encoded)
    {
      if signature == "" || encoded == "" {
        return 0;
      }
      if signature in entries {
        return entries[signature].sequence;
      }
      next := next + 1;
      entries := entries[signature := Entry(next, encoded, dataStatus)];
      sequence := next;
    }

    /** The identity of a call, as the budget and the cache see it. */
    function CallOf(toolName: string, normalizedArgs: string, argsHash: string): Call
      reads this
    {
      Call(F.ToolCallFingerprint(budget.codec, toolName, normalizedArgs),
           MapText(budget.codec.lower, toolName + "|" + argsHash))
    }

    /**
     One tool call. `trace` lists the atomic actions it performed: the call is a run of
     the step system from a fresh thread to a finished one, and leaves the cache and the
     budget where that run leaves them.
     */
    method InvokableRun(toolName: string, normalizedArgs: string, argsHash: string, oracle: Oracle)
      returns (outcome: Outcome, ghost runs: nat, ghost trace: seq<Action>)
      modifies this, budget
      ensures var call := CallOf(toolName, normalizedArgs, argsHash);
              var start := Alone(old(budget.Current()), old(Contents()), call, Fresh);
              && OwnRun(start, trace)
              && Run(start, trace) == Alone(budget.Current(), Contents(), call, Done(runs, outcome))
      ensures attemptCount == old(attemptCount) + 1
      ensures var signature := MapText(budget.codec.lower, toolName + "|" + argsHash);
              var fingerprint := F.ToolCallFingerprint(budget.codec, toolName, normalizedArgs);
              var asked := B.BeforeToolCall(old(budget.Current()), oracle.beforeCall, fingerprint);
              if asked.reason != B.Running then
                outcome == Blocked(asked.reason) && Contents() == old(Contents()).(attempts := old(attemptCount) + 1)
              else
                Outcomes(signature, oracle, asked.state, old(Contents()), Contents(), outcome, runs)
    {
      ghost var call := CallOf(toolName, normalizedArgs, argsHash);
      ghost var start := Alone(budget.Current(), Contents(), call, Fresh);
      hide F.ToolCallFingerprint, B.BeforeToolCall, MapText, Outcomes, Alone, Run, OwnRun;
      var reason: B.StopReason;
      reason, trace := AskFirst(toolName, normalizedArgs, call, oracle, start);
      runs := 0;
      if reason != B.Running {
        outcome := Blocked(reason);
        return;
      }
      var signature := MapText(budget.codec.lower, toolName + "|" + argsHash);
      outcome, runs, trace := FindOrExecute(signature, call, oracle, start, trace);
    }

    /** The attempt is counted and the budget asked. */
    method AskFirst(toolName: string, normalizedArgs: string, ghost call: Call, oracle: Oracle, ghost start: System)
      returns (reason: B.StopReason, ghost trace: seq<Action>)
      requires call.fingerprint == F.ToolCallFingerprint(budget.codec, toolName, normalizedArgs)
      requires start == Alone(budget.Current(), Contents(), call, Fresh)
      modifies this, budget
      ensures Contents() == old(Contents()).(attempts := old(attemptCount) + 1)
      ensures B.Reply(budget.Current(), reason) == B.BeforeToolCall(old(budget.Current()), oracle.beforeCall, call.fingerprint)
      ensures OwnRun(start, trace)
      ensures Run(start, trace)
           == Alone(budget.Current(), Contents(), call, if reason == B.Running then Admitted else Done(0, Blocked(reason)))
    {
      hide F.ToolCallFingerprint;
      trace := [];
      assert OwnRun(start, trace) && Run(start, trace) == start;
      hide Run, IsRun, Own, B.BeforeToolCall;
      RecordAttemptLocked();
      trace := Perform(start, trace, RecordAttempt(0));
      AloneMoves(budget.Current(), Contents(), call, Fresh, Attempted);
      assert Run(start, trace) == Alone(budget.Current(), Contents(), call, Attempted);
      reason := budget.BeforeToolCall(oracle.beforeCall, toolName, normalizedArgs);
      trace := Perform(start, trace, AskBudget(0, oracle.beforeCall));
      AloneMoves(budget.Current(), Contents(), call, Attempted, Admitted);
      AloneMoves(budget.Current(), Contents(), call, Attempted, Done(0, Blocked(reason)));
    }

    /** The cache is asked first. */
    method FindOrExecute(signature: string, ghost call: Call, oracle: Oracle, ghost start: System, ghost before: seq<Action>)
      returns (outcome: Outcome, ghost runs: nat, ghost trace: seq<Action>)
      requires call.signature == signature
      requires OwnRun(start, before) && Run(start, before) == Alone(budget.Current(), Contents(), call, Admitted)
      modifies this, budget
      ensures OwnRun(start, trace)
      ensures Run(start, trace) == Alone(budget.Current(), Contents(), call, Done(runs, outcome))
      ensures attemptCount == old(attemptCount)
      ensures Outcomes(signature, oracle, old(budget.Current()), old(Contents()), Contents(), outcome, runs)
    {
      hide Run, IsRun, Own;
      runs := 0;
      var entry := LookupEntry(signature);
      trace := Perform(start, before, Lookup(0));
      AloneMoves(budget.Current(), Contents(), call, Admitted, Missed);
      if entry.Some? {
        AloneMoves(budget.Current(), Contents(), call, Admitted, Hit(entry.value));
        assert Run(start, trace) == Alone(budget.Current(), Contents(), call, Hit(entry.value));
        RecordDedupedLocked();
        trace := Perform(start, trace, RecordDeduped(0));
        outcome := Deduplicated(entry.value);
        AloneMoves(budget.Current(), Contents(), call, Hit(entry.value), Done(0, outcome));
        return;
      }
      outcome, runs, trace := ExecuteMissed(signature, call, oracle, start, trace);
    }

    /** The provider is run, once more if the budget grants a retry, and its result stored. */
    method ExecuteMissed(signature: string, ghost call: Call, oracle: Oracle, ghost start: System, ghost before: seq<Action>)
      returns (outcome: Outcome, ghost runs: nat, ghost trace: seq<Action>)
      requires call.signature == signature
      requires OwnRun(start, before) && Run(start, before) == Alone(budget.Current(), Contents(), call, Missed)
      modifies this, budget
      ensures OwnRun(start, trace)
      ensures Run(start, trace) == Alone(budget.Current(), Contents(), call, Done(runs, outcome))
      ensures attemptCount == old(attemptCount)
      ensures Executes(signature, oracle, old(budget.Current()), old(Contents()), Contents(), outcome, runs)
    {
      hide Run, OwnRun, Alone, B.RecordRetry, Concludes, Kept;
      trace := ExecuteOnce(call, oracle.first, start, before);
      var reply := oracle.first;
      runs := 1;
      if reply == ProviderError(true) {
        reply, runs, trace := MaybeRetry(call, oracle, start, trace);
      }
      outcome, trace := FinishCall(signature, reply, runs, call, start, trace);
    }

    /** The first execution. */
    method ExecuteOnce(ghost call: Call, reply: ProviderReply, ghost start: System, ghost before: seq<Action>)
      returns (ghost trace: seq<Action>)
      requires OwnRun(start, before) && Run(start, before) == Alone(budget.Current(), Contents(), call, Missed)
      modifies this`executedCount
      ensures OwnRun(start, trace)
      ensures Run(start, trace) == Alone(budget.Current(), Contents(), call, AfterReply(1, reply))
      ensures executedCount == old(executedCount) + 1
    {
      hide Run, IsRun, Own;
      RecordExecutedLocked();
      trace := Perform(start, before, RecordExecuted(0));
      AloneMoves(budget.Current(), Contents(), call, Missed, Running(1));
      assert Run(start, trace) == Alone(budget.Current(), Contents(), call, Running(1));
      trace := Perform(start, trace, ProviderReturns(0, reply));
      AloneMoves(budget.Current(), Contents(), call, Running(1), AfterReply(1, reply));
    }

    /** After a retryable error the budget is asked. */
    method MaybeRetry(ghost call: Call, oracle: Oracle, ghost start: System, ghost before: seq<Action>)
      returns (reply: ProviderReply, ghost runs: nat, ghost trace: seq<Action>)
      requires oracle.first == ProviderError(true)
      requires OwnRun(start, before)
      requires Run(start, before) == Alone(budget.Current(), Contents(), call, AfterReply(1, ProviderError(true)))
      modifies this, budget
      ensures OwnRun(start, trace) && (runs == 1 || runs == 2)
      ensures runs == 2 <==> B.RecordRetry(old(budget.Current()), oracle.beforeRetry).reason == B.Running
      ensures reply == if runs == 2 then oracle.second else oracle.first
      ensures Run(start, trace)
           == Alone(budget.Current(), Contents(), call,
                    if reply.ProviderError? then Done(runs, Failed) else AfterReply(runs, reply))
      ensures Contents() == old(Contents()).(retries := old(retryCount) + runs - 1, executed := old(executedCount) + runs - 1)
    {
      hide Run, IsRun, Own, B.RecordRetry;
      reply, runs := oracle.first, 1;
      var reason := budget.RecordRetry(oracle.beforeRetry);
      trace := Perform(start, before, AskRetry(0, oracle.beforeRetry));
      AloneMoves(budget.Current(), Contents(), call, Answered(1, reply), RetryGranted);
      AloneMoves(budget.Current(), Contents(), call, Answered(1, reply), Done(1, Failed));
      if reason == B.Running {
        assert Run(start, trace) == Alone(budget.Current(), Contents(), call, RetryGranted);
        reply, trace := ExecuteAgain(call, oracle, start, trace);
        runs := 2;
      }
    }

    /** The retry, once granted. */
    method ExecuteAgain(ghost call: Call, oracle: Oracle, ghost start: System, ghost before: seq<Action>)
      returns (reply: ProviderReply, ghost trace: seq<Action>)
      requires OwnRun(start, before) && Run(start, before) == Alone(budget.Current(), Contents(), call, RetryGranted)
      modifies this
      ensures OwnRun(start, trace)
      ensures reply == oracle.second
      ensures Contents() == old(Contents()).(retries := old(retryCount) + 1, executed := old(executedCount) + 1)
      ensures Run(start, trace) == Alone(budget.Current(), Contents(), call, AfterReply(2, reply))
    {
      hide Run, IsRun, Own;
      RecordRetryLocked();
      trace := Perform(start, before, RecordRetry(0));
      AloneMoves(budget.Current(), Contents(), call, RetryGranted, RetryCounted);
      assert Run(start, trace) == Alone(budget.Current(), Contents(), call, RetryCounted);
      RecordExecutedLocked();
      trace := Perform(start, trace, RecordExecuted(0));
      AloneMoves(budget.Current(), Contents(), call, RetryCounted, Running(2));
      assert Run(start, trace) == Alone(budget.Current(), Contents(), call, Running(2));
      reply := oracle.second;
      trace := Perform(start, trace, ProviderReturns(0, reply));
      AloneMoves(budget.Current(), Contents(), call, Running(2), AfterReply(2, reply));
    }

    /** What is made of the provider's last answer. */
    method FinishCall(signature: string, reply: ProviderReply, ghost runs: nat,
                      ghost call: Call, ghost start: System, ghost before: seq<Action>)
      returns (outcome: Outcome, ghost trace: seq<Action>)
      requires call.signature == signature && (runs == 1 || runs == 2)
      requires OwnRun(start, before)
      requires Run(start, before)
            == Alone(budget.Current(), Contents(), call,
                     if reply.ProviderError? then Done(runs, Failed) else AfterReply(runs, reply))
      modifies this
      ensures OwnRun(start, trace)
      ensures Run(start, trace) == Alone(budget.Current(), Contents(), call, Done(runs, outcome))
      ensures Concludes(reply, outcome) && Kept(Contents(), signature, outcome)
      ensures attemptCount == old(attemptCount) && executedCount == old(executedCount)
      ensures retryCount == old(retryCount) && dedupedCount == old(dedupedCount)
    {
      hide Run, IsRun, Own;
      trace := before;
      match reply {
        case ProviderError(_) => outcome := Failed;
        case Undecodable => outcome := Raw;
        case Decoded(result, encoded) =>
          var status := DataStatus(result);
          hide DataStatus;
          RecordDataStatusLocked(status);
          trace := Perform(start, trace, RecordStatus(0));
          AloneMoves(budget.Current(), Contents(), call, Answered(runs, reply), Statused(runs, result, encoded));
          hide RecordDataStatus;
          assert Run(start, trace) == Alone(budget.Current(), Contents(), call, Statused(runs, result, encoded));
          outcome, trace := StoreDecoded(signature, status, result, encoded, runs, call, start, trace);
      }
    }

    /** A result that can be marshalled is stored; the first writer's number comes back. */
    method StoreDecoded(signature: string, status: string, ghost result: ToolResult, encoded: Option<string>,
                        ghost runs: nat, ghost call: Call, ghost start: System, ghost before: seq<Action>)
      returns (outcome: Outcome, ghost trace: seq<Action>)
      requires call.signature == signature && status == DataStatus(result)
      requires OwnRun(start, before)
      requires Run(start, before) == Alone(budget.Current(), Contents(), call, Statused(runs, result, encoded))
      modifies this
      ensures OwnRun(start, trace)
      ensures Run(start, trace) == Alone(budget.Current(), Contents(), call, Done(runs, outcome))
      ensures Kept(Contents(), signature, outcome)
      ensures match encoded
              case None => outcome == Raw
              case Some(text) => outcome.Completed? && outcome.encoded == text && outcome.status == status
      ensures attemptCount == old(attemptCount) && executedCount == old(executedCount)
      ensures retryCount == old(retryCount) && dedupedCount == old(dedupedCount)
    {
      hide Run, IsRun, Own, DataStatus, Store, StoredSequence;
      if encoded.None? {
        outcome := Raw;
      } else {
        StoreKeeps(Contents(), signature, encoded.value, status);
        var sequence := StoreLocked(signature, encoded.value, status);
        outcome := Completed(encoded.value, status, sequence);
      }
      trace := Perform(start, before, StoreResult(0));
      AloneMoves(budget.Current(), Contents(), call, Statused(runs, result, encoded), Done(runs, outcome));
    }
  }

  lemma OwnGrows(actions: seq<Action>, a: Action)
    ensures Own(actions + [a]) <==> Own(actions) && OwnAction(a)
  {
    var more := actions + [a];
    assert more[|actions|] == a && forall i :: 0 <= i < |actions| ==> more[i] == actions[i];
  }

  /** Notes an action that the run so far allows. */
  ghost function Perform(start: System, trace: seq<Action>, a: Action): (longer: seq<Action>)
    requires OwnRun(start, trace) && Enabled(Run(start, trace), a) && OwnAction(a)
    ensures OwnRun(start, longer) && Run(start, longer) == Step(Run(start, trace), a)
  {
    RunAppend(start, trace, a);
    OwnGrows(trace, a);
    trace + [a]
  }
}
