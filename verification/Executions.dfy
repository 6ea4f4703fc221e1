/**
 What holds in every state that concurrent tool calls can reach.

 An execution of the step system of module Harness interleaves the atomic steps of any number
 of calls in any order. The theorems here speak of every state of every execution.
 */
module Executions {

  import opened Harness
  import B = Budget

  /** The states a system goes through and the actions between them, however the calls interleave. */
  datatype Execution = Execution(states: seq<System>, actions: seq<Action>)
  {
    ghost predicate StepAt(i: int) {
      0 <= i < |actions| && i + 1 < |states| && Enabled(states[i], actions[i]) && states[i + 1] == Step(states[i], actions[i])
    }

    ghost predicate From(start: System) {
      |states| == |actions| + 1 && states[0] == start && forall i :: 0 <= i < |actions| ==> StepAt(i)
    }

    ghost predicate Of(config: B.Config) {
      From(NewSystem(config))
    }
  }

  /** A run of the system goes through the states of an execution. */
  lemma {:induction false} RunIsAnExecution(s: System, actions: seq<Action>) returns (e: Execution)
    requires IsRun(s, actions)
    ensures e.From(s) && e.actions == actions && e.states[|actions|] == Run(s, actions)
    decreases |actions|
  {
    hide Step, Enabled;
    if actions == [] {
      e := Execution([s], []);
    } else {
      var rest := RunIsAnExecution(Step(s, actions[0]), actions[1..]);
      e := Execution([s] + rest.states, actions);
      forall i | 0 <= i < |actions| ensures e.StepAt(i) {
        assert i > 0 ==> rest.StepAt(i - 1);
      }
    }
  }

  lemma NewSystemIsSound(config: B.Config)
    ensures Invariant(NewSystem(config)) && NewSystem(config).budget.config == B.Normalize(config)
  {
    var s := NewSystem(config);
    assert forall p: Thread -> bool :: Among(s.threads, p) == {};
  }

  lemma {:induction false} EveryReachableStateIsSound(config: B.Config, e: Execution, n: nat)
    requires e.Of(config) && n < |e.states|
    ensures Invariant(e.states[n])
    ensures e.states[n].budget.config == B.Normalize(config)
  {
    hide Step, Enabled, Invariant, NewSystem;
    if n == 0 {
      NewSystemIsSound(config);
    } else {
      EveryReachableStateIsSound(config, e, n - 1);
      assert e.StepAt(n - 1);
      StepKeepsInvariant(e.states[n - 1], e.actions[n - 1]);
    }
  }

  /** Bounded work: however the calls interleave, the provider runs at most this often. */
  lemma WorkIsBounded(config: B.Config, e: Execution, n: nat)
    requires e.Of(config) && n < |e.states|
    ensures var s := e.states[n];
            && s.cache.executed <= s.budget.toolCalls + s.budget.retries
            && s.budget.toolCalls <= B.Normalize(config).maxToolCalls
            && s.budget.retries <= B.Normalize(config).maxRetries
  {
    EveryReachableStateIsSound(config, e, n);
    var s := e.states[n];
    hide Execution.Of;
    CountIsMonotone(s.threads, HasExecuted, WasAdmitted);
    CountIsMonotone(s.threads, HasReexecuted, HasRetryGrant);
  }

  lemma {:induction false} ExecutionKeepsRepeatsBounded(config: B.Config, e: Execution, n: nat, fingerprint: string)
    requires e.Of(config) && n < |e.states| && fingerprint != "" && config.enableRepeatedToolDetection
    ensures RepeatsBounded(e.states[n], fingerprint)
  {
    if n == 0 {
      assert Among(NewSystem(config).threads, AdmittedWith(fingerprint)) == {};
    } else {
      hide Step, Enabled, RepeatsBounded, NewSystem;
      ExecutionKeepsRepeatsBounded(config, e, n - 1, fingerprint);
      assert e.StepAt(n - 1);
      StepKeepsRepeatsBounded(e.states[n - 1], e.actions[n - 1], fingerprint);
    }
  }

  /** Even when identical calls all miss the cache, repeats of one fingerprint stay within the limit. */
  lemma RepeatedExecutionsAreBounded(config: B.Config, e: Execution, n: nat, fingerprint: string)
    requires e.Of(config) && n < |e.states| && fingerprint != ""
    requires config.enableRepeatedToolDetection
    ensures Count(e.states[n].threads, ExecutedWith(fingerprint)) <= B.Normalize(config).maxRepeatedToolCalls
  {
    EveryReachableStateIsSound(config, e, n);
    ExecutionKeepsRepeatsBounded(config, e, n, fingerprint);
    var s := e.states[n];
    hide Execution.Of;
    CountIsMonotone(s.threads, ExecutedWith(fingerprint), AdmittedWith(fingerprint));
  }

  predicate BlockedOrInFlight(t: Thread) { IsBlocked(t) || IsInFlight(t) }

  predicate DeduplicatedOrExecuted(t: Thread) { IsDeduplicated(t) || HasExecuted(t) }

  /** Every attempt is accounted for: refused, on its way, reused, or executed. */
  lemma AttemptsAreAccountedFor(s: System)
    requires PhasesInOrder(s) && CountersAgree(s)
    ensures s.cache.attempts + s.cache.retries
         == Count(s.threads, IsBlocked) + Count(s.threads, IsInFlight)
            + s.cache.deduped + s.cache.executed + Count(s.threads, IsRetryInFlight)
    ensures s.cache.executed + Count(s.threads, IsRetryInFlight) == Count(s.threads, HasExecuted) + s.cache.retries
  {
    hide Count;
    AttemptedThreadsSplit(s);
    CountSplits(s.threads, HasCountedRetry, HasReexecuted, IsRetryInFlight);
  }

  lemma AttemptedThreadsSplit(s: System)
    requires PhasesInOrder(s)
    ensures Count(s.threads, HasAttempted)
         == Count(s.threads, IsBlocked) + Count(s.threads, IsInFlight)
            + Count(s.threads, IsDeduplicated) + Count(s.threads, HasExecuted)
  {
    hide Count;
    CountSplits(s.threads, HasAttempted, BlockedOrInFlight, DeduplicatedOrExecuted) by {
      forall id | id in s.threads
        ensures HasAttempted(s.threads[id]) <==> BlockedOrInFlight(s.threads[id]) || DeduplicatedOrExecuted(s.threads[id])
        ensures !(BlockedOrInFlight(s.threads[id]) && DeduplicatedOrExecuted(s.threads[id]))
      {
      }
    }
    CountSplits(s.threads, BlockedOrInFlight, IsBlocked, IsInFlight);
    CountSplits(s.threads, DeduplicatedOrExecuted, IsDeduplicated, HasExecuted);
  }

  lemma CountersReconcile(config: B.Config, e: Execution, n: nat)
    requires e.Of(config) && n < |e.states|
    ensures var s := e.states[n];
            (s.cache.attempts + s.cache.retries
             == Count(s.threads, IsBlocked) + Count(s.threads, IsInFlight)
                + s.cache.deduped + s.cache.executed + Count(s.threads, IsRetryInFlight))
  {
    EveryReachableStateIsSound(config, e, n);
    hide Execution.Of;
    AttemptsAreAccountedFor(e.states[n]);
  }

  ghost predicate Quiescent(s: System) {
    forall id :: id in s.threads ==> s.threads[id].phase.Done?
  }

  /** When every call has returned, the counters determine each other. */
  lemma CountersReconcileAtRest(config: B.Config, e: Execution, n: nat)
    requires e.Of(config) && n < |e.states|
    requires Quiescent(e.states[n])
    ensures var s := e.states[n];
            && s.cache.attempts == Count(s.threads, IsBlocked) + s.cache.deduped + s.cache.executed - s.cache.retries
            && s.budget.toolCalls == s.cache.deduped + s.cache.executed - s.cache.retries
            && s.budget.retries == s.cache.retries
  {
    EveryReachableStateIsSound(config, e, n);
    var s := e.states[n];
    hide Execution.Of;
    AttemptsAreAccountedFor(s);
    NothingMovesAtRest(s);
  }

  lemma NothingMovesAtRest(s: System)
    requires PhasesInOrder(s) && Quiescent(s)
    ensures Count(s.threads, IsInFlight) == 0 && Count(s.threads, IsRetryInFlight) == 0
    ensures Count(s.threads, HasRetryGrant) == Count(s.threads, HasCountedRetry)
    ensures Count(s.threads, WasAdmitted) == Count(s.threads, IsDeduplicated) + Count(s.threads, HasExecuted)
  {
    assert Among(s.threads, IsInFlight) == {};
    assert Among(s.threads, IsRetryInFlight) == {};
    assert Among(s.threads, HasRetryGrant) == Among(s.threads, HasCountedRetry);
    CountSplits(s.threads, WasAdmitted, IsDeduplicated, HasExecuted);
  }

  /** Sequence numbers are exactly 1..next, one per entry, in every reachable state. */
  lemma SequencesAreABijection(config: B.Config, e: Execution, n: nat)
    requires e.Of(config) && n < |e.states|
    ensures var c := e.states[n].cache;
            && |c.entries| == c.next
            && (forall i :: 1 <= i <= c.next ==> HasSequence(c, i))
            && (forall k :: k in c.entries ==> 1 <= c.entries[k].sequence <= c.next)
            && (forall j, k :: j in c.entries && k in c.entries && c.entries[j].sequence == c.entries[k].sequence ==> j == k)
  {
    EveryReachableStateIsSound(config, e, n);
    hide Execution.Of;
  }

  /** An entry, once there, is there in every later state. */
  lemma {:induction false} EntriesPersist(config: B.Config, e: Execution, m: nat, n: nat, signature: string)
    requires e.Of(config) && m <= n < |e.states| && signature in e.states[m].cache.entries
    ensures signature in e.states[n].cache.entries
    ensures e.states[n].cache.entries[signature] == e.states[m].cache.entries[signature]
    decreases n
  {
    if m < n {
      hide Step, Enabled, NewSystem;
      EntriesPersist(config, e, m, n - 1, signature);
      assert e.StepAt(n - 1);
      EntriesNeverChange(e.states[n - 1], e.actions[n - 1]);
    }
  }

  /** Every deduplicated reply names the entry that an execution of the same signature stored. */
  lemma DeduplicatedRepliesNameExecutions(config: B.Config, e: Execution, n: nat, id: nat)
    requires e.Of(config) && n < |e.states|
    requires id in e.states[n].threads && IsDeduplicated(e.states[n].threads[id])
    ensures var s := e.states[n];
            var t := s.threads[id];
            && t.call.signature in s.cache.entries
            && s.cache.entries[t.call.signature] == t.phase.outcome.entry
            && exists u :: u in s.threads && Wrote(s.threads[u], t.call.signature, t.phase.outcome.entry)
  {
    EveryReachableStateIsSound(config, e, n);
    var s := e.states[n];
    hide Execution.Of;
    assert NamesOwnEntry(s, s.threads[id]);
  }

  // ---- When a call is answered from the cache ---------------------------------------------------------

  /** The call found this entry and takes it for its answer. */
  predicate Answers(t: Thread, entry: Entry) {
    t.phase == Hit(entry) || t.phase == Done(0, Deduplicated(entry))
  }

  /** The call found nothing: it has to run the provider. */
  predicate GoesOn(t: Thread) {
    || t.phase.Missed? || t.phase.Running? || t.phase.Answered? || t.phase.RetryGranted? || t.phase.RetryCounted?
    || t.phase.Statused?
    || (t.phase.Done? && t.phase.runs >= 1 && !t.phase.outcome.Deduplicated? && !t.phase.outcome.Blocked?)
  }

  lemma AnswersStay(s: System, a: Action, id: nat, entry: Entry)
    requires Enabled(s, a) && id in s.threads && Answers(s.threads[id], entry)
    ensures id in Step(s, a).threads && Answers(Step(s, a).threads[id], entry)
    ensures Step(s, a).threads[id].call == s.threads[id].call
  {
    hide B.BeforeToolCall, B.RecordRetry, B.Apply, Store, RecordDataStatus, DataStatus;
  }

  lemma GoesOnStays(s: System, a: Action, id: nat)
    requires PhasesInOrder(s) && Enabled(s, a) && id in s.threads && GoesOn(s.threads[id])
    ensures id in Step(s, a).threads && GoesOn(Step(s, a).threads[id])
  {
    hide B.BeforeToolCall, B.RecordRetry, B.Apply, Store, RecordDataStatus, DataStatus;
  }

  predicate LooksUp(e: Execution, i: nat, id: nat) {
    i < |e.actions| && i < |e.states| && e.actions[i] == Lookup(id) && id in e.states[i].threads
  }

  /** The signature of a call is named and stored. */
  predicate Stored(s: System, id: nat)
    requires id in s.threads
  {
    s.threads[id].call.signature != "" && s.threads[id].call.signature in s.cache.entries
  }

  /** A call that looks up a stored signature never runs the provider, and answers with the stored entry. */
  lemma {:induction false} StoredCallsAreAnswered(config: B.Config, e: Execution, i: nat, n: nat, id: nat)
    requires e.Of(config) && LooksUp(e, i, id) && Stored(e.states[i], id)
    requires i < n < |e.states|
    ensures id in e.states[n].threads
    ensures var t := e.states[n].threads[id];
            && Runs(t.phase) == 0
            && Answers(t, e.states[i].cache.entries[e.states[i].threads[id].call.signature])
  {
    var entry := e.states[i].cache.entries[e.states[i].threads[id].call.signature];
    assert e.StepAt(n - 1);
    if n > i + 1 {
      hide Step, Enabled, NewSystem;
      StoredCallsAreAnswered(config, e, i, n - 1, id);
      AnswersStay(e.states[n - 1], e.actions[n - 1], id, entry);
    }
  }

  /** Any other call runs the provider, and never answers from the cache. */
  lemma {:induction false} OtherCallsGoOn(config: B.Config, e: Execution, i: nat, n: nat, id: nat)
    requires e.Of(config) && LooksUp(e, i, id) && !Stored(e.states[i], id)
    requires i < n < |e.states|
    ensures id in e.states[n].threads
    ensures var t := e.states[n].threads[id];
            && !t.phase.Hit? && !IsDeduplicated(t)
            && (t.phase.Done? ==> Runs(t.phase) >= 1)
            && GoesOn(t)
  {
    hide Step, Enabled, NewSystem, Invariant, GoesOn, Stored;
    assert e.StepAt(n - 1);
    if n == i + 1 {
      LookupMisses(e.states[i], id);
    } else {
      OtherCallsGoOn(config, e, i, n - 1, id);
      EveryReachableStateIsSound(config, e, n - 1);
      InvariantHasPhases(e.states[n - 1]);
      GoesOnStays(e.states[n - 1], e.actions[n - 1], id);
    }
    GoingOnMeans(e.states[n].threads[id]);
  }

  lemma LookupMisses(s: System, id: nat)
    requires Enabled(s, Lookup(id)) && id in s.threads && !Stored(s, id)
    ensures id in Step(s, Lookup(id)).threads && GoesOn(Step(s, Lookup(id)).threads[id])
  {
  }

  lemma InvariantHasPhases(s: System)
    requires Invariant(s)
    ensures PhasesInOrder(s)
  {
  }

  lemma GoingOnMeans(t: Thread)
    requires GoesOn(t)
    ensures !t.phase.Hit? && !IsDeduplicated(t) && (t.phase.Done? ==> Runs(t.phase) >= 1)
  {
  }

  /** A completed call whose result can be stored has its signature in the cache, with the number it replied. */
  predicate KeepsResult(s: System, t: Thread) {
    t.phase.Done? && t.phase.outcome.Completed? && t.call.signature != "" && t.phase.outcome.encoded != "" ==>
      t.call.signature in s.cache.entries && s.cache.entries[t.call.signature].sequence == t.phase.outcome.sequence
  }

  ghost predicate ResultsKept(s: System) {
    forall id :: id in s.threads ==> KeepsResult(s, s.threads[id])
  }

  lemma StepKeepsResults(s: System, a: Action)
    requires Enabled(s, a) && ResultsKept(s)
    ensures ResultsKept(Step(s, a))
  {
    var later := Step(s, a);
    EntriesNeverChange(s, a);
    forall id | id in later.threads ensures KeepsResult(later, later.threads[id]) {
      if a.RunnerStep? || id != a.id {
        OthersStandStill(s, a, id);
        hide Step, Enabled;
        assert KeepsResult(s, s.threads[id]);
      } else {
        ActorKeepsResult(s, a);
      }
    }
  }

  lemma ActorKeepsResult(s: System, a: Action)
    requires Enabled(s, a) && !a.RunnerStep?
    ensures a.id in Step(s, a).threads && KeepsResult(Step(s, a), Step(s, a).threads[a.id])
  {
    hide B.BeforeToolCall, B.RecordRetry, RecordDataStatus, DataStatus;
  }

  lemma {:induction false} ResultsAreKept(config: B.Config, e: Execution, n: nat)
    requires e.Of(config) && n < |e.states|
    ensures ResultsKept(e.states[n])
  {
    if n > 0 {
      hide Step, Enabled, NewSystem, ResultsKept;
      ResultsAreKept(config, e, n - 1);
      assert e.StepAt(n - 1);
      StepKeepsResults(e.states[n - 1], e.actions[n - 1]);
    }
  }

  /** Once a call has completed with a result, every later lookup of its signature is answered from the cache. */
  lemma CompletedCallsAreReused(config: B.Config, e: Execution, m: nat, i: nat, n: nat, u: nat, id: nat)
    requires e.Of(config) && m <= i < n < |e.states| && LooksUp(e, i, id)
    requires u in e.states[m].threads && e.states[m].threads[u].call.signature == e.states[i].threads[id].call.signature != ""
    requires var p := e.states[m].threads[u].phase; p.Done? && p.outcome.Completed? && p.outcome.encoded != ""
    ensures id in e.states[n].threads && Runs(e.states[n].threads[id].phase) == 0
    ensures var p := e.states[n].threads[id].phase;
            p.Done? ==> p.outcome.Deduplicated? && p.outcome.entry.sequence == e.states[m].threads[u].phase.outcome.sequence
  {
    ResultsAreKept(config, e, m);
    var signature := e.states[m].threads[u].call.signature;
    assert KeepsResult(e.states[m], e.states[m].threads[u]);
    EntriesPersist(config, e, m, i, signature);
    StoredCallsAreAnswered(config, e, i, n, id);
    hide Execution.Of;
  }

  /** What counts as partial or as fallback counts as effective too. */
  lemma {:induction false} EffectiveCountsBoth(config: B.Config, e: Execution, n: nat)
    requires e.Of(config) && n < |e.states|
    ensures var c := e.states[n].cache; c.effective >= c.partials + c.fallbacks
  {
    if n > 0 {
      EffectiveCountsBoth(config, e, n - 1);
      assert e.StepAt(n - 1);
      EffectiveStep(e.states[n - 1], e.actions[n - 1]);
      hide Step, Enabled;
    }
  }

  lemma EffectiveStep(s: System, a: Action)
    requires Enabled(s, a) && s.cache.effective >= s.cache.partials + s.cache.fallbacks
    ensures var c := Step(s, a).cache; c.effective >= c.partials + c.fallbacks
  {
    hide B.BeforeToolCall, B.RecordRetry, B.Apply, DataStatus;
  }

  // ---- When the provider is a function of the signature ---------------------------------------------------

  /** The provider's answer to this action has the status the signature determines. */
  predicate Follows(s: System, a: Action, provider: string -> string)
    requires Enabled(s, a)
  {
    a.ProviderReturns? && a.reply.Decoded? ==> DataStatus(a.reply.result) == provider(s.threads[a.id].call.signature)
  }

  ghost predicate FollowsAt(e: Execution, i: int, provider: string -> string) {
    e.StepAt(i) ==> Follows(e.states[i], e.actions[i], provider)
  }

  ghost predicate ExecutionFollows(e: Execution, provider: string -> string) {
    forall i :: FollowsAt(e, i, provider)
  }

  predicate ThreadFollows(t: Thread, provider: string -> string) {
    var expected := provider(t.call.signature);
    && (t.phase.Answered? && t.phase.reply.Decoded? ==> DataStatus(t.phase.reply.result) == expected)
    && (t.phase.Statused? ==> DataStatus(t.phase.result) == expected)
    && (t.phase.Done? && t.phase.outcome.Completed? ==> t.phase.outcome.status == expected)
  }

  ghost predicate StatusesFollow(s: System, provider: string -> string) {
    && (forall k :: k in s.cache.entries ==> s.cache.entries[k].dataStatus == provider(k) != "")
    && (forall id :: id in s.threads ==> ThreadFollows(s.threads[id], provider))
  }

  lemma StepKeepsStatuses(s: System, a: Action, provider: string -> string)
    requires Enabled(s, a) && Follows(s, a, provider) && StatusesFollow(s, provider)
    ensures StatusesFollow(Step(s, a), provider)
  {
    hide DataStatus;
    var later := Step(s, a);
    forall id | id in later.threads ensures ThreadFollows(later.threads[id], provider) {
      if a.RunnerStep? || id != a.id {
        OthersStandStill(s, a, id);
      }
    }
  }

  lemma {:induction false} ExecutionKeepsStatuses(config: B.Config, e: Execution, n: nat, provider: string -> string)
    requires e.Of(config) && n < |e.states| && ExecutionFollows(e, provider)
    ensures StatusesFollow(e.states[n], provider)
  {
    hide Step, Enabled, StatusesFollow, Follows;
    if n == 0 {
      NothingFollows(config, provider);
    } else {
      ExecutionKeepsStatuses(config, e, n - 1, provider);
      assert e.StepAt(n - 1) && FollowsAt(e, n - 1, provider);
      StepKeepsStatuses(e.states[n - 1], e.actions[n - 1], provider);
    }
  }

  lemma NothingFollows(config: B.Config, provider: string -> string)
    ensures StatusesFollow(NewSystem(config), provider)
  {
  }

  /** Reuse is invisible: a deduplicated reply reports the status a fresh execution would report. */
  lemma ReuseReportsTheFreshStatus(config: B.Config, e: Execution, n: nat, id: nat, provider: string -> string)
    requires e.Of(config) && n < |e.states| && ExecutionFollows(e, provider)
    requires id in e.states[n].threads && IsDeduplicated(e.states[n].threads[id])
    ensures var t := e.states[n].threads[id];
            DataStatus(DeduplicatedResult(t.phase.outcome.entry)) == provider(t.call.signature)
  {
    DeduplicatedRepliesNameExecutions(config, e, n, id);
    ExecutionKeepsStatuses(config, e, n, provider);
    hide Execution.Of, ExecutionFollows;
  }
}
