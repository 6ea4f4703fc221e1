/**
 The tool-call protocol of the agent harness (internal/agent/eino/react_runner.go).

 Any number of InvokableRun calls share one cache and one budget. Every locked method
 is one atomic action; lookup, execution and store are separate actions, so identical
 calls may all miss. A run is any sequence of enabled actions: the interleaving, the
 clock and the provider's replies are the run's own choice.
 */
module Harness {
  import opened Text
  import opened Collections
  import B = Budget

  // ---- Tool results -----------------------------------------------------------------

  /** The parts of common.ToolResult that decide its data status. */
  datatype ToolResult = ToolResult(
    metadataStatus: string,   // metadata["data_status"], "" when absent
    fallbackUsed: bool,       // toolResultFallbackUsed
    hasError: bool,
    evidenceCount: nat,
    warningCount: nat,
    reusedFrom: nat)          // metadata["reused_result_from"], 0 when absent

  /** toolResultDataStatus. */
  function DataStatus(r: ToolResult): (status: string)
    ensures status != ""
  {
    if r.metadataStatus != "" then r.metadataStatus
    else if r.fallbackUsed then "fallback"
    else if r.hasError then "unknown"
    else if r.evidenceCount == 0 then "empty"
    else if r.warningCount > 0 then "partial"
    else "available"
  }

  /** A status of the tool's own wins; without one, each status has its exact occasion. */
  lemma DataStatusMeans(r: ToolResult)
    ensures r.metadataStatus != "" ==> DataStatus(r) == r.metadataStatus
    ensures r.metadataStatus == "" ==>
              && (DataStatus(r) == "fallback" <==> r.fallbackUsed)
              && (DataStatus(r) == "unknown" <==> r.hasError && !r.fallbackUsed)
              && (DataStatus(r) == "empty" <==> r.evidenceCount == 0 && !r.hasError && !r.fallbackUsed)
              && (DataStatus(r) == "partial" <==>
                    r.warningCount > 0 && r.evidenceCount > 0 && !r.hasError && !r.fallbackUsed)
              && (DataStatus(r) == "available" <==>
                    r.warningCount == 0 && r.evidenceCount > 0 && !r.hasError && !r.fallbackUsed)
  {
    assert "fallback"[0] == 'f' && "unknown"[0] == 'u' && "empty"[0] == 'e' && "partial"[0] == 'p' && "available"[0] == 'a';
  }

  datatype Entry = Entry(sequence: nat, encoded: string, dataStatus: string)

  /** deduplicatedToolResult: no evidence, one warning, and the stored status in the metadata. */
  function DeduplicatedResult(entry: Entry): ToolResult {
    ToolResult(entry.dataStatus, false, false, 0, 1, entry.sequence)
  }

  // ---- The cache ------------------------------------------------------------------------

  datatype Cache = Cache(
    next: nat,
    entries: map<string, Entry>,
    attempts: nat,
    executed: nat,
    deduped: nat,
    retries: nat,
    effective: nat,
    noData: nat,
    partials: nat,
    fallbacks: nat)

  const EMPTY_CACHE := Cache(0, map[], 0, 0, 0, 0, 0, 0, 0, 0)

  predicate Effective(status: string) {
    status == "available" || status == "partial" || status == "fallback"
  }

  function RecordDataStatus(c: Cache, status: string): Cache {
    c.(effective := c.effective + (if Effective(status) then 1 else 0),
       noData := c.noData + (if status == "empty" then 1 else 0),
       partials := c.partials + (if status == "partial" then 1 else 0),
       fallbacks := c.fallbacks + (if status == "fallback" then 1 else 0))
  }

  /** The cache after `store`; the first writer of a signature wins. */
  function Store(c: Cache, signature: string, encoded: string, status: string): Cache {
    if signature == "" || encoded == "" || signature in c.entries then c
    else c.(next := c.next + 1, entries := c.entries[signature := Entry(c.next + 1, encoded, status)])
  }

  /** The sequence number `store` answers with; 0 means nothing is stored. */
  function StoredSequence(c: Cache, signature: string, encoded: string): nat {
    if signature == "" || encoded == "" then 0
    else if signature in c.entries then c.entries[signature].sequence
    else c.next + 1
  }

  // ---- Calls --------------------------------------------------------------------------

  /** What identifies a call: the budget's fingerprint and the cache's signature. */
  datatype Call = Call(fingerprint: string, signature: string)

  /** A provider's answer. `encoded` is None when the enriched result cannot be marshalled. */
  datatype ProviderReply =
    | ProviderError(retryable: bool)
    | Undecodable
    | Decoded(result: ToolResult, encoded: Option<string>)

  datatype Outcome =
    | Blocked(reason: B.StopReason)
    | Deduplicated(entry: Entry)
    | Failed
    | Raw                                                          // the provider's text, unchanged
    | Completed(encoded: string, status: string, sequence: nat)

  /** Where a call stands. `runs` counts the provider executions it has recorded. */
  datatype Phase =
    | Fresh
    | Attempted
    | Admitted
    | Missed
    | Hit(entry: Entry)
    | Running(runs: nat)
    | Answered(runs: nat, reply: ProviderReply)
    | RetryGranted
    | RetryCounted
    | Statused(runs: nat, result: ToolResult, encoded: Option<string>)
    | Done(runs: nat, outcome: Outcome)

  datatype Thread = Thread(call: Call, phase: Phase)

  datatype System = System(budget: B.State, cache: Cache, threads: map<nat, Thread>)

  function NewSystem(config: B.Config): System {
    System(B.NewState(config), EMPTY_CACHE, map[])
  }

  // ---- Actions --------------------------------------------------------------------------

  datatype Action =
    | Spawn(id: nat, call: Call)
    | RecordAttempt(id: nat)
    | AskBudget(id: nat, now: B.Clock)
    | Lookup(id: nat)
    | RecordDeduped(id: nat)
    | RecordExecuted(id: nat)                     // and the provider is called
    | ProviderReturns(id: nat, reply: ProviderReply)
    | AskRetry(id: nat, now: B.Clock)             // RecordRetry on the budget
    | RecordRetry(id: nat)                        // recordRetry on the cache
    | RecordStatus(id: nat)
    | StoreResult(id: nat)
    | RunnerStep(op: B.Op)                        // StartStep, Complete or Stop by the runner

  /** The phase in which a call takes an action of its own. */
  predicate PhaseAllows(p: Phase, a: Action) {
    match a
    case RecordAttempt(_) => p.Fresh?
    case AskBudget(_, _) => p.Attempted?
    case Lookup(_) => p.Admitted?
    case RecordDeduped(_) => p.Hit?
    case RecordExecuted(_) => p.Missed? || p.RetryCounted?
    case ProviderReturns(_, _) => p.Running?
    case AskRetry(_, _) => p.Answered? && p.runs == 1 && p.reply == ProviderError(true)
    case RecordRetry(_) => p.RetryGranted?
    case RecordStatus(_) => p.Answered? && p.reply.Decoded?
    case StoreResult(_) => p.Statused?
    case Spawn(_, _) => false
    case RunnerStep(_) => false
  }

  predicate Enabled(s: System, a: Action) {
    match a
    case Spawn(id, _) => id !in s.threads
    case RunnerStep(op) => op.OpStartStep? || op.OpComplete? || op.OpStop?
    case _ => a.id in s.threads && PhaseAllows(s.threads[a.id].phase, a)
  }

  /** What a call does next once the provider has answered without asking for a retry. */
  function AfterReply(runs: nat, reply: ProviderReply): Phase {
    match reply
    case ProviderError(retryable) => if retryable && runs == 1 then Answered(runs, reply) else Done(runs, Failed)
    case Undecodable => Done(runs, Raw)
    case Decoded(_, _) => Answered(runs, reply)
  }

  function Move(s: System, id: nat, phase: Phase): System
    requires id in s.threads
  {
    s.(threads := s.threads[id := s.threads[id].(phase := phase)])
  }

  function Step(s: System, a: Action): System
    requires Enabled(s, a)
  {
    var c := s.cache;
    match a
    case Spawn(id, call) => s.(threads := s.threads[id := Thread(call, Fresh)])
    case RecordAttempt(id) => Move(s, id, Attempted).(cache := c.(attempts := c.attempts + 1))
    case AskBudget(id, now) =>
      var r := B.BeforeToolCall(s.budget, now, s.threads[id].call.fingerprint);
      Move(s, id, if r.reason == B.Running then Admitted else Done(0, Blocked(r.reason))).(budget := r.state)
    case Lookup(id) =>
      var signature := s.threads[id].call.signature;
      Move(s, id, if signature != "" && signature in c.entries then Hit(c.entries[signature]) else Missed)
    case RecordDeduped(id) =>
      Move(s, id, Done(0, Deduplicated(s.threads[id].phase.entry))).(cache := c.(deduped := c.deduped + 1))
    case RecordExecuted(id) =>
      Move(s, id, Running(if s.threads[id].phase.Missed? then 1 else 2)).(cache := c.(executed := c.executed + 1))
    case ProviderReturns(id, reply) => Move(s, id, AfterReply(s.threads[id].phase.runs, reply))
    case AskRetry(id, now) =>
      var r := B.RecordRetry(s.budget, now);
      Move(s, id, if r.reason == B.Running then RetryGranted else Done(1, Failed)).(budget := r.state)
    case RecordRetry(id) => Move(s, id, RetryCounted).(cache := c.(retries := c.retries + 1))
    case RecordStatus(id) =>
      var p := s.threads[id].phase;
      Move(s, id, Statused(p.runs, p.reply.result, p.reply.encoded))
        .(cache := RecordDataStatus(c, DataStatus(p.reply.result)))
    case StoreResult(id) =>
      var p := s.threads[id].phase;
      var signature := s.threads[id].call.signature;
      var status := DataStatus(p.result);
      if p.encoded.None? then Move(s, id, Done(p.runs, Raw))
      else
        Move(s, id, Done(p.runs, Completed(p.encoded.value, status, StoredSequence(c, signature, p.encoded.value))))
          .(cache := Store(c, signature, p.encoded.value, status))
    case RunnerStep(op) => s.(budget := B.Apply(s.budget, op).state)
  }

  /** Every action is enabled when its turn comes. */
  predicate IsRun(s: System, actions: seq<Action>)
    decreases |actions|
  {
    actions == [] || (Enabled(s, actions[0]) && IsRun(Step(s, actions[0]), actions[1..]))
  }

  function Run(s: System, actions: seq<Action>): System
    requires IsRun(s, actions)
    decreases |actions|
  {
    if actions == [] then s else Run(Step(s, actions[0]), actions[1..])
  }

  // ---- Counting threads --------------------------------------------------------------------

  ghost function Among(threads: map<nat, Thread>, p: Thread -> bool): set<nat> {
    set id | id in threads && p(threads[id])
  }

  ghost function Count(threads: map<nat, Thread>, p: Thread -> bool): nat {
    |Among(threads, p)|
  }

  function One(b: bool): nat {
    if b then 1 else 0
  }

  lemma CountAfterUpdate(threads: map<nat, Thread>, id: nat, t: Thread, p: Thread -> bool)
    ensures id in threads ==>
              Count(threads[id := t], p) == Count(threads, p) - One(p(threads[id])) + One(p(t))
    ensures id !in threads ==> Count(threads[id := t], p) == Count(threads, p) + One(p(t))
  {
    AmongAfterUpdate(threads, id, t, p);
    var before := Among(threads, p);
    assert id in before <==> id in threads && p(threads[id]);
    hide Among;
    WithAndWithout(before, id);
  }

  lemma WithAndWithout(s: set<nat>, x: nat)
    ensures |s - {x}| == |s| - One(x in s)
    ensures |s - {x} + {x}| == |s - {x}| + 1
  {
    if x in s {
      assert s == s - {x} + {x};
    } else {
      assert s - {x} == s;
    }
  }

  lemma AmongAfterUpdate(threads: map<nat, Thread>, id: nat, t: Thread, p: Thread -> bool)
    ensures Among(threads[id := t], p) == (if p(t) then Among(threads, p) - {id} + {id} else Among(threads, p) - {id})
  {
    var after := Among(threads[id := t], p);
    forall x ensures x in after <==> if x == id then p(t) else x in Among(threads, p) {
    }
  }

  lemma CountIsMonotone(threads: map<nat, Thread>, p: Thread -> bool, q: Thread -> bool)
    requires forall id :: id in threads && p(threads[id]) ==> q(threads[id])
    ensures Count(threads, p) <= Count(threads, q)
  {
    SubsetIsSmaller(Among(threads, p), Among(threads, q));
  }

  /** Two disjoint properties that together say `whole` share out its count. */
  lemma CountSplits(threads: map<nat, Thread>, whole: Thread -> bool, p: Thread -> bool, q: Thread -> bool)
    requires forall id :: id in threads ==> (whole(threads[id]) <==> p(threads[id]) || q(threads[id]))
    requires forall id :: id in threads ==> !(p(threads[id]) && q(threads[id]))
    ensures Count(threads, whole) == Count(threads, p) + Count(threads, q)
  {
    assert Among(threads, whole) == Among(threads, p) + Among(threads, q);
  }

  // ---- What the counters count -----------------------------------------------------------------

  function Runs(p: Phase): nat {
    match p
    case Running(runs) => runs
    case Answered(runs, _) => runs
    case RetryGranted => 1
    case RetryCounted => 1
    case Statused(runs, _, _) => runs
    case Done(runs, _) => runs
    case _ => 0
  }

  predicate HasAttempted(t: Thread) { !t.phase.Fresh? }

  predicate IsBlocked(t: Thread) { t.phase.Done? && t.phase.outcome.Blocked? }

  predicate WasAdmitted(t: Thread) { !t.phase.Fresh? && !t.phase.Attempted? && !IsBlocked(t) }

  predicate HasExecuted(t: Thread) { Runs(t.phase) >= 1 }

  predicate HasReexecuted(t: Thread) { Runs(t.phase) >= 2 }

  predicate HasRetryGrant(t: Thread) { t.phase.RetryGranted? || t.phase.RetryCounted? || Runs(t.phase) >= 2 }

  predicate HasCountedRetry(t: Thread) { t.phase.RetryCounted? || Runs(t.phase) >= 2 }

  predicate IsDeduplicated(t: Thread) { t.phase.Done? && t.phase.outcome.Deduplicated? }

  /** Attempted, but with the budget or the cache still to be asked. */
  predicate IsInFlight(t: Thread) { t.phase.Attempted? || t.phase.Admitted? || t.phase.Missed? || t.phase.Hit? }

  predicate IsRetryInFlight(t: Thread) { t.phase.RetryCounted? }

  function AdmittedWith(fingerprint: string): Thread -> bool {
    (t: Thread) => WasAdmitted(t) && t.call.fingerprint == fingerprint
  }

  function ExecutedWith(fingerprint: string): Thread -> bool {
    (t: Thread) => HasExecuted(t) && t.call.fingerprint == fingerprint
  }

  // ---- Invariants ------------------------------------------------------------------------------

  ghost predicate PhasesInOrder(s: System) {
    forall id :: id in s.threads ==>
      var p := s.threads[id].phase;
      && Runs(p) <= 2
      && (p.Running? || p.Answered? || p.Statused? ==> Runs(p) >= 1)
      && (p.Done? ==> (p.outcome.Blocked? || p.outcome.Deduplicated? <==> p.runs == 0))
  }

  ghost predicate CountersAgree(s: System) {
    var t := s.threads;
    && s.cache.attempts == Count(t, HasAttempted)
    && s.budget.toolCalls == Count(t, WasAdmitted)
    && s.cache.executed == Count(t, HasExecuted) + Count(t, HasReexecuted)
    && s.cache.deduped == Count(t, IsDeduplicated)
    && s.budget.retries == Count(t, HasRetryGrant)
    && s.cache.retries == Count(t, HasCountedRetry)
  }

  ghost predicate BudgetKept(b: B.State) {
    b.config.Positive() && b.toolCalls <= b.config.maxToolCalls && b.retries <= b.config.maxRetries
  }

  ghost predicate RepeatsBounded(s: System, fingerprint: string) {
    && Count(s.threads, AdmittedWith(fingerprint)) <= B.CountOf(s.budget.fingerprints, fingerprint)
    && (s.budget.config.enableRepeatedToolDetection ==>
          Count(s.threads, AdmittedWith(fingerprint)) <= s.budget.config.maxRepeatedToolCalls)
  }

  /** Sequence numbers are a bijection between the entries and 1..next. */
  ghost predicate SequencesOk(c: Cache) {
    && |c.entries| == c.next
    && (forall k :: k in c.entries ==> k != "" && 1 <= c.entries[k].sequence <= c.next)
    && (forall j, k :: j in c.entries && k in c.entries && c.entries[j].sequence == c.entries[k].sequence ==> j == k)
    && (forall i :: 1 <= i <= c.next ==> HasSequence(c, i))
  }

  ghost predicate HasSequence(c: Cache, i: nat) {
    exists k :: k in c.entries && c.entries[k].sequence == i
  }

  /** `t` is a finished execution whose result is the entry of its signature. */
  ghost predicate Wrote(t: Thread, signature: string, entry: Entry) {
    && t.call.signature == signature
    && t.phase.Done?
    && t.phase.runs >= 1
    && t.phase.outcome == Completed(entry.encoded, entry.dataStatus, entry.sequence)
  }

  /** Every entry was written by an execution; every hit names the entry of its own signature. */
  ghost predicate CacheAgrees(s: System) {
    && SequencesOk(s.cache)
    && (forall k :: k in s.cache.entries ==>
          exists id :: id in s.threads && Wrote(s.threads[id], k, s.cache.entries[k]))
    && (forall id :: id in s.threads ==> NamesOwnEntry(s, s.threads[id]))
  }

  ghost predicate NamesOwnEntry(s: System, t: Thread) {
    var k := t.call.signature;
    && (t.phase.Hit? ==> k in s.cache.entries && s.cache.entries[k] == t.phase.entry)
    && (t.phase.Done? && t.phase.outcome.Deduplicated? ==>
          k in s.cache.entries && s.cache.entries[k] == t.phase.outcome.entry)
  }

  ghost predicate Invariant(s: System) {
    && PhasesInOrder(s)
    && CountersAgree(s)
    && BudgetKept(s.budget)
    && CacheAgrees(s)
  }

  // ---- Every action keeps the counters -------------------------------------------------------------

  lemma CountsAfterUpdate(threads: map<nat, Thread>, id: nat, t: Thread)
    requires id in threads
    ensures var u := threads[id];
            var after := threads[id := t];
            && Count(after, HasAttempted) == Count(threads, HasAttempted) - One(HasAttempted(u)) + One(HasAttempted(t))
            && Count(after, WasAdmitted) == Count(threads, WasAdmitted) - One(WasAdmitted(u)) + One(WasAdmitted(t))
            && Count(after, HasExecuted) == Count(threads, HasExecuted) - One(HasExecuted(u)) + One(HasExecuted(t))
            && Count(after, HasReexecuted)
               == Count(threads, HasReexecuted) - One(HasReexecuted(u)) + One(HasReexecuted(t))
            && Count(after, IsDeduplicated)
               == Count(threads, IsDeduplicated) - One(IsDeduplicated(u)) + One(IsDeduplicated(t))
            && Count(after, HasRetryGrant)
               == Count(threads, HasRetryGrant) - One(HasRetryGrant(u)) + One(HasRetryGrant(t))
            && Count(after, HasCountedRetry)
               == Count(threads, HasCountedRetry) - One(HasCountedRetry(u)) + One(HasCountedRetry(t))
  {
    CountAfterUpdate(threads, id, t, HasAttempted);
    CountAfterUpdate(threads, id, t, WasAdmitted);
    CountAfterUpdate(threads, id, t, HasExecuted);
    CountAfterUpdate(threads, id, t, HasReexecuted);
    CountAfterUpdate(threads, id, t, IsDeduplicated);
    CountAfterUpdate(threads, id, t, HasRetryGrant);
    CountAfterUpdate(threads, id, t, HasCountedRetry);
  }

  lemma SpawnKeepsCounters(s: System, id: nat, call: Call)
    requires CountersAgree(s) && id !in s.threads
    ensures CountersAgree(Step(s, Spawn(id, call)))
  {
    var t := Thread(call, Fresh);
    CountAfterUpdate(s.threads, id, t, HasAttempted);
    CountAfterUpdate(s.threads, id, t, WasAdmitted);
    CountAfterUpdate(s.threads, id, t, HasExecuted);
    CountAfterUpdate(s.threads, id, t, HasReexecuted);
    CountAfterUpdate(s.threads, id, t, IsDeduplicated);
    CountAfterUpdate(s.threads, id, t, HasRetryGrant);
    CountAfterUpdate(s.threads, id, t, HasCountedRetry);
  }

  /** What asking the budget does to its counters. */
  lemma AskingSteps(b: B.State, now: B.Clock, fingerprint: string)
    ensures var r := B.BeforeToolCall(b, now, fingerprint);
            && r.state.toolCalls == b.toolCalls + One(r.reason == B.Running)
            && r.state.retries == b.retries && r.state.config == b.config
            && (r.reason == B.Running ==> b.toolCalls < b.config.maxToolCalls)
  {
  }

  lemma RetryingSteps(b: B.State, now: B.Clock)
    ensures var r := B.RecordRetry(b, now);
            && r.state.retries == b.retries + One(r.reason == B.Running)
            && r.state.toolCalls == b.toolCalls && r.state.config == b.config
            && r.state.fingerprints == b.fingerprints
            && (r.reason == B.Running ==> b.retries < b.config.maxRetries)
  {
  }

  /** The runner's own operations leave the counters of calls alone. */
  lemma RunnerSteps(b: B.State, op: B.Op)
    requires op.OpStartStep? || op.OpComplete? || op.OpStop?
    ensures var r := B.Apply(b, op).state;
            && r.toolCalls == b.toolCalls && r.retries == b.retries && r.config == b.config
            && r.fingerprints == b.fingerprints
  {
  }

  /** Each counter moves exactly as the thread that acted changes sides. */
  ghost predicate MovesTogether(s: System, later: System, id: nat) {
    && id in s.threads && id in later.threads
    && later.threads == s.threads[id := later.threads[id]]
    && var u, t := s.threads[id], later.threads[id];
       && t.call == u.call
       && later.cache.attempts + One(HasAttempted(u)) == s.cache.attempts + One(HasAttempted(t))
       && later.budget.toolCalls + One(WasAdmitted(u)) == s.budget.toolCalls + One(WasAdmitted(t))
       && later.cache.executed + One(HasExecuted(u)) + One(HasReexecuted(u))
          == s.cache.executed + One(HasExecuted(t)) + One(HasReexecuted(t))
       && later.cache.deduped + One(IsDeduplicated(u)) == s.cache.deduped + One(IsDeduplicated(t))
       && later.budget.retries + One(HasRetryGrant(u)) == s.budget.retries + One(HasRetryGrant(t))
       && later.cache.retries + One(HasCountedRetry(u)) == s.cache.retries + One(HasCountedRetry(t))
  }

  lemma AskBudgetMovesTogether(s: System, id: nat, now: B.Clock)
    requires Enabled(s, AskBudget(id, now))
    ensures MovesTogether(s, Step(s, AskBudget(id, now)), id)
  {
    AskingSteps(s.budget, now, s.threads[id].call.fingerprint);
    hide B.BeforeToolCall;
  }

  lemma AskRetryMovesTogether(s: System, id: nat, now: B.Clock)
    requires Enabled(s, AskRetry(id, now))
    ensures MovesTogether(s, Step(s, AskRetry(id, now)), id)
  {
    RetryingSteps(s.budget, now);
    hide B.RecordRetry;
  }

  lemma LookupMovesTogether(s: System, a: Action)
    requires Enabled(s, a) && (a.RecordAttempt? || a.Lookup? || a.RecordDeduped? || a.RecordRetry?)
    ensures MovesTogether(s, Step(s, a), a.id)
  {
  }

  lemma ProviderMovesTogether(s: System, a: Action)
    requires PhasesInOrder(s) && Enabled(s, a) && (a.RecordExecuted? || a.ProviderReturns?)
    ensures MovesTogether(s, Step(s, a), a.id)
  {
  }

  lemma ResultMovesTogether(s: System, a: Action)
    requires PhasesInOrder(s) && Enabled(s, a) && (a.RecordStatus? || a.StoreResult?)
    ensures MovesTogether(s, Step(s, a), a.id)
  {
    hide DataStatus;
  }

  lemma ActionMovesTogether(s: System, a: Action)
    requires PhasesInOrder(s) && Enabled(s, a) && !a.Spawn? && !a.RunnerStep?
    ensures MovesTogether(s, Step(s, a), a.id)
  {
    hide MovesTogether, Step, Enabled, PhasesInOrder;
    match a
    case AskBudget(id, now) => AskBudgetMovesTogether(s, id, now);
    case AskRetry(id, now) => AskRetryMovesTogether(s, id, now);
    case RecordExecuted(_) => ProviderMovesTogether(s, a);
    case ProviderReturns(_, _) => ProviderMovesTogether(s, a);
    case RecordStatus(_) => ResultMovesTogether(s, a);
    case StoreResult(_) => ResultMovesTogether(s, a);
    case _ => LookupMovesTogether(s, a);
  }

  lemma MovingTogetherKeepsCounters(s: System, later: System, id: nat)
    requires CountersAgree(s) && MovesTogether(s, later, id)
    ensures CountersAgree(later)
  {
    CountsAfterUpdate(s.threads, id, later.threads[id]);
    hide Count, HasAttempted, WasAdmitted, HasExecuted, HasReexecuted, IsDeduplicated, HasRetryGrant, HasCountedRetry;
  }

  lemma StepKeepsCounters(s: System, a: Action)
    requires PhasesInOrder(s) && CountersAgree(s) && Enabled(s, a)
    ensures CountersAgree(Step(s, a))
  {
    match a
    case Spawn(id, call) => SpawnKeepsCounters(s, id, call);
    case RunnerStep(op) => RunnerSteps(s.budget, op);
    case _ =>
      ActionMovesTogether(s, a);
      MovingTogetherKeepsCounters(s, Step(s, a), a.id);
  }

  lemma StepKeepsBudget(s: System, a: Action)
    requires BudgetKept(s.budget) && Enabled(s, a)
    ensures BudgetKept(Step(s, a).budget) && Step(s, a).budget.config == s.budget.config
  {
    match a
    case AskBudget(id, now) => AskingSteps(s.budget, now, s.threads[id].call.fingerprint);
    case AskRetry(id, now) => RetryingSteps(s.budget, now);
    case RunnerStep(op) => RunnerSteps(s.budget, op);
    case _ =>
  }

  lemma StepKeepsPhases(s: System, a: Action)
    requires PhasesInOrder(s) && Enabled(s, a)
    ensures PhasesInOrder(Step(s, a))
  {
  }

  // ---- Every action keeps the repeat limit -------------------------------------------------------

  lemma AskBudgetKeepsRepeatsBounded(s: System, id: nat, now: B.Clock, fingerprint: string)
    requires Enabled(s, AskBudget(id, now)) && fingerprint != ""
    requires RepeatsBounded(s, fingerprint)
    ensures RepeatsBounded(Step(s, AskBudget(id, now)), fingerprint)
  {
    var later := Step(s, AskBudget(id, now));
    var asked := s.threads[id].call.fingerprint;
    CountAfterUpdate(s.threads, id, later.threads[id], AdmittedWith(fingerprint));
    AskingCounts(s.budget, now, asked, fingerprint);
    hide B.BeforeToolCall, Count;
  }

  /** An admitted call was counted, and within the limit; nothing is counted down. */
  lemma AskingCounts(b: B.State, now: B.Clock, asked: string, fingerprint: string)
    requires fingerprint != ""
    ensures var r := B.BeforeToolCall(b, now, asked);
            var n := B.CountOf(r.state.fingerprints, fingerprint);
            && r.state.config == b.config
            && n >= B.CountOf(b.fingerprints, fingerprint)
            && (r.reason == B.Running && asked == fingerprint ==>
                  && n == B.CountOf(b.fingerprints, fingerprint) + 1
                  && (b.config.enableRepeatedToolDetection ==> n <= b.config.maxRepeatedToolCalls))
  {
  }

  lemma OthersKeepRepeatsBounded(s: System, a: Action, fingerprint: string)
    requires Enabled(s, a) && !a.AskBudget? && !a.Spawn? && !a.RunnerStep?
    requires RepeatsBounded(s, fingerprint)
    ensures RepeatsBounded(Step(s, a), fingerprint)
  {
    var later := Step(s, a);
    assert later.budget.fingerprints == s.budget.fingerprints && later.budget.config == s.budget.config;
    assert WasAdmitted(s.threads[a.id]) == WasAdmitted(later.threads[a.id]);
    assert later.threads == s.threads[a.id := later.threads[a.id]] && later.threads[a.id].call == s.threads[a.id].call;
    hide Step, Enabled;
    CountAfterUpdate(s.threads, a.id, later.threads[a.id], AdmittedWith(fingerprint));
    hide Count;
  }

  lemma StepKeepsRepeatsBounded(s: System, a: Action, fingerprint: string)
    requires Enabled(s, a) && fingerprint != ""
    requires RepeatsBounded(s, fingerprint)
    ensures RepeatsBounded(Step(s, a), fingerprint)
  {
    match a
    case Spawn(id, call) => CountAfterUpdate(s.threads, id, Thread(call, Fresh), AdmittedWith(fingerprint));
    case RunnerStep(op) => RunnerSteps(s.budget, op);
    case AskBudget(id, now) => AskBudgetKeepsRepeatsBounded(s, id, now, fingerprint);
    case _ =>
      hide Step, RepeatsBounded;
      OthersKeepRepeatsBounded(s, a, fingerprint);
  }

  // ---- Every action keeps the cache honest ---------------------------------------------------------

  /** First writer wins: an entry that is there stays there, unchanged. */
  lemma EntriesNeverChange(s: System, a: Action)
    requires Enabled(s, a)
    ensures forall k :: k in s.cache.entries ==>
              k in Step(s, a).cache.entries && Step(s, a).cache.entries[k] == s.cache.entries[k]
  {
  }

  lemma StoreKeepsSequences(c: Cache, signature: string, encoded: string, status: string)
    requires SequencesOk(c)
    ensures SequencesOk(Store(c, signature, encoded, status))
  {
    var stored := Store(c, signature, encoded, status);
    if stored != c {
      assert stored.entries[signature].sequence == stored.next;
      forall i | 1 <= i <= stored.next ensures HasSequence(stored, i) {
        if i < stored.next {
          assert HasSequence(c, i);
          var k :| k in c.entries && c.entries[k].sequence == i;
          assert k in stored.entries && stored.entries[k].sequence == i;
        }
      }
    }
  }

  lemma StepKeepsSequences(s: System, a: Action)
    requires SequencesOk(s.cache) && Enabled(s, a)
    ensures SequencesOk(Step(s, a).cache)
  {
    if a.StoreResult? {
      var t := s.threads[a.id];
      if t.phase.encoded.Some? {
        StoreKeepsSequences(s.cache, t.call.signature, t.phase.encoded.value, DataStatus(t.phase.result));
      }
    } else {
      SameEntriesSameSequences(s.cache, Step(s, a).cache);
    }
  }

  lemma SameEntriesSameSequences(c: Cache, d: Cache)
    requires SequencesOk(c) && d.entries == c.entries && d.next == c.next
    ensures SequencesOk(d)
  {
    forall i | 1 <= i <= d.next ensures HasSequence(d, i) {
      assert HasSequence(c, i);
    }
  }

  /** A finished call takes no further action. */
  lemma FinishedStaysFinished(s: System, a: Action, id: nat)
    requires Enabled(s, a) && id in s.threads && s.threads[id].phase.Done?
    ensures id in Step(s, a).threads && Step(s, a).threads[id] == s.threads[id]
  {
  }

  lemma OthersStandStill(s: System, a: Action, id: nat)
    requires Enabled(s, a) && id in Step(s, a).threads
    requires a.RunnerStep? || id != a.id
    ensures id in s.threads && Step(s, a).threads[id] == s.threads[id]
  {
  }

  lemma NewEntryIsWritten(s: System, a: Action, k: string)
    requires PhasesInOrder(s) && Enabled(s, a)
    requires k in Step(s, a).cache.entries && k !in s.cache.entries
    ensures !a.RunnerStep? && a.id in Step(s, a).threads
    ensures Wrote(Step(s, a).threads[a.id], k, Step(s, a).cache.entries[k])
  {
    assert a.StoreResult?;
  }

  lemma StepKeepsWriters(s: System, a: Action)
    requires PhasesInOrder(s) && CacheAgrees(s) && Enabled(s, a)
    ensures var later := Step(s, a);
            forall k :: k in later.cache.entries ==>
              exists id :: id in later.threads && Wrote(later.threads[id], k, later.cache.entries[k])
  {
    var later := Step(s, a);
    EntriesNeverChange(s, a);
    forall k | k in later.cache.entries
      ensures exists id :: id in later.threads && Wrote(later.threads[id], k, later.cache.entries[k])
    {
      hide Step, Enabled;
      if k in s.cache.entries {
        var id :| id in s.threads && Wrote(s.threads[id], k, s.cache.entries[k]);
        FinishedStaysFinished(s, a, id);
        assert Wrote(later.threads[id], k, later.cache.entries[k]);
      } else {
        NewEntryIsWritten(s, a, k);
      }
    }
  }

  lemma ActorNamesOwnEntry(s: System, a: Action)
    requires Enabled(s, a) && !a.RunnerStep?
    requires forall id :: id in s.threads ==> NamesOwnEntry(s, s.threads[id])
    ensures NamesOwnEntry(Step(s, a), Step(s, a).threads[a.id])
  {
  }

  lemma StepKeepsNames(s: System, a: Action)
    requires CacheAgrees(s) && Enabled(s, a)
    ensures forall id :: id in Step(s, a).threads ==> NamesOwnEntry(Step(s, a), Step(s, a).threads[id])
  {
    var later := Step(s, a);
    EntriesNeverChange(s, a);
    hide Step, Enabled;
    forall id | id in later.threads ensures NamesOwnEntry(later, later.threads[id]) {
      if a.RunnerStep? || id != a.id {
        OthersStandStill(s, a, id);
        assert NamesOwnEntry(s, s.threads[id]);
      } else {
        ActorNamesOwnEntry(s, a);
      }
    }
  }

  lemma StepKeepsCache(s: System, a: Action)
    requires PhasesInOrder(s) && CacheAgrees(s) && Enabled(s, a)
    ensures CacheAgrees(Step(s, a))
  {
    StepKeepsSequences(s, a);
    StepKeepsWriters(s, a);
    StepKeepsNames(s, a);
  }

  // ---- The whole invariant -----------------------------------------------------------------

  lemma StepKeepsInvariant(s: System, a: Action)
    requires Invariant(s) && Enabled(s, a)
    ensures Invariant(Step(s, a)) && Step(s, a).budget.config == s.budget.config
  {
    hide Step, Enabled, CountersAgree, CacheAgrees, PhasesInOrder, BudgetKept;
    StepKeepsPhases(s, a);
    StepKeepsCounters(s, a);
    StepKeepsBudget(s, a);
    StepKeepsCache(s, a);
  }
}
