# WatchOps-Lite: a verified model of the machinery around the model

WatchOps-Lite runs an LLM agent over operational evidence. What the LLM says is
arbitrary; the code around it bounds the work it may cause, decides what its text
counts as, and keeps every statement tied to evidence. This project models that code
in Dafny and proves what it promises.

Each module follows one part of the repository.

| module | part |
|---|---|
| `Text`, `Words`, `Collections`, `Metadata` | the functions of Go's `strings` package, the words of a text, sorting and metadata, as the others use them |
| `Fingerprint` | the identity of a tool call: the JSON printer and `ToolCallFingerprint` |
| `Budget` | the execution budget of a turn, as a state machine and as the object |
| `Harness`, `Executions` | any number of concurrent tool calls on one budget and one cache: the step system and what each step keeps; what holds in every reachable state |
| `DedupeCache` | the cache object and `InvokableRun`, proved to be runs of that step system |
| `JsonRepair`, `JsonObject` | the removal of trailing commas from JSON; the repair of an answer around it |
| `AgentOutput` | parsing of the single agent's answer |
| `CallJson` | one role's call to its model, its repair and its time budgets |
| `Aggregate` | aggregation of evidence candidates |
| `Limitations` | merging of limitations |
| `Findings`, `Hypotheses`, `Diagnosis`, `Verdicts`, `Synthesis` | from merged findings to the grounded answer; what the diagnosis says, told by the evidence |
| `History`, `Progress` | the evaluation of a finished turn |
| `Sse`, `SseReads` | the server's event writer and the web client's incremental reader; when the reads show in what is processed |

**Form.** Code that changes state step by step is imperative here too: `ExecutionBudget`,
`ToolDedupeCache`, `RoleCall` and `Client` are classes whose methods update their fields,
loops are loops, and the digit buffer of an anonymous key is an array reversed in place.
Every such method is proved against a specification function, and the properties are
proved about that function. Where the function decides something (a reply, a status, a
ranking, what is kept), a theorem says when, in terms of fields, positions and counters.
Concurrency is a step system: the Go code locks each cache and budget operation, so one
locked operation is one atomic step, and steps of different calls interleave in any order.
`InvokableRun` carries a ghost trace that shows it to be a run of that system.

**Inputs from outside.** The LLM, the tool provider, the clock, contexts, `json.Unmarshal`
and the Unicode case tables are parameters, so every theorem holds for all of them. Where
a fact about one is needed it is a named precondition: `Limitations.IsUpperTable` (the
case table is idempotent, leaves ASCII capitals and the blank alone and maps spaces to
spaces), `Diagnosis.Wording.Sound` (a causal statement is not blank) and
`Synthesis.Texts.Sound` (the fixed texts are not blank).

**Where the code falls short of the plain statement of a property**, the model keeps the code
and the project says when the property holds. The condition is exact, but for the keys of
`canonicalJSON`:

- `canonicalJSON` prints keys unescaped. Keys without a colon that do not start with a closing
  brace are enough for the printed form to identify a value (`SameTextIffSameValue`), and neither
  half of that can be dropped (`BareKeysCollide`, `BraceKeysCollide`); which other sets of keys
  happen to do is not characterised. A text that does not parse can share the fingerprint of one
  that does (`UnparsedTextCollides`).
- A tool name may contain `|`, which also joins it to the arguments: two fingerprints are equal if
  and only if name and argument text are, or one name runs over, past a bar, into the other's
  arguments (`EqualFingerprintsIff`, `PipedNamesCollide`).
- A Markdown fence is removed with the line it stands on: an object in prose is found if and only
  if that line ends before the object (`StripFindsTheObjectIff`).
- `removeTrailingCommas` is one pass: of any number of trailing commas it drops the last one before
  each closing bracket (`RepairDropsTheLastCommas`). What it returns is JSON, and `RepairJSON`
  succeeds, if and only if no bracket has two (`RepairedTextIsJsonIff`, `RepairSucceedsIff`);
  `[1,,]` becomes `[1,]` (`OnePassOnly`).
- An evidence ID such as `#1` can displace evidence without an ID: aggregation keeps exactly the
  right candidates if and only if no ID equals an anonymous key in use
  (`KeepsTheRightOnesIffNoCollision`).
- "TOPOLOGY" contains "LOG", so `TOPOLOGY_NO_DATA` is never produced (`TopologyIsFiledUnderLogs`).
- A limitation's key joins code and tool with a NUL character. A key is that of one pair only if
  and only if neither part holds a NUL (`KeyNamesOnePairIff`); merging keeps one limitation per
  code and tool if and only if no two pairs share a key (`MergeIsOnePerPairIff`), and loses one
  otherwise (`NulLosesALimitation`).
- The deterministic answer cites raw evidence IDs for its hypothesis while validation knows
  trimmed ones: it would pass validation if and only if those IDs are trimmed
  (`FallbackPassesIffTrimmed`, `UntrimmedIdFails`). For the same reason the model's own draft check
  accepts IDs that the agent then refuses (`AcceptableIffDraftAcceptedAndTrimmed`).
- A diagnosis on strong but incomplete evidence is reported as "hypothesis_only", one on weaker
  evidence as "supported" (`Verdicts.StatusMeans`): no branch of `diagnosisStatusForRoot` has a case
  for high confidence on partial evidence.
- `shouldRepairJSON` can never answer "insufficient_budget": its threshold never exceeds what
  remains (`RepairsAreRefusedOnlyForTime`).
- The stream reader normalises its buffer at every read, so a text with CRCRLF can be cut up
  differently depending on the reads, and only such a text can (`ChunkingMattersIffCrCrLf`). The
  blocks that are processed are the same for all reads if and only if there is no CRCRLF, or all
  of it is in a blank end of the text that no rewriting turns into a blank line
  (`ProcessedAlikeIffQuiet`).

`dafny verify dfyconfig.toml` checks the whole project.

## Model

| member | source | states |
|---|---|---|
| Fingerprint.PrintingIsUnambiguous | internal/agent/control/budget.go:173-199 | two values with plain keys that print alike, whatever text follows, are equal up to folding of string leaves, and what follows is equal too: the printed form is prefix-free |
| Fingerprint.SameTextIffSameValue | internal/agent/control/budget.go:173-199 | for plain keys: equal text if and only if equal folded value |
| Fingerprint.SameValueSameText | internal/agent/control/budget.go:173-199 | values that fold to the same value print to the same text |
| Words.FieldsAreWords | internal/agent/control/budget.go:193 | `strings.Fields` gives the words: the maximal runs of characters that are no space |
| Words.WordsAreTheMaximalRuns | internal/agent/control/budget.go:193 | the words are all the maximal runs, by position, each once, in order |
| Fingerprint.FoldsAlikeIff | internal/agent/control/budget.go:168-193 | two texts fold alike if and only if they have the same words in lower case, in the same order |
| Fingerprint.FoldedShape | internal/agent/control/budget.go:168-193 | a folded text has no outer blank, no whitespace but single blanks, the same words, and the characters that are no space as before |
| Fingerprint.EquivalentIffSameMeaning | internal/agent/control/budget.go:161-199 | two parsed documents are equivalent (same keys with equivalent values, last duplicate wins, strings with the same words in lower case) exactly when they fold to the same value |
| Fingerprint.MemberOrderDoesNotMatter | internal/agent/control/budget.go:173-199 | reordering the members of an object leaves it equivalent |
| Fingerprint.EarlierMembersOfAKeyDoNotMatter | internal/agent/control/budget.go:161-167 | of members with one key only the last counts |
| Fingerprint.BelowIff | internal/agent/control/budget.go:177-180 | keys are sorted by the first character in which they differ, a prefix first |
| Fingerprint.EquivalentCallsShareFingerprint | internal/agent/control/budget.go:161-171 | calls whose trimmed names agree in lower case and whose arguments are equivalent, so that strings may differ in case and whitespace, have the same fingerprint, with no condition on keys |
| Fingerprint.EqualFingerprintsIff | internal/agent/control/budget.go:161-171 | for any names and arguments: equal fingerprints if and only if both names are empty, name and argument text are equal, or one name runs past a bar into the other call's arguments, which needs a bar in a name |
| Fingerprint.EqualFingerprintsIffEquivalentCalls | internal/agent/control/budget.go:159-199 | for parsed arguments with plain keys: equal fingerprints if and only if equal folded names and equivalent arguments, or such a run-over |
| Fingerprint.EqualFingerprintsOfUnparsedCalls | internal/agent/control/budget.go:161-171 | for arguments that do not parse: equal fingerprints if and only if the names agree and the texts have the same words in lower case, or such a run-over |
| Fingerprint.OneTextApart | internal/agent/control/budget.go:161-199 | calls that differ in one string share the fingerprint if and only if the strings have the same words in lower case |
| Fingerprint.SortedKeysIsTheOnlyOrder | internal/agent/control/budget.go:173-186 | an ascending sequence of a set of keys is unique, so ranging over the map cannot show |
| Fingerprint.BareKeysCollide | internal/agent/control/budget.go:183 | a key with a colon and a comma prints like two members |
| Fingerprint.BraceKeysCollide | internal/agent/control/budget.go:183 | a key that starts with a closing brace prints like the end of an object, with no colon in it |
| Fingerprint.PipedNamesCollide | internal/agent/control/budget.go:161-171 | a tool name with a bar can share the fingerprint of another tool's call |
| Fingerprint.UnparsedTextCollides | internal/agent/control/budget.go:165-170 | a text that does not parse can share the fingerprint of one that does |
| Budget.Normalize | internal/agent/control/config.go:29-50 | every limit ends up positive, and a configuration that was positive is kept |
| Budget.DefaultLimits | internal/agent/control/config.go:16-50 | exactly the limits that are not positive are replaced, by these numbers |
| Budget.EveryRunBalances | internal/agent/control/budget.go:59-157 | after any sequence of operations every counter equals what the replies admitted, fingerprint counts sum to the admitted named calls plus one exactly when a repeat check stopped the turn, repeated is that sum minus the number of fingerprints, and all limits hold |
| Budget.AtMostOneOverLimit | internal/agent/control/budget.go:72-98 | at most one fingerprint is over the limit, by one, and only in a turn stopped for it |
| Budget.StopIsSticky | internal/agent/control/budget.go:113-157 | once stopped, no later operation changes the reason or any counter |
| Budget.RunningMeansNothingRefused | internal/agent/control/budget.go:59-157 | a turn that is still running has refused no operation so far |
| Budget.EveryReplyIsExplained | internal/agent/control/budget.go:59-157 | in every reachable state, for every operation: it is let through if and only if the turn runs, the context is not done, the time is not up, its counter is below its limit and its call is not repeated too often; and which reason is given otherwise |
| Budget.SumCountsBump | internal/agent/control/budget.go:83-86 | counting one more call adds one to the total of the fingerprint counts |
| Budget.ExecutionBudget.constructor | internal/agent/control/budget.go:51-57 | a new budget is the empty state with a normalised configuration |
| Budget.ExecutionBudget.StartStep | internal/agent/control/budget.go:59-70 | moves the whole state and replies as the state machine does |
| Budget.ExecutionBudget.BeforeToolCall | internal/agent/control/budget.go:72-98 | moves the whole state and replies as the state machine does for the call's fingerprint |
| Budget.ExecutionBudget.RecordRetry | internal/agent/control/budget.go:100-111 | moves the whole state and replies as the state machine does |
| Budget.ExecutionBudget.Complete | internal/agent/control/budget.go:113-120 | moves the whole state and replies as the state machine does |
| Budget.ExecutionBudget.Stop | internal/agent/control/budget.go:122-126 | sets the first reason only |
| Harness.StepKeepsInvariant | internal/agent/eino/react_runner.go:592-841 | every atomic step of every call keeps the invariant: counters, phases, budget, sequence numbers and the writers of entries |
| Harness.DataStatusMeans | internal/agent/eino/runner.go:410-433 | a status of the tool's own wins; without one, each status has its exact occasion |
| Executions.RunIsAnExecution | internal/agent/eino/react_runner.go:740-841 | a run of the step system goes through the states of an execution, so what holds in every state of every execution holds along it |
| Executions.EveryReachableStateIsSound | internal/agent/eino/react_runner.go:592-841 | the invariant of the protocol (counters, phases, budget, sequence numbers, writers of entries) holds in every state any interleaving of any number of calls reaches |
| Executions.WorkIsBounded | internal/agent/eino/react_runner.go:740-787 | in every reachable state the provider was run at most toolCalls + retries times, each within its limit |
| Executions.RepeatedExecutionsAreBounded | internal/agent/eino/react_runner.go:748-787 | with repeat detection on, at most MaxRepeatedToolCalls calls of one fingerprint are executed, even when all of them miss the cache |
| Executions.CountersReconcile | internal/agent/eino/react_runner.go:602-636 | in every reachable state the attempts are exactly the blocked, in-flight, deduplicated and executed calls |
| Executions.CountersReconcileAtRest | internal/agent/eino/react_runner.go:676-705 | when all calls have returned: attempts = blocked + deduplicated + executed - retries, and the budget's tool calls and retries follow from the cache's counters |
| Executions.SequencesAreABijection | internal/agent/eino/react_runner.go:658-674 | sequence numbers are exactly 1..next, one per entry |
| Executions.EntriesPersist | internal/agent/eino/react_runner.go:658-674 | the first writer wins: an entry is the same in every later state of any run |
| Executions.StoredCallsAreAnswered | internal/agent/eino/react_runner.go:755-761 | a call whose signature is stored when it looks it up never runs the provider, and its reply is that entry |
| Executions.OtherCallsGoOn | internal/agent/eino/react_runner.go:755-787 | any other call is never answered from the cache, and has run the provider when it is done |
| Executions.ResultsAreKept | internal/agent/eino/react_runner.go:658-674 | the result of every completed call is in the cache, under the number it was given |
| Executions.CompletedCallsAreReused | internal/agent/eino/react_runner.go:740-841 | once a call has completed with a result, every later lookup of its signature, by whatever call, is answered with it and runs nothing |
| Executions.EffectiveCountsBoth | internal/agent/eino/react_runner.go:638-656 | partial and fallback results are counted as effective too |
| Executions.DeduplicatedRepliesNameExecutions | internal/agent/eino/react_runner.go:708-761 | every deduplicated reply names an entry that some execution of the same signature stored |
| Executions.ReuseReportsTheFreshStatus | internal/agent/eino/react_runner.go:708-734 | if the provider's status depends on the signature only, a reused result reports the status a fresh one would |
| DedupeCache.ToolDedupeCache.InvokableRun | internal/agent/eino/react_runner.go:740-841 | one attempt is counted; a call the budget refuses is blocked with its reason and changes no other count; a stored one is answered with its entry, without an execution; any other is executed once, or twice exactly after a retryable error with a retry left, and concluded by the last reply; its steps form a run of the step system from fresh to done that leaves cache and budget as they are |
| DedupeCache.ToolDedupeCache.LookupEntry | internal/agent/eino/react_runner.go:592-600 | returns the entry of the signature, if there is one |
| DedupeCache.ToolDedupeCache.StoreLocked | internal/agent/eino/react_runner.go:658-674 | stores as the step system's cache does, and returns the number the stored entry has if it holds this very result |
| DedupeCache.ToolDedupeCache.RecordDataStatusLocked | internal/agent/eino/react_runner.go:638-656 | counts a status exactly as the step system's cache does |
| DedupeCache.StepProjects | internal/agent/eino/react_runner.go:740-841 | in a system of any number of calls, a step of one is enabled, and changes budget, cache and this call, exactly as it would alone, and touches no other call |
| DedupeCache.RunProjects | internal/agent/eino/react_runner.go:740-841 | what a call does alone is a run of any system that holds it |
| JsonRepair.RepairDropsTheLastCommas | internal/agent/control/controller.go:195-234 | for every JSON tree, any whitespace and any number of trailing commas: the scanner returns the same rendering, string contents included, without exactly the last comma before each closing bracket |
| JsonRepair.RepairedTextIsJsonIff | internal/agent/control/controller.go:195-234 | what it returns is JSON if and only if no bracket has two trailing commas |
| JsonRepair.IsJsonIffNoTrailing | internal/agent/control/controller.go:195-234 | a rendering is JSON if and only if it has no trailing comma |
| JsonRepair.ValidJsonIsUntouched | internal/agent/control/controller.go:195-234 | text that is JSON already is returned unchanged |
| JsonRepair.RemoveTrailingCommas | internal/agent/control/controller.go:195-225 | the loop with its two flags computes the scan the theorems are about |
| JsonRepair.FindNextNonSpace | internal/agent/control/controller.go:227-234 | returns the first character after JSON whitespace, or zero |
| JsonObject.ScanOnlyDeletes | internal/agent/control/controller.go:195-225 | the scanner deletes characters, and none but commas |
| JsonObject.StripFindsTheObjectIff | internal/agent/control/controller.go:179-193 | an object in brace-free prose is cut out whole if and only if no opening fence shares its first line break with the object or what follows |
| JsonObject.FenceLineIsLost | internal/agent/control/controller.go:181-186 | with everything on the fence's line, the object is dropped with it |
| JsonObject.RepairSucceedsIff | internal/agent/control/controller.go:139-163 | an object with trailing commas, alone or in such prose, is repaired if and only if it is not valid already and no bracket has two; the result is the object without them, and the input otherwise |
| JsonObject.RepairOnlyDeletes | internal/agent/control/controller.go:139-163 | a successful repair is valid and a subsequence of its input; a failed one is its input |
| JsonObject.Repair | internal/agent/control/controller.go:139-163 | the method computes the repair the theorems are about |
| JsonRepair.OnePassOnly | internal/agent/control/controller.go:195-225 | `[1,,]` becomes `[1,]`, and neither is JSON |
| AgentOutput.ValidEvidenceIDs | internal/agent/eino/output.go:218-235 | keeps each allowed ID once and reports exactly whether something else was cited |
| AgentOutput.KeepStatements | internal/agent/eino/output.go:90-117 | keeps the statements with a text and a valid citation, and reports exactly whether any was faulty |
| AgentOutput.KeepRecommendations | internal/agent/eino/output.go:118-127 | keeps the recommendations with a text, and reports exactly whether any cited something unknown |
| AgentOutput.ParseAgentOutput | internal/agent/eino/output.go:36-162 | the whole parse, section by section, is the function the theorems are about |
| AgentOutput.ParseAgentOutputControlled | internal/agent/eino/output.go:179-216 | the parse with one repair is the function the theorems are about |
| AgentOutput.AnswerIsGrounded | internal/agent/eino/output.go:84-216 | for any model text, repaired or not: the evidence is unchanged, all citations are evidence IDs, each once, conclusions and inferences cite at least one; a repair is tried only when enabled and needed |
| AgentOutput.NothingIsDroppedInSilence | internal/agent/eino/output.go:89-152 | unless EVIDENCE_REFERENCE_INVALID is reported, every statement with a text is in the answer, in order |
| AgentOutput.KeptStatementsAre | internal/agent/eino/output.go:90-117 | exactly the statements that say something and cite some evidence are kept, in order, with their evidence and no other citation |
| AgentOutput.ReportedIff | internal/agent/eino/output.go:69-160 | invalid references, missing sections and a lack of evidence are each reported exactly when they are the case, or were reported before |
| AgentOutput.UnparsedSaysNothing | internal/agent/eino/output.go:54-69 | a text that does not decode leaves no statement, and adds the report of that |
| AgentOutput.FenceIsStripped | internal/agent/eino/output.go:237-248 | of a fenced text only what stands between the line of the opening fence and the closing one is left |
| AgentOutput.TrailingCommasAreForgivenIff | internal/agent/eino/output.go:179-216 | an object with trailing commas gives the very answer it gives without them if no bracket has two, and does not parse otherwise |
| CallJson.BudgetsShareTheTotal | internal/multiagent/llm_analysis.go:746-766 | the two budgets add up to the total, the first is positive and at least twice the second, which is a third of less than 9s, 3s of more |
| CallJson.RepairFitsInTheCall | internal/multiagent/llm_analysis.go:718-744 | a repair's budget is positive exactly when time remains and never more than that: all of up to 3.5s, all but 500ms of up to 7s, and 6s of more |
| CallJson.RepairGetsItsShare | internal/multiagent/llm_analysis.go:718-766 | however the first attempt spends its budget, the repair gets at least its configured share and both fit in the total |
| CallJson.RepairsAreRefusedOnlyForTime | internal/multiagent/llm_analysis.go:768-811 | a repair is tried if and only if the context runs and the error is no deadline or cancellation; which of the two is given as the reason; budget never is |
| CallJson.RoleCall.CallJson | internal/multiagent/llm_analysis.go:459-697 | at most two Generate calls, one more than the retry count; exactly when it succeeds, when it repairs, and which failure it reports; success means the target validates; the target is what one or both answers decoded to, one on top of the other |
| CallJson.RoleCall.RepairJson | internal/multiagent/llm_analysis.go:813-844 | asks once more and returns the content unless the model fails or is blank |
| Aggregate.NormalizeSettles | internal/evidence/evidence.go:47-69 | a normalised item is normal |
| Aggregate.DefaultTypes | internal/evidence/evidence.go:89-106 | the type that evidence of each source gets when it has none |
| Aggregate.BetterIsAStrictTotalOrder | internal/evidence/aggregate.go:77-90 | on candidates with distinct sequence numbers the comparison is asymmetric, transitive and total |
| Aggregate.AnonymousKeysDiffer | internal/evidence/aggregate.go:92-106 | anonymous keys are equal only for equal indexes |
| Aggregate.MakeAnonymousKey | internal/evidence/aggregate.go:92-106 | the digit loop and the in-place reversal give decimal notation |
| Aggregate.ReverseInPlace | internal/evidence/aggregate.go:102-104 | the buffer ends up reversed |
| Aggregate.Aggregate | internal/evidence/aggregate.go:20-67 | whatever order the survivors map is ranged over in, the result is one function of the candidates |
| Aggregate.AnyOrderSortsTheSame | internal/evidence/aggregate.go:43-57 | groups collected in any order sort to the same group |
| Aggregate.SurvivorsAreTheWinners | internal/evidence/aggregate.go:20-67 | the survivors are exactly the candidates no other one with their key beats, once each, groups together and best first |
| Aggregate.KeptItems | internal/evidence/aggregate.go:20-67 | a kept item is a candidate's, trimmed and filled in, its score, times and confidence untouched |
| Aggregate.KeptIsTheBestOfItsId | internal/evidence/aggregate.go:77-90 | a kept item has a score if any candidate of its ID has one, and none is higher; among equal scores its latency is the least, among equal latencies it came first |
| Aggregate.ItemsOfASourceAreRanked | internal/evidence/aggregate.go:54-66 | within a source items stand scored before unscored, by descending score, ascending latency and order of arrival |
| Aggregate.SourcesStandAsTheyCame | internal/evidence/aggregate.go:37-66 | of two sources the one offered first stands first |
| Aggregate.GroupsAreTheItemsBySource | internal/evidence/aggregate.go:50-66 | there is a group for every source offered, and it holds the items of that source in their order |
| Aggregate.SourceOrderIsFirstSeen | internal/evidence/aggregate.go:37-40 | every source once, in the order of first occurrence |
| Aggregate.KeepsTheRightOnesIffNoCollision | internal/evidence/aggregate.go:26-36 | exactly the candidate of every ID that outranks the others by score, latency and arrival, and all without an ID, are kept, if and only if no ID equals an anonymous key in use |
| Aggregate.HashOneCollides | internal/evidence/aggregate.go:28-31 | evidence called "#1" beside evidence without an ID: one is lost |
| Aggregate.CountGroups | internal/evidence/aggregate.go:69-75 | the loop over the groups counts each |
| Aggregate.GroupCountsAddUp | internal/evidence/aggregate.go:20-75 | the group counts sum to the number of items |
| Aggregate.AggregationSettlesIffNoCollision | internal/evidence/aggregate.go:20-67 | aggregating the output again returns the same items if and only if the output has no collision |
| Aggregate.AggregationIsIdempotent | internal/evidence/aggregate.go:20-106 | that is so whenever no ID looks like an anonymous key |
| Limitations.CanonicalCodeSettles | internal/multiagent/merge.go:91-113 | canonical codes are canonical |
| Limitations.FiledUnderTheFirstMentioned | internal/multiagent/merge.go:91-113 | a code without NO_DATA stays, one with it is filed under the first of the kinds that it or the tool mentions |
| Limitations.TopologyIsFiledUnderLogs | internal/multiagent/merge.go:97-109 | LOGS_NO_DATA is the result exactly when NO_DATA and LOG are mentioned, which any mention of TOPOLOGY includes; TOPOLOGY_NO_DATA never is |
| Limitations.KeysMeetIff | internal/multiagent/merge.go:77 | two limitations share a key if and only if they are of one code and tool, or one code runs past a NUL into the other's tool |
| Limitations.KeyNamesOnePairIff | internal/multiagent/merge.go:77 | a key is that of one code and tool only if and only if neither holds a NUL |
| Limitations.MergeIsOnePerPairIff | internal/multiagent/merge.go:71-89 | the merge keeps every code and tool, each once, if and only if no two of them share a key |
| Limitations.NoNulNoKeyShared | internal/multiagent/merge.go:71-89 | codes without NUL share none, whatever the tools |
| Limitations.NulLosesALimitation | internal/multiagent/merge.go:71-89 | a code with a NUL in it: two limitations of different codes and tools become one |
| Limitations.MergeLimitations | internal/multiagent/merge.go:71-89 | the nested loops with the index map compute the merge the laws are about |
| Limitations.MergeKeepsTheLongest | internal/multiagent/merge.go:71-89 | one entry per key, in order of first occurrence, with the longest message of its key and the earliest of these |
| Limitations.MergeIsAssociative | internal/multiagent/merge.go:71-89 | merging some groups first, on either side, changes nothing |
| Limitations.MergeIsIdempotent | internal/multiagent/merge.go:71-89 | merging merged limitations changes nothing |
| Limitations.MergingAgainAddsNothing | internal/multiagent/merge.go:71-89 | limitations that went into a merge add nothing when merged in again |
| Findings.MergeAgentFindings | internal/multiagent/merge.go:11-69 | evidence of both agents with distinct trimmed IDs and none lost, IDs to match, runs concatenated, limitations merged |
| Findings.FirstItemsAreKept | internal/multiagent/merge.go:20-36 | the items kept are, in order, the first of each ID |
| Hypotheses.FirstSupportingCitation | internal/diagnosis/evaluator.go:85-106 | the citation of the first item that mentions what is expected, and of no later one |
| Hypotheses.SupportsIff | internal/diagnosis/evaluator.go:85-106 | an item supports what any of its fields mentions, and nothing else unless the blank between two fields is matched |
| Hypotheses.SupportFacts | internal/diagnosis/evaluator.go:60-70 | support is the set of citations found, once each; missing is exactly the rest of the expectations |
| Hypotheses.ScoreIsBounded | internal/diagnosis/evaluator.go:79-81 | a score is at most 1, not negative unless the confidence is, and support raises it until it is capped |
| Hypotheses.ScoreMeans | internal/diagnosis/evaluator.go:79-81 | the score is the confidence plus 0.12 for each citation, at most 1, to the nearest thousandth |
| Hypotheses.EvaluateOne | internal/diagnosis/evaluator.go:56-83 | the loop evaluates a hypothesis as the specification does |
| Hypotheses.EvaluatedKeeps | internal/diagnosis/evaluator.go:56-83 | evaluation keeps everything but support, status and score; each status has its number of citations |
| Hypotheses.Evaluate | internal/diagnosis/evaluator.go:21-54 | a permutation of the evaluated hypotheses, best score first and IDs ascending among equals |
| Hypotheses.EvaluatedIsWellSupported | internal/diagnosis/evaluator.go:71-78 | "supported", "proposed" and "weak" if and only if two or more, one or no different non-empty citations support it |
| Diagnosis.ValidEvidenceIDs | internal/multiagent/synthesis.go:654-670 | exactly the trimmed IDs that are evidence IDs, each once |
| Diagnosis.FirstOccurrencesAreKept | internal/multiagent/synthesis.go:654-670 | in the order of their first occurrences |
| Diagnosis.SummarizeEvidence | internal/multiagent/synthesis.go:816-835 | the counting loop computes the summary |
| Diagnosis.SummaryFacts | internal/multiagent/synthesis.go:816-885 | a count is positive, a service present, exactly when live evidence of it exists |
| Diagnosis.AdjustmentNeverRaises | internal/multiagent/synthesis.go:1014-1060 | low, medium or high confidence is never raised, citations are kept, and no status becomes confirmed |
| Diagnosis.FindRootCandidate | internal/multiagent/synthesis.go:381-399 | the two loops find the first causal statement that is no symptom, failing that the first non-blank one |
| Diagnosis.DropRepeatedFindings | internal/multiagent/synthesis.go:1361-1376 | the loop drops blank and repeated findings as the specification does |
| Diagnosis.BuildFinalDiagnosis | internal/multiagent/synthesis.go:366-511 | the loops build the diagnosis the theorems are about |
| Diagnosis.DiagnosisIsGrounded | internal/multiagent/synthesis.go:399-511 | every ID in findings, root cause, recommendations and references is an evidence ID, whatever was cited |
| Diagnosis.NoFinalLimitations | internal/multiagent/synthesis.go:1174-1345 | no limitation is reported exactly when none but execution warnings came in and every run returned full data |
| Verdicts.ConfirmedIffEarned | internal/multiagent/synthesis.go:438-475 | "confirmed" if and only if nothing is missing, live logs, traces and metrics exist beside evidence of another service, and the root candidate cites two different valid IDs |
| Verdicts.StatusMeans | internal/multiagent/synthesis.go:624-642 | all four statuses: "insufficient_evidence" if and only if nothing current was observed or the root candidate is missing or cites nothing valid; otherwise, with two citations, metrics of a dependency and logs or traces, "confirmed" or "hypothesis_only" as the evidence is complete or not; "supported" in all other cases |
| Verdicts.CompletenessMeans | internal/multiagent/synthesis.go:1378-1386 | "empty", "partial" or "complete" by what live evidence there is and whether anything is reported missing |
| Verdicts.RootCauseMeans | internal/multiagent/synthesis.go:438-460 | confidence, status, conclusion and citations of the root cause, by the candidate's citations and the live evidence |
| Verdicts.RootCandidateIs | internal/multiagent/synthesis.go:380-397 | which inference is taken for the root cause |
| Verdicts.LiveIff | internal/multiagent/synthesis.go:537-550 | evidence is left out of account exactly when its metadata mark it as a stand-in |
| Verdicts.LacksDataIff | internal/multiagent/synthesis.go:1268-1296 | which runs count as lacking data |
| Verdicts.DataLimitationIff | internal/multiagent/synthesis.go:1174-1208 | which limitations are about the data and not about the agent's run |
| Verdicts.DedupedLimitations | internal/multiagent/synthesis.go:1318-1337 | one limitation per key, none dropped, with the code and source of the first and a text as long as any |
| Verdicts.GapsAreReported | internal/multiagent/synthesis.go:1174-1345 | every data limitation that came in and every run without data is a limitation of the diagnosis, under its canonical code |
| Verdicts.FindingMeans | internal/multiagent/synthesis.go:887-934 | kind and confidence of the finding a statement becomes, by its words, its citations and what these name |
| Verdicts.FindingsAreTheStatements | internal/multiagent/synthesis.go:399-422 | each non-blank statement is a finding, in order, unless an earlier one had its key |
| Verdicts.SameFindingKeyIff | internal/multiagent/synthesis.go:1367 | two findings share a key if and only if kind, citations and text agree, or IDs with a bar run over into the text |
| Verdicts.SummaryIs | internal/multiagent/synthesis.go:467-472 | the summary is the conclusion of a cited root cause, else the first thing said, else a count |
| Verdicts.RecommendationsAre | internal/multiagent/synthesis.go:424-436 | one recommendation for each that came in, in order, with its valid citations; the first is P0, the second P1, the rest P2 |
| Verdicts.AlternativesAndReferences | internal/multiagent/synthesis.go:460-465 | the alternatives are the other inferences, the references all IDs of the evidence |
| Synthesis.ValidateSynthesisOutput | internal/multiagent/synthesis.go:264-308 | accepts exactly the outputs whose statements all say something and cite evidence only, and names what is wrong with the first that does not |
| Synthesis.AcceptableIffDraftAcceptedAndTrimmed | internal/multiagent/llm_analysis.go:1188-1213 | the agent accepts exactly the drafts that passed the model's own check and cite trimmed IDs |
| Synthesis.CitationBackedEvidenceIDs | internal/multiagent/synthesis.go:228-253 | the nested loops compute what the two lemmas below describe |
| Synthesis.AllCitedIff | internal/multiagent/synthesis.go:236-242 | the IDs found are those of the items that carry one of the citations |
| Synthesis.CitationBackedFacts | internal/multiagent/synthesis.go:228-253 | only evidence is cited, and something is whenever there is a citation and any evidence |
| Synthesis.ValidFindingEvidenceIDs | internal/multiagent/synthesis.go:1489-1507 | exactly the finding's IDs that are evidence IDs, each once |
| Synthesis.SupportedHypotheses | internal/multiagent/synthesis.go:208-216 | the filtered list starts with the best supported hypothesis |
| Synthesis.DeterministicSynthesize | internal/multiagent/synthesis.go:76-206 | the branches build the deterministic answer the theorems are about |
| Synthesis.FallbackSays | internal/multiagent/synthesis.go:117-190 | the observation cites what the evidence agent cited, the knowledge what the knowledge agent cited, and what both found is put together |
| Synthesis.FallbackInfersTheBest | internal/multiagent/synthesis.go:191-253 | the last inference is about the first supported hypothesis, and cites the items that carry its citations; if there are none, the first two |
| Synthesis.FallbackWithoutEvidence | internal/multiagent/synthesis.go:102-115 | without evidence nothing is said, and a limitation says so |
| Synthesis.FallbackPassesIffTrimmed | internal/multiagent/synthesis.go:76-308 | for well-formed findings and evaluated hypotheses the deterministic answer passes the validation it is spared if and only if the IDs cited for the best hypothesis are trimmed |
| Synthesis.FallbackPasses | internal/multiagent/synthesis.go:76-308 | with trimmed evidence IDs it always passes, the hypothesis inference included |
| Synthesis.UntrimmedIdFails | internal/multiagent/synthesis.go:228-308 | one item with a blank around its ID is enough to fail |
| Synthesis.Synthesize | internal/multiagent/synthesis.go:27-72 | for any primary output or failure: the evidence is the input's, every citation and every ID in the diagnosis is an ID of it, the fallback is used exactly when the primary output is not acceptable, and its reason is that of the failure |
| Synthesis.TrimmedIdsGroundInferences | internal/multiagent/synthesis.go:27-72 | with trimmed evidence IDs, inferences cite members of the ID set too |
| Synthesis.FallbackKeepsLimitations | internal/multiagent/synthesis.go:85-115 | merged limitations pass through fallback and second merge unchanged, one entry apart when there is no evidence |
| Synthesis.NormalizeSynthesisOutput | internal/multiagent/synthesis.go:310-362 | evidence and runs become the input's, limitations are merged, the diagnosis is that of the result |
| History.BuildState | internal/agent/control/state.go:32-72 | successes and failures add up, trailing failures are the longest failing suffix, the repeat count is the largest multiplicity and its signature the first to reach it |
| History.SignaturesTell | internal/agent/control/state.go:74-83 | runs are told apart by fingerprint, and without recorded arguments by tool, error and amount of evidence |
| History.Evaluate | internal/agent/control/controller.go:39-137 | a limitation for each fault and no other; the failure reason is the first in order of precedence, and the stop reason follows from it; fallback exactly for parse failure, too many calls, too many trailing failures or timeout |
| History.EvaluateTurn | internal/agent/eino/react_runner.go:240-249 | the same told by the runs: which faults are reported, which one is the reason, and when a fallback is required |
| Progress.EvaluateProgressSequence | internal/agent/eino/react_runner.go:374-392 | stops if and only if three snapshots in a row are equal, and counts the rounds |
| Progress.SnapshotStandsStill | internal/agent/eino/react_runner.go:346-370 | a snapshot equals the one before exactly when the run between is reused, or adds neither a call nor evidence |
| Progress.SameSignatureIff | internal/agent/eino/react_runner.go:346-370 | two runs count as one call if and only if tool and argument hash agree, or a tool name with a bar passes for both |
| Progress.EvaluateAgentProgress | internal/agent/eino/react_runner.go:346-372 | stops if and only if two runs in a row after the first each add nothing |
| Sse.ChunkingDoesNotMatter | web/app.js:412-432 | without CRCRLF, any cutting of the text into reads gives the blocks and the rest of the whole text |
| Sse.ChunkingMattersIffCrCrLf | web/app.js:418-421 | the reads can show in the result if and only if the text has CRCRLF |
| SseReads.ProcessedAlikeIffQuiet | web/app.js:412-432 | the processed blocks, and with them the events and the flag, are the same for all reads if and only if the text has no CRCRLF, or splits into whole blocks free of it and a blank end that erodes to no blank line |
| SseReads.EmptyReadsErode | web/app.js:416-429 | reads that bring nothing wear the buffer down to a blank line, if erosion makes one |
| Sse.SplitIsFaithful | web/app.js:421-427 | cutting loses no character and every cut is at the first blank line |
| Sse.Client.ProcessSSEBlock | web/app.js:434-464 | appends the block's event, if it has data, and returns its type |
| Sse.KindIsOfTheLastEventLine | web/app.js:434-438 | the type is the one named by the last line that names one |
| Sse.DataIsOfTheDataLines | web/app.js:434-440 | the data are those of all data lines, in order, without leading whitespace |
| Sse.EventIsReadFromTheLines | web/app.js:434-464 | a block without a data line is no event, any other is one |
| Sse.Client.ConsumeSSE | web/app.js:412-432 | the loops append the events of exactly the processed blocks, the unterminated last one included, and report whether one was a final answer |
| Sse.BlockRoundTrip | web/app.js:434-464 | a block the server wrote is read back as the event it was written from |
| Sse.SentEventsArrive | internal/transport/http/handler/sse.go:43-62 | whatever events the server writes, and wherever the transport cuts the text, the client receives exactly these, and reports a final answer exactly when one was sent |

## Left out

- Fingerprint.PrintingIsUnambiguous: asks for keys without a colon that do not start with a closing brace, because the code escapes no keys; the condition is enough but not exact. Numbers are their printed texts, so rendering of floating-point numbers is not modelled.
- Fingerprint.EqualFingerprintsIffEquivalentCalls: asks for such keys too; without them the calls are identified by their printed arguments only (EqualFingerprintsIff).
- JsonObject.RepairSucceedsIff: assumes that the decoder accepts exactly the JSON texts; `json.Unmarshal` itself is a parameter.
- Sse.ChunkingMattersIffCrCrLf: compares the blocks and what is left over; SseReads.ProcessedAlikeIffQuiet is about what is processed. Decoding of bytes is not modelled: a read is decoded text.
- Aggregate.BetterIsAStrictTotalOrder: scores are reals; NaN is excluded.
- Hypotheses.ScoreIsBounded: confidences are reals, without floating-point rounding.
- Verdicts.ConfirmedIffEarned: keyword lists are abstract predicates, assumed only not to call blank text causal.
- CallJson.RoleCall.CallJson: elapsed milliseconds, spans and the recovery reason are not returned; a missing validator is one that accepts everything.
- Executions.WorkIsBounded: safety only; nothing is said about scheduling or fairness, and a call without a cache or a budget is not modelled.
- DedupeCache.ToolDedupeCache.InvokableRun: stream events, spans and the metadata added to results (retry count, call sequence) are not part of the reply; of a result only what its data status depends on is kept.
- Synthesis.Synthesize: of the output's metadata only the fallback flag, its reason and the final diagnosis are modelled.
- Diagnosis.BuildFinalDiagnosis: titles, reasons, risks, interpretations, execution warnings, counters and the degradation flag are left out; limitations are deduplicated by a function, where the source loops.
- Findings.MergeAgentFindings: the plan contributes its limitations only, and the metadata flags for failed agents are left out.
- AgentOutput.ParseAgentOutput: metadata is reduced to whether parsing and repair succeeded.
- `Snapshot`, `summary` and Elapsed: reports of counters that the theorems already speak about.
- `sort.SliceStable`, `sort.Strings` and the functions of `strings` are functions here, not loops.
- UTF-8 decoding, invalid byte sequences and Unicode normalisation: text is a sequence of characters, and only message lengths are counted in bytes.
- Integer width: counters and durations are unbounded integers; none of the modelled sums comes near 64 bits.
- OpenTelemetry, streaming events, HTTP, storage, providers, prompts, configuration loading and the rest of the web client: foreign code or no effect on the results above.
- The keyword classifiers of intents, recommendation texts and localisation: tables without a property to prove.
