/**
 Detection of a turn that makes no progress (internal/agent/eino/react_runner.go:346-392).
 The lower-case table is a parameter, and so is the hash of the hypotheses, one for all runs.
 */
module Progress {

  import opened Text
  import opened Findings

  datatype Snapshot = Snapshot(uniqueToolCallCount: nat, evidenceCount: int, hypothesisHash: string)

  // ---- Snapshots -----------------------------------------------------------------------------

  predicate StandsStill(progress: seq<Snapshot>, i: int) {
    0 < i < |progress| && progress[i] == progress[i - 1]
  }

  predicate TwoRoundsStill(progress: seq<Snapshot>, i: int) {
    StandsStill(progress, i - 1) && StandsStill(progress, i)
  }

  /** Stops exactly when some three snapshots in a row are equal. */
  method EvaluateProgressSequence(progress: seq<Snapshot>) returns (stopped: bool, rounds: nat)
    ensures stopped <==> exists i :: TwoRoundsStill(progress, i)
    ensures stopped ==> rounds == 2
    ensures !stopped ==> rounds == if StandsStill(progress, |progress| - 1) then 1 else 0
  {
    if |progress| < 2 {
      return false, 0;
    }
    var noProgressRounds := 0;
    var previous := progress[0];
    for i := 1 to |progress|
      invariant previous == progress[i - 1]
      invariant noProgressRounds == if StandsStill(progress, i - 1) then 1 else 0
      invariant forall j :: j < i ==> !TwoRoundsStill(progress, j)
    {
      var current := progress[i];
      if current == previous {
        noProgressRounds := noProgressRounds + 1;
        if noProgressRounds >= 2 {
          assert TwoRoundsStill(progress, i);
          return true, noProgressRounds;
        }
        continue;
      }
      noProgressRounds := 0;
      previous := current;
    }
    return false, noProgressRounds;
  }

  // ---- Tool runs -------------------------------------------------------------------------------

  function Signature(lower: char -> char, run: ToolRun): string {
    var tool := MapText(lower, TrimSpace(run.tool));
    if run.normalizedArgsHash == "" then tool else tool + "|" + run.normalizedArgsHash
  }

  /** The first tool's name goes on, past a bar, into the arguments of the second call. */
  predicate NameRunsOver(tool: string, hash: string, otherTool: string, otherHash: string) {
    && hash != "" && |tool| < |otherTool| && otherTool[..|tool|] == tool && otherTool[|tool|] == '|'
    && hash == otherTool[|tool| + 1..] + (if otherHash == "" then "" else "|" + otherHash)
  }

  /**
   Two runs count as one call exactly when tool and arguments agree, the tool up to case and outer
   blanks, or when a tool name with a bar in it passes for a name and arguments.
   */
  lemma SameSignatureIff(lower: char -> char, a: ToolRun, b: ToolRun)
    ensures var tool, other := MapText(lower, TrimSpace(a.tool)), MapText(lower, TrimSpace(b.tool));
            Signature(lower, a) == Signature(lower, b) <==>
            || (tool == other && a.normalizedArgsHash == b.normalizedArgsHash)
            || NameRunsOver(tool, a.normalizedArgsHash, other, b.normalizedArgsHash)
            || NameRunsOver(other, b.normalizedArgsHash, tool, a.normalizedArgsHash)
  {
    var tool, other := MapText(lower, TrimSpace(a.tool)), MapText(lower, TrimSpace(b.tool));
    hide MapText, TrimSpace;
    var x, y := a.normalizedArgsHash, b.normalizedArgsHash;
    assert ['|'] == "|";
    if x != "" && y != "" {
      JoinedEqualIff(tool, x, other, y, '|');
      Regroup3(other[if |tool| < |other| then |tool| + 1 else |other|..], "|", y);
      Regroup3(tool[if |other| < |tool| then |other| + 1 else |tool|..], "|", x);
    } else if x != "" {
      BareName(tool, x, other);
    } else if y != "" {
      BareName(other, y, tool);
    }
  }

  lemma BareName(tool: string, hash: string, other: string)
    requires hash != ""
    ensures tool + "|" + hash == other <==> NameRunsOver(tool, hash, other, "")
  {
    var s := tool + "|" + hash;
    assert s[..|tool|] == tool && s[|tool|] == '|' && s[|tool| + 1..] == hash;
    if NameRunsOver(tool, hash, other, "") {
      assert other == other[..|tool|] + [other[|tool|]] + other[|tool| + 1..];
    }
  }

  /** The signatures of the runs that were executed. */
  function Signatures(lower: char -> char, runs: seq<ToolRun>): set<string> {
    set i | 0 <= i < |runs| && !runs[i].deduplicated && Signature(lower, runs[i]) != "" :: Signature(lower, runs[i])
  }

  function Evidence(runs: seq<ToolRun>): int {
    if runs == [] then 0
    else Evidence(runs[..|runs| - 1]) + (if runs[|runs| - 1].deduplicated then 0 else runs[|runs| - 1].evidenceCount)
  }

  function After(lower: char -> char, runs: seq<ToolRun>, hash: string): Snapshot {
    Snapshot(|Signatures(lower, runs)|, Evidence(runs), hash)
  }

  /** The run was answered from the cache, or repeats a call made before and brings no evidence. */
  predicate AddsNothing(lower: char -> char, runs: seq<ToolRun>, i: int) {
    0 <= i < |runs| &&
    (runs[i].deduplicated
     || (runs[i].evidenceCount == 0
         && (Signature(lower, runs[i]) == "" || Signature(lower, runs[i]) in Signatures(lower, runs[..i]))))
  }

  lemma SignaturesGrow(lower: char -> char, runs: seq<ToolRun>, i: nat)
    requires i < |runs|
    ensures Signatures(lower, runs[..i + 1]) ==
            Signatures(lower, runs[..i])
            + (if !runs[i].deduplicated && Signature(lower, runs[i]) != "" then {Signature(lower, runs[i])} else {})
  {
    hide Signature;
    var before, after := runs[..i], runs[..i + 1];
    assert after == before + [runs[i]];
    forall s ensures s in Signatures(lower, after) <==>
      s in Signatures(lower, before) || (!runs[i].deduplicated && s != "" && s == Signature(lower, runs[i]))
    {
      if s in Signatures(lower, before) {
        var k :| 0 <= k < |before| && !before[k].deduplicated && Signature(lower, before[k]) == s;
        assert after[k] == before[k];
      }
      assert after[i] == runs[i];
    }
  }

  /** A snapshot equals the one before it exactly when the run between them added nothing. */
  lemma SnapshotStandsStill(lower: char -> char, runs: seq<ToolRun>, hash: string, i: nat)
    requires i < |runs|
    ensures After(lower, runs[..i + 1], hash) == After(lower, runs[..i], hash) <==> AddsNothing(lower, runs, i)
  {
    hide Signature, Signatures;
    SignaturesGrow(lower, runs, i);
    assert runs[..i + 1][..i] == runs[..i];
    var s, before := Signature(lower, runs[i]), Signatures(lower, runs[..i]);
    assert s !in before ==> |before + {s}| == |before| + 1;
    assert s in before ==> before + {s} == before;
  }

  /**
   Stops exactly when two runs in a row, the first run apart, each add neither a new call nor
   evidence.
   */
  method EvaluateAgentProgress(lower: char -> char, toolRuns: seq<ToolRun>, hypothesisHash: string)
      returns (stopped: bool, rounds: nat)
    ensures stopped <==> exists i :: 0 < i && AddsNothing(lower, toolRuns, i) && AddsNothing(lower, toolRuns, i + 1)
    ensures stopped ==> rounds == 2
    ensures !stopped ==> rounds == if |toolRuns| > 1 && AddsNothing(lower, toolRuns, |toolRuns| - 1) then 1 else 0
  {
    hide Signature, Signatures, AddsNothing;
    var progress: seq<Snapshot> := [];
    var seenToolCalls: set<string> := {};
    var evidenceCount := 0;
    NoSignatures(lower);
    assert toolRuns[..0] == [];
    for i := 0 to |toolRuns|
      invariant seenToolCalls == Signatures(lower, toolRuns[..i])
      invariant evidenceCount == Evidence(toolRuns[..i])
      invariant |progress| == i
      invariant forall j :: 0 <= j < i ==> progress[j] == After(lower, toolRuns[..j + 1], hypothesisHash)
    {
      SignaturesGrow(lower, toolRuns, i);
      assert toolRuns[..i + 1][..i] == toolRuns[..i];
      var run := toolRuns[i];
      if !run.deduplicated {
        var signature := Signature(lower, run);
        if signature != "" {
          seenToolCalls := seenToolCalls + {signature};
        }
        evidenceCount := evidenceCount + run.evidenceCount;
      }
      progress := progress + [Snapshot(|seenToolCalls|, evidenceCount, hypothesisHash)];
    }
    forall i ensures StandsStill(progress, i) <==> 0 < i && AddsNothing(lower, toolRuns, i) {
      StillIffNothingAdded(lower, toolRuns, hypothesisHash, progress, i);
    }
    stopped, rounds := EvaluateProgressSequence(progress);
    if i :| TwoRoundsStill(progress, i) {
      assert 0 < i - 1 && AddsNothing(lower, toolRuns, i - 1) && AddsNothing(lower, toolRuns, i - 1 + 1);
    }
    if i :| 0 < i && AddsNothing(lower, toolRuns, i) && AddsNothing(lower, toolRuns, i + 1) {
      assert StandsStill(progress, i) && StandsStill(progress, i + 1);
      assert TwoRoundsStill(progress, i + 1);
    }
  }

  lemma NoSignatures(lower: char -> char)
    ensures Signatures(lower, []) == {}
  {
  }

  lemma StillIffNothingAdded(lower: char -> char, runs: seq<ToolRun>, hash: string, progress: seq<Snapshot>, i: int)
    requires |progress| == |runs| && forall j :: 0 <= j < |runs| ==> progress[j] == After(lower, runs[..j + 1], hash)
    ensures StandsStill(progress, i) <==> 0 < i && AddsNothing(lower, runs, i)
  {
    hide After;
    if 0 < i < |runs| {
      SnapshotStandsStill(lower, runs, hash, i);
      assert progress[i - 1] == After(lower, runs[..i - 1 + 1], hash);
    }
  }
}
