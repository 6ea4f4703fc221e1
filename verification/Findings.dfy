/**
 What the evidence and knowledge agents hand over, and how it is merged for synthesis
 (MergeAgentFindings in internal/multiagent/merge.go).
 */
module Findings {

  import opened Text
  import opened Metadata
  import L = Limitations

  datatype EvidenceItem = EvidenceItem(
    id: string, sourceType: string, content: string, resourceID: string, metadata: map<string, Value>)

  datatype ToolRun = ToolRun(
    tool: string, normalizedArgsHash: string, deduplicated: bool, dataStatus: string, fallbackUsed: bool,
    errorCode: string, evidenceCount: int, warningCount: int, metadata: map<string, Value>)

  datatype AgentFinding = AgentFinding(
    evidence: seq<EvidenceItem>, evidenceIDs: seq<string>,
    toolRuns: seq<ToolRun>, limitations: seq<L.Limitation>)

  datatype MergedFindings = MergedFindings(
    evidence: seq<EvidenceItem>, evidenceIDs: seq<string>,
    toolRuns: seq<ToolRun>, limitations: seq<L.Limitation>)

  function Id(item: EvidenceItem): string {
    TrimSpace(item.id)
  }

  /** evidenceIDSet: the trimmed, non-empty IDs. */
  function IdSet(evidence: seq<EvidenceItem>): set<string> {
    set i | 0 <= i < |evidence| && Id(evidence[i]) != "" :: Id(evidence[i])
  }

  lemma IdSetIs(evidence: seq<EvidenceItem>, id: string)
    ensures id in IdSet(evidence) <==> id != "" && exists i :: 0 <= i < |evidence| && TrimSpace(evidence[i].id) == id
  {
    hide TrimSpace;
    if i :| 0 <= i < |evidence| && TrimSpace(evidence[i].id) == id {
      assert Id(evidence[i]) == id;
    }
  }

  lemma IdSetAdds(a: seq<EvidenceItem>, b: seq<EvidenceItem>)
    ensures IdSet(a + b) == IdSet(a) + IdSet(b)
  {
    var c := a + b;
    forall id ensures id in IdSet(c) <==> id in IdSet(a) || id in IdSet(b) {
      if id in IdSet(a) {
        var i :| 0 <= i < |a| && Id(a[i]) == id;
        assert c[i] == a[i];
      }
      if id in IdSet(b) {
        var i :| 0 <= i < |b| && Id(b[i]) == id;
        assert c[|a| + i] == b[i];
      }
    }
  }

  lemma IdSetOfOne(item: EvidenceItem)
    ensures IdSet([item]) == if Id(item) == "" then {} else {Id(item)}
  {
    var one := [item];
    assert one[0] == item;
    assert Id(item) != "" ==> Id(item) in IdSet(one);
  }

  // ---- Merging -----------------------------------------------------------------------------

  predicate Fresh(kept: seq<EvidenceItem>, item: EvidenceItem) {
    Id(item) != "" && forall i :: 0 <= i < |kept| ==> Id(kept[i]) != Id(item)
  }

  /** The first item of every ID, in order. */
  function FirstOfEachId(items: seq<EvidenceItem>): seq<EvidenceItem> {
    if items == [] then []
    else
      var kept := FirstOfEachId(items[..|items| - 1]);
      var last := items[|items| - 1];
      if Fresh(kept, last) then kept + [last] else kept
  }

  function Ids(items: seq<EvidenceItem>): (r: seq<string>)
    ensures |r| == |items| && forall i :: 0 <= i < |items| ==> r[i] == Id(items[i])
  {
    seq(|items|, i requires 0 <= i < |items| => Id(items[i]))
  }

  predicate DistinctIds(items: seq<EvidenceItem>) {
    && (forall i :: 0 <= i < |items| ==> Id(items[i]) != "")
    && (forall i, j :: 0 <= i < j < |items| ==> Id(items[i]) != Id(items[j]))
  }

  lemma {:induction false} FirstOfEachIdKeepsIds(items: seq<EvidenceItem>)
    ensures IdSet(FirstOfEachId(items)) == IdSet(items)
    ensures DistinctIds(FirstOfEachId(items))
    ensures forall x :: x in FirstOfEachId(items) ==> x in items
  {
    hide IdSet, Id;
    if items == [] {
    } else {
      var init, last := items[..|items| - 1], items[|items| - 1];
      var kept := FirstOfEachId(init);
      FirstOfEachIdKeepsIds(init);
      assert items == init + [last];
      IdSetAdds(init, [last]);
      IdSetAdds(kept, [last]);
      IdSetOfOne(last);
      FreshOrKnown(kept, last);
    }
  }

  /** No earlier item has the ID of number p. */
  predicate IsFirst(items: seq<EvidenceItem>, p: nat) {
    p < |items| && forall k :: 0 <= k < p ==> Id(items[k]) != Id(items[p])
  }

  /** What is kept stands in its old order, and is each time the first item of its ID. */
  lemma {:induction false} FirstItemsAreKept(items: seq<EvidenceItem>) returns (at: seq<nat>)
    ensures |at| == |FirstOfEachId(items)|
    ensures forall i, j :: 0 <= i < j < |at| ==> at[i] < at[j]
    ensures forall i :: 0 <= i < |at| ==> IsFirst(items, at[i]) && items[at[i]] == FirstOfEachId(items)[i]
  {
    at := [];
    if items != [] {
      var n := |items| - 1;
      var init, last := items[..n], items[n];
      var kept := FirstOfEachId(init);
      assert FirstOfEachId(items) == if Fresh(kept, last) then kept + [last] else kept;
      at := FirstItemsAreKept(init);
      hide Id, FirstOfEachId, Fresh, IsFirst;
      forall i | 0 <= i < |at| ensures IsFirst(items, at[i]) && items[at[i]] == kept[i] {
        FirstInLonger(items, n, at[i]);
      }
      if Fresh(kept, last) {
        FreshIsFirst(items, n);
        at := at + [n];
      }
    }
  }

  lemma FirstInLonger(items: seq<EvidenceItem>, n: nat, p: nat)
    requires n <= |items| && IsFirst(items[..n], p)
    ensures IsFirst(items, p) && items[p] == items[..n][p]
  {
    hide Id;
    assert forall k :: 0 <= k < n ==> items[..n][k] == items[k];
  }

  lemma FreshIsFirst(items: seq<EvidenceItem>, n: nat)
    requires n < |items| && Fresh(FirstOfEachId(items[..n]), items[n])
    ensures IsFirst(items, n)
  {
    hide Id, FirstOfEachId, Fresh;
    forall k | 0 <= k < n ensures Id(items[k]) != Id(items[n]) {
      assert items[..n][k] == items[k];
      NotFresh(items[..n], k, items[n]);
    }
  }

  lemma NotFresh(items: seq<EvidenceItem>, k: nat, item: EvidenceItem)
    requires k < |items|
    ensures Id(items[k]) == Id(item) ==> !Fresh(FirstOfEachId(items), item)
  {
    hide FirstOfEachId, TrimSpace;
    FirstOfEachIdKeepsIds(items);
    FreshOrKnown(FirstOfEachId(items), item);
  }

  lemma FreshOrKnown(kept: seq<EvidenceItem>, item: EvidenceItem)
    ensures Fresh(kept, item) <==> Id(item) != "" && Id(item) !in IdSet(kept)
  {
    if i :| 0 <= i < |kept| && Id(kept[i]) == Id(item) && Id(item) != "" {
      assert Id(kept[i]) in IdSet(kept);
    }
  }

  method MergeAgentFindings(
      upper: char -> char, planLimitations: seq<L.Limitation>, evidenceFinding: AgentFinding, knowledgeFinding: AgentFinding)
      returns (merged: MergedFindings)
    ensures merged.evidence == FirstOfEachId(evidenceFinding.evidence + knowledgeFinding.evidence)
    ensures merged.evidenceIDs == Ids(merged.evidence)
    ensures DistinctIds(merged.evidence)
    ensures IdSet(merged.evidence) == IdSet(evidenceFinding.evidence) + IdSet(knowledgeFinding.evidence)
    ensures merged.toolRuns == evidenceFinding.toolRuns + knowledgeFinding.toolRuns
    ensures merged.limitations ==
            L.Merge(upper, planLimitations + evidenceFinding.limitations + knowledgeFinding.limitations)
  {
    hide Id, IdSet, Ids, FirstOfEachId, DistinctIds, L.Merge;
    var evidence: seq<EvidenceItem> := [];
    var evidenceIDs: seq<string> := [];
    var seenEvidence: set<string> := {};
    var groups := [evidenceFinding.evidence, knowledgeFinding.evidence];
    ghost var done: seq<EvidenceItem> := [];
    Empty();
    for g := 0 to 2
      invariant done == if g == 0 then [] else if g == 1 then groups[0] else groups[0] + groups[1]
      invariant evidence == FirstOfEachId(done) && evidenceIDs == Ids(evidence)
      invariant seenEvidence == IdSet(evidence)
    {
      var items := groups[g];
      ghost var before := done;
      for i := 0 to |items|
        invariant done == before + items[..i]
        invariant evidence == FirstOfEachId(done) && evidenceIDs == Ids(evidence)
        invariant seenEvidence == IdSet(evidence)
      {
        var item := items[i];
        var id := Id(item);
        OneMore(done, item);
        assert done + [item] == before + items[..i + 1];
        done := done + [item];
        if id == "" || id in seenEvidence {
          continue;
        }
        seenEvidence := seenEvidence + {id};
        evidence := evidence + [item];
        evidenceIDs := evidenceIDs + [id];
      }
      assert items[..|items|] == items;
      assert [] + items == items;
    }
    FirstOfEachIdKeepsIds(evidenceFinding.evidence + knowledgeFinding.evidence);
    IdSetAdds(evidenceFinding.evidence, knowledgeFinding.evidence);
    var limitations := L.MergeLimitations(upper, [planLimitations, evidenceFinding.limitations, knowledgeFinding.limitations]);
    ThreeGroups(planLimitations, evidenceFinding.limitations, knowledgeFinding.limitations);
    merged := MergedFindings(evidence, evidenceIDs, evidenceFinding.toolRuns + knowledgeFinding.toolRuns, limitations);
  }

  lemma Empty()
    ensures IdSet([]) == {} && Ids([]) == [] && FirstOfEachId([]) == []
  {
  }

  lemma OneMore(done: seq<EvidenceItem>, item: EvidenceItem)
    ensures var kept, id := FirstOfEachId(done), Id(item);
            var known := id == "" || id in IdSet(kept);
            && FirstOfEachId(done + [item]) == (if known then kept else kept + [item])
            && (!known ==> IdSet(kept + [item]) == IdSet(kept) + {id} && Ids(kept + [item]) == Ids(kept) + [id])
  {
    hide Id, IdSet;
    var kept := FirstOfEachId(done);
    assert (done + [item])[..|done|] == done;
    FreshOrKnown(kept, item);
    IdSetAdds(kept, [item]);
    IdSetOfOne(item);
  }

  lemma ThreeGroups(a: seq<L.Limitation>, b: seq<L.Limitation>, c: seq<L.Limitation>)
    ensures L.Flatten([a, b, c]) == a + b + c
  {
    assert [a, b, c][..2] == [a, b] && [a, b][..1] == [a] && [a][..0] == [];
    assert L.Flatten([a]) == L.Flatten([]) + a;
    assert L.Flatten([a, b]) == a + b;
  }
}
