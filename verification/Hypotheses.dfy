/**
 Evaluation of root-cause hypotheses against processed evidence (internal/diagnosis/evaluator.go).

 The lower-case table is a parameter, and the printed form of an item's metadata is a text.
 Scores are reals.
 */
module Hypotheses {

  import opened Text
  import opened Collections
  import Fingerprint

  datatype Hypothesis = Hypothesis(
    id: string, title: string, expected: seq<string>, confidence: real,
    status: string, supporting: seq<string>, missing: seq<string>, score: real)

  datatype ProcessedEvidence = ProcessedEvidence(
    citationID: string, content: string, title: string, resourceID: string, traceID: string, metadata: string)

  function Haystack(lower: char -> char, item: ProcessedEvidence): string {
    MapText(lower, Join([item.content, item.title, item.resourceID, item.traceID, item.metadata], " "))
  }

  function Wanted(lower: char -> char, expected: string): string {
    MapText(lower, TrimSpace(expected))
  }

  predicate Supports(lower: char -> char, item: ProcessedEvidence, expected: string) {
    Contains(Haystack(lower, item), Wanted(lower, expected))
  }

  /** The first item that mentions what is expected, if anything is. */
  predicate IsFirstSupport(lower: char -> char, expected: string, evidence: seq<ProcessedEvidence>, k: nat)
    requires k < |evidence|
  {
    && Wanted(lower, expected) != ""
    && Supports(lower, evidence[k], expected)
    && forall j :: 0 <= j < k ==> !Supports(lower, evidence[j], expected)
  }

  function Citation(lower: char -> char, expected: string, evidence: seq<ProcessedEvidence>): string {
    if Wanted(lower, expected) == "" || evidence == [] then ""
    else if Supports(lower, evidence[0], expected) then evidence[0].citationID
    else Citation(lower, expected, evidence[1..])
  }

  /** An empty citation of the first supporting item hides later items. */
  method FirstSupportingCitation(lower: char -> char, expected: string, evidence: seq<ProcessedEvidence>) returns (r: string)
    ensures r == Citation(lower, expected, evidence)
    ensures r != "" ==> exists k :: 0 <= k < |evidence| && IsFirstSupport(lower, expected, evidence, k) && r == evidence[k].citationID
    ensures r == "" ==> forall k :: 0 <= k < |evidence| && IsFirstSupport(lower, expected, evidence, k) ==> evidence[k].citationID == ""
  {
    hide Wanted, Supports;
    if Wanted(lower, expected) == "" {
      return "";
    }
    for i := 0 to |evidence|
      invariant Citation(lower, expected, evidence) == Citation(lower, expected, evidence[i..])
      invariant forall j :: 0 <= j < i ==> !Supports(lower, evidence[j], expected)
    {
      assert evidence[i..][1..] == evidence[i + 1..];
      if Supports(lower, evidence[i], expected) {
        assert IsFirstSupport(lower, expected, evidence, i);
        return evidence[i].citationID;
      }
    }
    return "";
  }

  /** An item supports what any of its fields mentions, and unless the search text has blanks in it, nothing else. */
  lemma SupportsIff(lower: char -> char, item: ProcessedEvidence, expected: string)
    ensures SomeFieldHas(lower, item, Wanted(lower, expected)) ==> Supports(lower, item, expected)
    ensures lower(' ') !in Wanted(lower, expected) ==>
              (Supports(lower, item, expected) <==> SomeFieldHas(lower, item, Wanted(lower, expected)))
  {
    var fields := [item.content, item.title, item.resourceID, item.traceID, item.metadata];
    var lowered := [MapText(lower, item.content), MapText(lower, item.title), MapText(lower, item.resourceID),
                    MapText(lower, item.traceID), MapText(lower, item.metadata)];
    hide *;
    LowerJoined(lower, fields, lowered);
    HaystackIs(lower, item);
    ContainsInJoin(lowered, lower(' '), Wanted(lower, expected));
    FiveFields(lower, item, Wanted(lower, expected));
    SupportsMeans(lower, item, expected);
  }

  lemma HaystackIs(lower: char -> char, item: ProcessedEvidence)
    ensures Haystack(lower, item) ==
            MapText(lower, Join([item.content, item.title, item.resourceID, item.traceID, item.metadata], " "))
  {
    hide MapText, Join;
  }

  lemma SupportsMeans(lower: char -> char, item: ProcessedEvidence, expected: string)
    ensures Supports(lower, item, expected) <==> Contains(Haystack(lower, item), Wanted(lower, expected))
  {
    hide Contains, Haystack, Wanted;
  }

  lemma FiveFields(lower: char -> char, item: ProcessedEvidence, part: string)
    ensures SomeFieldHas(lower, item, part) <==>
            SomeContains([MapText(lower, item.content), MapText(lower, item.title), MapText(lower, item.resourceID),
                          MapText(lower, item.traceID), MapText(lower, item.metadata)], part)
  {
    hide MapText, Contains;
    var l := [MapText(lower, item.content), MapText(lower, item.title), MapText(lower, item.resourceID),
              MapText(lower, item.traceID), MapText(lower, item.metadata)];
    assert Contains(l[0], part) || Contains(l[1], part) || Contains(l[2], part) || Contains(l[3], part) || Contains(l[4], part)
      ==> SomeContains(l, part);
  }

  predicate SomeFieldHas(lower: char -> char, item: ProcessedEvidence, part: string) {
    || Contains(MapText(lower, item.content), part) || Contains(MapText(lower, item.title), part)
    || Contains(MapText(lower, item.resourceID), part) || Contains(MapText(lower, item.traceID), part)
    || Contains(MapText(lower, item.metadata), part)
  }

  lemma {:induction false} LowerJoined(lower: char -> char, fields: seq<string>, lowered: seq<string>)
    requires |fields| == |lowered| && forall i :: 0 <= i < |fields| ==> lowered[i] == MapText(lower, fields[i])
    ensures MapText(lower, Join(fields, " ")) == Join(lowered, [lower(' ')])
  {
    if |fields| > 1 {
      LowerJoined(lower, fields[1..], lowered[1..]);
    }
  }

  function AppendUnique(values: seq<string>, value: string): seq<string> {
    if value in values then values else values + [value]
  }

  function Support(lower: char -> char, expected: seq<string>, evidence: seq<ProcessedEvidence>): seq<string> {
    if expected == [] then []
    else
      var before := Support(lower, expected[..|expected| - 1], evidence);
      var citation := Citation(lower, expected[|expected| - 1], evidence);
      if citation == "" then before else AppendUnique(before, citation)
  }

  function Missing(lower: char -> char, expected: seq<string>, evidence: seq<ProcessedEvidence>): seq<string> {
    if expected == [] then []
    else
      var before := Missing(lower, expected[..|expected| - 1], evidence);
      var last := expected[|expected| - 1];
      if Citation(lower, last, evidence) == "" then before + [last] else before
  }

  /** The support is the set of citations found, each once and none empty; the rest is missing. */
  lemma {:induction false} SupportFacts(lower: char -> char, expected: seq<string>, evidence: seq<ProcessedEvidence>)
    ensures forall c :: c in Support(lower, expected, evidence) <==>
              c != "" && exists i :: 0 <= i < |expected| && Citation(lower, expected[i], evidence) == c
    ensures NoRepeats(Support(lower, expected, evidence))
    ensures forall x :: x in Missing(lower, expected, evidence) <==> x in expected && Citation(lower, x, evidence) == ""
  {
    if expected != [] {
      hide Citation;
      var init, last := expected[..|expected| - 1], expected[|expected| - 1];
      SupportFacts(lower, init, evidence);
      assert expected == init + [last];
      assert forall i :: 0 <= i < |init| ==> expected[i] == init[i];
      forall c ensures c in Support(lower, expected, evidence) <==>
        c != "" && exists i :: 0 <= i < |expected| && Citation(lower, expected[i], evidence) == c
      {
        if i :| 0 <= i < |init| && Citation(lower, init[i], evidence) == c {
          assert Citation(lower, expected[i], evidence) == c;
        }
      }
    }
  }

  function Status(supporting: seq<string>): string {
    if |supporting| >= 2 then "supported" else if |supporting| == 0 then "weak" else "proposed"
  }

  /** math.Round to three decimals: halves away from zero. */
  function Round(value: real): real {
    if value >= 0.0 then (value * 1000.0 + 0.5).Floor as real / 1000.0
    else -((-value * 1000.0 + 0.5).Floor as real / 1000.0)
  }

  function Score(confidence: real, support: nat): real {
    var raw := confidence + support as real * 0.12;
    Round(if raw < 1.0 then raw else 1.0)
  }

  lemma ScoreIsBounded(confidence: real, support: nat)
    ensures Score(confidence, support) <= 1.0
    ensures 0.0 <= confidence ==> 0.0 <= Score(confidence, support)
    ensures support > 0 && confidence + support as real * 0.12 <= 1.0 ==> Score(confidence, 0) < Score(confidence, support)
  {
    var raw := confidence + support as real * 0.12;
    var r := if raw < 1.0 then raw else 1.0;
    RoundIsMonotone(r, 1.0);
    if support > 0 && raw <= 1.0 {
      RoundIsMonotone(confidence, raw - 0.12);
      RoundedApart(raw - 0.12);
    }
  }

  /**
   The confidence, raised by 0.12 for each citation and cut off at 1, to the nearest thousandth;
   half a thousandth is rounded up when positive.
   */
  lemma ScoreMeans(confidence: real, support: nat)
    ensures var exact := confidence + support as real * 0.12;
            var target := if exact < 1.0 then exact else 1.0;
            var score := Score(confidence, support);
            && (exists k :: Thousandths(score, k))
            && -0.0005 <= score - target <= 0.0005
            && (target >= 0.0 ==> score - target > -0.0005)
            && (target <= 0.0 ==> score - target < 0.0005)
  {
    var exact := confidence + support as real * 0.12;
    var target := if exact < 1.0 then exact else 1.0;
    RoundIsNearest(target);
    var k :| Thousandths(Round(target), k);
    assert Thousandths(Score(confidence, support), k);
  }

  predicate Thousandths(x: real, k: int) {
    x == k as real / 1000.0
  }

  lemma RoundIsNearest(a: real)
    ensures exists k :: Thousandths(Round(a), k)
    ensures a >= 0.0 ==> -0.0005 < Round(a) - a <= 0.0005
    ensures a <= 0.0 ==> -0.0005 <= Round(a) - a < 0.0005
  {
    var b := if a >= 0.0 then a else -a;
    var k := (b * 1000.0 + 0.5).Floor;
    assert k as real <= b * 1000.0 + 0.5 < k as real + 1.0;
    var r := k as real / 1000.0;
    assert -0.0005 < r - b <= 0.0005;
    assert (-k) as real == -(k as real);
    assert Thousandths(Round(a), if a >= 0.0 then k else -k);
  }

  lemma RoundIsMonotone(a: real, b: real)
    requires a <= b
    ensures Round(a) <= Round(b)
    ensures Round(1.0) == 1.0 && (0.0 <= a ==> 0.0 <= Round(a))
  {
    assert Round(1.0) == (1000.5).Floor as real / 1000.0;
    FloorIsMonotone(a * 1000.0 + 0.5, b * 1000.0 + 0.5);
    FloorIsMonotone(-b * 1000.0 + 0.5, -a * 1000.0 + 0.5);
  }

  lemma FloorIsMonotone(x: real, y: real)
    requires x <= y
    ensures x.Floor <= y.Floor
  {
  }

  /** What differs by 0.12 differs when rounded. */
  lemma RoundedApart(a: real)
    ensures Round(a) < Round(a + 0.12)
  {
    assert (a + 0.12) * 1000.0 == a * 1000.0 + 120.0;
    assert -(a + 0.12) * 1000.0 == -a * 1000.0 - 120.0;
  }

  function Evaluated(lower: char -> char, h: Hypothesis, evidence: seq<ProcessedEvidence>): Hypothesis {
    var supporting := Support(lower, h.expected, evidence);
    h.(supporting := supporting, missing := Missing(lower, h.expected, evidence),
       status := Status(supporting), score := Score(h.confidence, |supporting|))
  }

  method EvaluateOne(lower: char -> char, h: Hypothesis, evidence: seq<ProcessedEvidence>) returns (r: Hypothesis)
    ensures r == Evaluated(lower, h, evidence)
  {
    hide Citation, Score;
    var support: seq<string> := [];
    var missing: seq<string> := [];
    for i := 0 to |h.expected|
      invariant support == Support(lower, h.expected[..i], evidence)
      invariant missing == Missing(lower, h.expected[..i], evidence)
    {
      assert h.expected[..i + 1][..i] == h.expected[..i];
      var citation := FirstSupportingCitation(lower, h.expected[i], evidence);
      if citation != "" {
        support := AppendUnique(support, citation);
        continue;
      }
      missing := missing + [h.expected[i]];
    }
    assert h.expected[..|h.expected|] == h.expected;
    r := h.(supporting := support, missing := missing, status := Status(support), score := Score(h.confidence, |support|));
  }

  /** Evaluation fills in the support, and keeps the rest. */
  lemma EvaluatedKeeps(lower: char -> char, h: Hypothesis, evidence: seq<ProcessedEvidence>)
    ensures var r := Evaluated(lower, h, evidence);
            && r.id == h.id && r.title == h.title && r.expected == h.expected && r.confidence == h.confidence
            && WellSupported(r) && r.score == Score(h.confidence, |r.supporting|)
            && (r.supporting == [] <==> r.missing == r.expected)
  {
    SupportFacts(lower, h.expected, evidence);
    NothingSupported(lower, h.expected, evidence);
    hide Support, Missing, Citation, Score;
  }

  lemma {:induction false} NothingSupported(lower: char -> char, expected: seq<string>, evidence: seq<ProcessedEvidence>)
    ensures |Missing(lower, expected, evidence)| <= |expected|
    ensures Support(lower, expected, evidence) == [] <==> Missing(lower, expected, evidence) == expected
  {
    hide Citation;
    if expected != [] {
      NothingSupported(lower, expected[..|expected| - 1], evidence);
      assert expected == expected[..|expected| - 1] + [expected[|expected| - 1]];
    }
  }

  // ---- The whole set -----------------------------------------------------------------------

  predicate Precedes(a: Hypothesis, b: Hypothesis) {
    if a.score != b.score then a.score > b.score else Fingerprint.Below(a.id, b.id)
  }

  lemma PrecedesIsAnOrder(a: Hypothesis, b: Hypothesis, c: Hypothesis)
    ensures !Precedes(a, a)
    ensures Precedes(a, b) ==> !Precedes(b, a)
    ensures Precedes(a, b) && Precedes(b, c) ==> Precedes(a, c)
    ensures !Precedes(a, b) && !Precedes(b, c) ==> !Precedes(a, c)
  {
    hide Fingerprint.Below;
    Fingerprint.BelowIsTotal(a.id, b.id);
    Fingerprint.BelowIsTotal(b.id, c.id);
    Fingerprint.BelowIsTotal(a.id, c.id);
    if Fingerprint.Below(a.id, b.id) && Fingerprint.Below(b.id, c.id) {
      Fingerprint.BelowIsTransitive(a.id, b.id, c.id);
    }
    if Fingerprint.Below(c.id, b.id) && Fingerprint.Below(b.id, a.id) {
      Fingerprint.BelowIsTransitive(c.id, b.id, a.id);
    }
  }

  lemma PrecedesIsOrder()
    ensures IsOrder(Precedes)
  {
    hide Precedes;
    forall a, b, c
      ensures Precedes(a, b) ==> !Precedes(b, a)
      ensures !Precedes(a, b) && !Precedes(b, c) ==> !Precedes(a, c)
    {
      PrecedesIsAnOrder(a, b, c);
    }
  }

  function EvaluatedAll(lower: char -> char, items: seq<Hypothesis>, evidence: seq<ProcessedEvidence>): (r: seq<Hypothesis>)
    ensures |r| == |items| && forall i :: 0 <= i < |items| ==> r[i] == Evaluated(lower, items[i], evidence)
  {
    seq(|items|, i requires 0 <= i < |items| => Evaluated(lower, items[i], evidence))
  }

  function EvaluatedSet(lower: char -> char, items: seq<Hypothesis>, evidence: seq<ProcessedEvidence>): seq<Hypothesis> {
    Sort(Precedes, EvaluatedAll(lower, items, evidence))
  }

  method Evaluate(lower: char -> char, items: seq<Hypothesis>, evidence: seq<ProcessedEvidence>) returns (r: seq<Hypothesis>)
    ensures r == EvaluatedSet(lower, items, evidence)
    ensures multiset(r) == multiset(EvaluatedAll(lower, items, evidence))
    ensures forall i, j :: 0 <= i < j < |r| ==> Ranked(r[i], r[j])
  {
    hide Evaluated, InOrder, Sort;
    r := [];
    for i := 0 to |items|
      invariant r == EvaluatedAll(lower, items, evidence)[..i]
    {
      var evaluated := EvaluateOne(lower, items[i], evidence);
      r := r + [evaluated];
    }
    assert r == EvaluatedAll(lower, items, evidence);
    PrecedesIsOrder();
    SortPutsInOrder(Precedes, r);
    r := Sort(Precedes, r);
    EvaluatedSetIsRanked(lower, items, evidence);
  }

  /** The higher score first, and of equal scores the ID that comes first. */
  predicate Ranked(a: Hypothesis, b: Hypothesis) {
    a.score > b.score || (a.score == b.score && (a.id == b.id || Fingerprint.Below(a.id, b.id)))
  }

  lemma EvaluatedSetIsRanked(lower: char -> char, items: seq<Hypothesis>, evidence: seq<ProcessedEvidence>)
    ensures var r := EvaluatedSet(lower, items, evidence);
            && multiset(r) == multiset(EvaluatedAll(lower, items, evidence))
            && forall i, j :: 0 <= i < j < |r| ==> Ranked(r[i], r[j])
  {
    PrecedesIsOrder();
    SortPutsInOrder(Precedes, EvaluatedAll(lower, items, evidence));
    hide EvaluatedAll, Sort, Fingerprint.Below;
    var r := EvaluatedSet(lower, items, evidence);
    forall i, j | 0 <= i < j < |r| ensures Ranked(r[i], r[j]) {
      assert !Precedes(r[j], r[i]);
      Fingerprint.BelowIsTotal(r[i].id, r[j].id);
    }
  }

  /** "supported" takes two different citations, both of them citations of the evidence. */
  predicate WellSupported(h: Hypothesis) {
    && (h.status == "supported" <==> |h.supporting| >= 2)
    && (h.status == "proposed" <==> |h.supporting| == 1)
    && (h.status == "weak" <==> |h.supporting| == 0)
    && NoRepeats(h.supporting)
    && forall c :: c in h.supporting ==> c != ""
  }

  lemma EvaluatedIsWellSupported(lower: char -> char, items: seq<Hypothesis>, evidence: seq<ProcessedEvidence>)
    ensures forall h :: h in EvaluatedSet(lower, items, evidence) ==> WellSupported(h)
  {
    var all := EvaluatedAll(lower, items, evidence);
    PrecedesIsOrder();
    SortPutsInOrder(Precedes, all);
    hide Sort, InOrder;
    forall h | h in EvaluatedSet(lower, items, evidence) ensures WellSupported(h) {
      assert h in multiset(all);
      var i :| 0 <= i < |all| && all[i] == h;
      SupportFacts(lower, items[i].expected, evidence);
    }
  }
}
