/**
 Merging of limitations (internal/multiagent/merge.go).

 Limitations are merged by canonical code and tool. Merging is done several times over on a
 request's way: the laws below say when doing it again, or in another grouping, is harmless.
 */
module Limitations {

  import opened Text

  datatype Limitation = Limitation(code: string, message: string, tool: string)

  // ---- Canonical codes -------------------------------------------------------------------

  /** What is used of the Unicode upper-case table. */
  ghost predicate IsUpperTable(upper: char -> char) {
    && (forall c :: upper(upper(c)) == upper(c))
    && (forall c :: IsSpace(upper(c)) <==> IsSpace(c))
    && upper(' ') == ' ' && upper('_') == '_'
    && (forall c :: 'A' <= c <= 'Z' ==> upper(c) == c)
  }

  const NO_DATA := "NO_DATA"

  function CanonicalCode(upper: char -> char, code: string, tool: string): string {
    var upperCode := MapText(upper, TrimSpace(code));
    if !Contains(upperCode, NO_DATA) then upperCode
    else
      var combined := MapText(upper, tool + " " + upperCode);
      if Contains(combined, "LOG") then "LOGS_NO_DATA"
      else if Contains(combined, "TRACE") then "TRACES_NO_DATA"
      else if Contains(combined, "METRIC") then "METRICS_NO_DATA"
      else if Contains(combined, "KNOWLEDGE") then "KNOWLEDGE_NO_DATA"
      else if Contains(combined, "ALERT") then "ALERTS_NO_DATA"
      else if Contains(combined, "TOPOLOGY") then "TOPOLOGY_NO_DATA"
      else upperCode
  }

  predicate Shouted(upper: char -> char, s: string) {
    forall i :: 0 <= i < |s| ==> upper(s[i]) == s[i]
  }

  lemma ShoutedStays(upper: char -> char, s: string)
    requires Shouted(upper, s)
    ensures MapText(upper, s) == s
  {
  }

  lemma UpperCodeSettles(upper: char -> char, code: string)
    requires IsUpperTable(upper)
    ensures var u := MapText(upper, TrimSpace(code));
            Shouted(upper, u) && TrimSpace(u) == u
  {
    TrimSpaceTrims(code);
    var u := MapText(upper, TrimSpace(code));
    TrimSpaceTrims(u);
  }

  /** A word without a space occurs on one side of a space or on the other. */
  lemma ContainsAcrossSpace(a: string, b: string, word: string)
    requires word != "" && ' ' !in word
    ensures Contains(a + " " + b, word) <==> Contains(a, word) || Contains(b, word)
  {
    var s := a + " " + b;
    var n := |a| + 1;
    assert s[..|a|] == a && s[n..] == b;
    forall i ensures OccursAt(a, word, i) ==> OccursAt(s, word, i) {
      OccursInPart(s, 0, |a|, word, i);
    }
    forall i ensures OccursAt(b, word, i) ==> OccursAt(s, word, i + n) {
      assert s[n..|s|] == b;
      OccursInPart(s, n, |s|, word, i);
    }
    forall i | OccursAt(s, word, i) ensures OccursAt(a, word, i) || OccursAt(b, word, i - n) {
      SpaceIsNotInside(a, b, word, i);
      assert s[n..|s|] == b;
      OccursInPart(s, 0, |a|, word, i);
      OccursInPart(s, n, |s|, word, i - n);
    }
  }

  lemma OccursInPart(s: string, from: nat, to: nat, word: string, i: int)
    requires from <= to <= |s|
    ensures 0 <= i && i + |word| <= to - from ==> (OccursAt(s[from..to], word, i) <==> OccursAt(s, word, from + i))
  {
    if 0 <= i && i + |word| <= to - from {
      var inPart, inWhole := s[from..to][i..i + |word|], s[from + i..from + i + |word|];
      forall k | 0 <= k < |word| ensures inPart[k] == inWhole[k] {
        assert s[from..to][i + k] == s[from + (i + k)];
      }
      assert inPart == inWhole;
    }
  }

  lemma SpaceIsNotInside(a: string, b: string, word: string, i: nat)
    requires word != "" && ' ' !in word && OccursAt(a + " " + b, word, i)
    ensures i + |word| <= |a| || |a| < i
  {
    var s := a + " " + b;
    Letters(s, word, i);
    assert s[|a|] == ' ';
    forall k | 0 <= k < |word| ensures word[k] != ' ' && i + k != |a| {
      assert s[i + k] == word[k];
    }
    assert i <= |a| ==> |a| == i + (|a| - i);
  }

  lemma Letters(s: string, word: string, i: nat)
    requires OccursAt(s, word, i)
    ensures forall k :: 0 <= k < |word| ==> s[i + k] == word[k]
  {
    var there := s[i..i + |word|];
    forall k | 0 <= k < |word| ensures s[i + k] == word[k] {
      assert there[k] == s[i + k];
    }
  }

  /** Whether a word is mentioned by the tool or by the code. */
  ghost predicate Mentions(upper: char -> char, code: string, tool: string, word: string) {
    Contains(MapText(upper, tool), word) || Contains(code, word)
  }

  lemma CombinedMentions(upper: char -> char, code: string, tool: string, word: string)
    requires IsUpperTable(upper) && Shouted(upper, code) && word != "" && ' ' !in word
    ensures Contains(MapText(upper, tool + " " + code), word) <==> Mentions(upper, code, tool, word)
  {
    assert MapText(upper, tool + " " + code) == MapText(upper, tool) + " " + code;
    ContainsAcrossSpace(MapText(upper, tool), code, word);
  }

  /** The code by what it and the tool mention: TOPOLOGY contains LOG, so it has no case of its own. */
  ghost function CodeByMention(upper: char -> char, code: string, tool: string): string {
    if !Contains(code, NO_DATA) then code
    else if Mentions(upper, code, tool, "LOG") then "LOGS_NO_DATA"
    else if Mentions(upper, code, tool, "TRACE") then "TRACES_NO_DATA"
    else if Mentions(upper, code, tool, "METRIC") then "METRICS_NO_DATA"
    else if Mentions(upper, code, tool, "KNOWLEDGE") then "KNOWLEDGE_NO_DATA"
    else if Mentions(upper, code, tool, "ALERT") then "ALERTS_NO_DATA"
    else code
  }

  lemma ContainsPart(s: string, whole: string, part: string, k: nat)
    requires Contains(s, whole) && OccursAt(whole, part, k)
    ensures Contains(s, part)
  {
    var i :| 0 <= i <= |s| - |whole| && OccursAt(s, whole, i);
    Letters(s, whole, i);
    Letters(whole, part, k);
    var there := s[i + k..i + k + |part|];
    forall j | 0 <= j < |part| ensures there[j] == part[j] {
      assert whole[k + j] == part[j] && s[i + (k + j)] == whole[k + j];
    }
    assert OccursAt(s, part, i + k);
  }

  lemma TopologyIsALog(s: string)
    ensures Contains(s, "TOPOLOGY") ==> Contains(s, "LOG")
  {
    if Contains(s, "TOPOLOGY") {
      assert "TOPOLOGY"[4..7] == "LOG";
      ContainsPart(s, "TOPOLOGY", "LOG", 4);
    }
  }

  lemma CanonicalCodeMentions(upper: char -> char, code: string, tool: string)
    requires IsUpperTable(upper)
    ensures CanonicalCode(upper, code, tool) == CodeByMention(upper, MapText(upper, TrimSpace(code)), tool)
  {
    var u := MapText(upper, TrimSpace(code));
    UpperCodeSettles(upper, code);
    TopologyIsALog(MapText(upper, tool + " " + u));
    hide Contains, Mentions, MapText, TrimSpace, Shouted, IsUpperTable;
    CombinedMentions(upper, u, tool, "LOG");
    CombinedMentions(upper, u, tool, "TRACE");
    CombinedMentions(upper, u, tool, "METRIC");
    CombinedMentions(upper, u, tool, "KNOWLEDGE");
    CombinedMentions(upper, u, tool, "ALERT");
  }

  /** A word is absent from a text in which its first three letters never follow each other. */
  lemma Absent(s: string, word: string)
    requires |word| >= 3 && forall i :: !StartsLike(s, word, i)
    ensures !Contains(s, word)
  {
    forall i ensures OccursAt(s, word, i) ==> StartsLike(s, word, i) {
      if OccursAt(s, word, i) {
        Letters(s, word, i);
        assert s[i + 0] == word[0] && s[i + 1] == word[1] && s[i + 2] == word[2];
      }
    }
  }

  predicate StartsLike(s: string, word: string, i: int)
    requires |word| >= 3
  {
    0 <= i < |s| - 2 && s[i] == word[0] && s[i + 1] == word[1] && s[i + 2] == word[2]
  }

  lemma Present(s: string, word: string, i: nat)
    requires i + |word| <= |s| && s[i..i + |word|] == word
    ensures Contains(s, word)
  {
    assert OccursAt(s, word, i);
  }

  /** A code that is canonical as it stands and mentions missing data and the word. */
  ghost predicate Settled(upper: char -> char, code: string, word: string) {
    MapText(upper, TrimSpace(code)) == code && Contains(code, NO_DATA) && Contains(code, word)
  }

  lemma SettledCode(upper: char -> char, code: string, word: string, k: nat)
    requires IsUpperTable(upper) && Capitals(code)
    requires OccursAt(code, NO_DATA, k) && OccursAt(code, word, 0)
    ensures Settled(upper, code, word)
  {
    hide MapText, TrimSpace, Capitals;
    CapitalsStay(upper, code);
  }

  lemma LogsCodeIsSettled(upper: char -> char)
    requires IsUpperTable(upper)
    ensures Settled(upper, "LOGS_NO_DATA", "LOG")
  {
    var code := "LOGS_NO_DATA";
    hide Settled, IsUpperTable;
    assert code[5..12] == NO_DATA && code[0..3] == "LOG";
    SettledCode(upper, code, "LOG", 5);
  }

  lemma TracesCodeIsSettled(upper: char -> char)
    requires IsUpperTable(upper)
    ensures Settled(upper, "TRACES_NO_DATA", "TRACE")
  {
    var code := "TRACES_NO_DATA";
    hide Settled, IsUpperTable;
    assert code[7..14] == NO_DATA && code[0..5] == "TRACE";
    SettledCode(upper, code, "TRACE", 7);
  }

  lemma MetricsCodeIsSettled(upper: char -> char)
    requires IsUpperTable(upper)
    ensures Settled(upper, "METRICS_NO_DATA", "METRIC")
  {
    var code := "METRICS_NO_DATA";
    hide Settled, IsUpperTable;
    assert code[8..15] == NO_DATA && code[0..6] == "METRIC";
    SettledCode(upper, code, "METRIC", 8);
  }

  lemma KnowledgeCodeIsSettled(upper: char -> char)
    requires IsUpperTable(upper)
    ensures Settled(upper, "KNOWLEDGE_NO_DATA", "KNOWLEDGE")
  {
    var code := "KNOWLEDGE_NO_DATA";
    hide Settled, IsUpperTable;
    assert code[10..17] == NO_DATA && code[0..9] == "KNOWLEDGE";
    SettledCode(upper, code, "KNOWLEDGE", 10);
  }

  lemma AlertsCodeIsSettled(upper: char -> char)
    requires IsUpperTable(upper)
    ensures Settled(upper, "ALERTS_NO_DATA", "ALERT")
  {
    var code := "ALERTS_NO_DATA";
    hide Settled, IsUpperTable;
    assert code[7..14] == NO_DATA && code[0..5] == "ALERT";
    SettledCode(upper, code, "ALERT", 7);
  }

  predicate Capitals(s: string) {
    forall i :: 0 <= i < |s| ==> 'A' <= s[i] <= 'Z' || s[i] == '_'
  }

  lemma CapitalsStay(upper: char -> char, s: string)
    requires IsUpperTable(upper) && Capitals(s)
    ensures MapText(upper, TrimSpace(s)) == s
  {
    assert Trimmed(s) && Shouted(upper, s);
    TrimSpaceTrims(s);
    ShoutedStays(upper, s);
  }

  lemma EarlierWordsAreAbsent()
    ensures !Contains("TRACES_NO_DATA", "LOG") && !Contains("METRICS_NO_DATA", "LOG")
    ensures !Contains("KNOWLEDGE_NO_DATA", "LOG") && !Contains("ALERTS_NO_DATA", "LOG")
    ensures !Contains("METRICS_NO_DATA", "TRACE") && !Contains("KNOWLEDGE_NO_DATA", "TRACE")
    ensures !Contains("ALERTS_NO_DATA", "TRACE")
    ensures !Contains("KNOWLEDGE_NO_DATA", "METRIC") && !Contains("ALERTS_NO_DATA", "METRIC")
    ensures !Contains("ALERTS_NO_DATA", "KNOWLEDGE")
  {
    hide Contains;
    Absent("TRACES_NO_DATA", "LOG");
    Absent("METRICS_NO_DATA", "LOG");
    Absent("KNOWLEDGE_NO_DATA", "LOG");
    Absent("ALERTS_NO_DATA", "LOG");
    Absent("METRICS_NO_DATA", "TRACE");
    Absent("KNOWLEDGE_NO_DATA", "TRACE");
    Absent("ALERTS_NO_DATA", "TRACE");
    Absent("KNOWLEDGE_NO_DATA", "METRIC");
    Absent("ALERTS_NO_DATA", "METRIC");
    Absent("ALERTS_NO_DATA", "KNOWLEDGE");
  }

  /** Canonical codes are canonical. */
  lemma CanonicalCodeSettles(upper: char -> char, code: string, tool: string)
    requires IsUpperTable(upper)
    ensures CanonicalCode(upper, CanonicalCode(upper, code, tool), tool) == CanonicalCode(upper, code, tool)
  {
    hide CodeByMention, CanonicalCode, MapText, TrimSpace, IsUpperTable, Shouted;
    var u, c := MapText(upper, TrimSpace(code)), CanonicalCode(upper, code, tool);
    CanonicalCodeMentions(upper, code, tool);
    CanonicalCodeMentions(upper, c, tool);
    UpperCodeSettles(upper, code);
    ShoutedStays(upper, u);
    MentionedCodeSettles(upper, u, tool);
  }

  lemma MentionedCodeSettles(upper: char -> char, u: string, tool: string)
    requires IsUpperTable(upper) && MapText(upper, TrimSpace(u)) == u
    ensures var c := CodeByMention(upper, u, tool);
            MapText(upper, TrimSpace(c)) == c && CodeByMention(upper, c, tool) == c
  {
    hide Contains, MapText, TrimSpace, IsUpperTable, Capitals, Mentions;
    EarlierWordsAreAbsent();
    var c := CodeByMention(upper, u, tool);
    if c != u {
      if Mentions(upper, u, tool, "LOG") {
        LogsCodeIsSettled(upper);
      } else if Mentions(upper, u, tool, "TRACE") {
        TracesCodeIsSettled(upper);
      } else if Mentions(upper, u, tool, "METRIC") {
        MetricsCodeIsSettled(upper);
      } else if Mentions(upper, u, tool, "KNOWLEDGE") {
        KnowledgeCodeIsSettled(upper);
      } else {
        AlertsCodeIsSettled(upper);
      }
      AbsentWords(upper, u, c, tool);
    }
  }

  /** What the tool and the old code do not mention, the tool and a new code without it do not either. */
  lemma AbsentWords(upper: char -> char, u: string, c: string, tool: string)
    ensures forall word :: !Mentions(upper, u, tool, word) && !Contains(c, word) ==> !Mentions(upper, c, tool, word)
    ensures forall word :: Contains(c, word) ==> Mentions(upper, c, tool, word)
  {
  }

  /**
   When a missing-data code is filed under logs: whenever the tool or the code mentions LOG.
   "TOPOLOGY" does, so missing topology data is never reported as such.
   */
  lemma TopologyIsFiledUnderLogs(upper: char -> char, code: string, tool: string)
    requires IsUpperTable(upper)
    ensures var u := MapText(upper, TrimSpace(code));
            var r := CanonicalCode(upper, code, tool);
            && (r == "LOGS_NO_DATA" <==> Contains(u, NO_DATA) && Mentions(upper, u, tool, "LOG"))
            && (Contains(u, NO_DATA) && Mentions(upper, u, tool, "TOPOLOGY") ==> r == "LOGS_NO_DATA")
            && r != "TOPOLOGY_NO_DATA"
  {
    var u, r := MapText(upper, TrimSpace(code)), CanonicalCode(upper, code, tool);
    CanonicalCodeMentions(upper, code, tool);
    TopologyMentions(upper, u, tool);
    hide Contains, MapText, TrimSpace, IsUpperTable, CanonicalCode, CodeByMention, Mentions;
    WhenFiledUnderLogs(upper, u, tool);
  }

  /** A code that tells of missing data is filed under the first of five kinds that it or the tool mentions; any other stays. */
  lemma FiledUnderTheFirstMentioned(upper: char -> char, code: string, tool: string)
    requires IsUpperTable(upper)
    ensures var u := MapText(upper, TrimSpace(code));
            var r := CanonicalCode(upper, code, tool);
            var logs, traces := Mentions(upper, u, tool, "LOG"), Mentions(upper, u, tool, "TRACE");
            var metrics, knowledge := Mentions(upper, u, tool, "METRIC"), Mentions(upper, u, tool, "KNOWLEDGE");
            && (!Contains(u, "NO_DATA") ==> r == u)
            && (Contains(u, "NO_DATA") ==>
                  && (logs ==> r == "LOGS_NO_DATA")
                  && (traces && !logs ==> r == "TRACES_NO_DATA")
                  && (metrics && !logs && !traces ==> r == "METRICS_NO_DATA")
                  && (knowledge && !logs && !traces && !metrics ==> r == "KNOWLEDGE_NO_DATA")
                  && (!logs && !traces && !metrics && !knowledge ==>
                        r == if Mentions(upper, u, tool, "ALERT") then "ALERTS_NO_DATA" else u))
  {
    CanonicalCodeMentions(upper, code, tool);
    hide Contains, MapText, TrimSpace, IsUpperTable, CanonicalCode, Mentions;
  }

  lemma TopologyMentions(upper: char -> char, u: string, tool: string)
    ensures Mentions(upper, u, tool, "TOPOLOGY") ==> Mentions(upper, u, tool, "LOG")
    ensures Contains(u, "LOG") ==> Mentions(upper, u, tool, "LOG")
  {
    hide Contains;
    TopologyIsALog(MapText(upper, tool));
    TopologyIsALog(u);
  }

  lemma WhenFiledUnderLogs(upper: char -> char, u: string, tool: string)
    requires Contains(u, "LOG") ==> Mentions(upper, u, tool, "LOG")
    ensures var r := CodeByMention(upper, u, tool);
            && (r == "LOGS_NO_DATA" <==> Contains(u, NO_DATA) && Mentions(upper, u, tool, "LOG"))
            && r != "TOPOLOGY_NO_DATA"
  {
    hide Contains, Mentions;
    OtherCodes();
  }

  lemma OtherCodes()
    ensures Contains("LOGS_NO_DATA", NO_DATA) && Contains("LOGS_NO_DATA", "LOG")
    ensures Contains("TOPOLOGY_NO_DATA", NO_DATA) && Contains("TOPOLOGY_NO_DATA", "LOG")
    ensures forall c :: c in ["TRACES_NO_DATA", "METRICS_NO_DATA", "KNOWLEDGE_NO_DATA", "ALERTS_NO_DATA"] ==>
              c != "LOGS_NO_DATA" && c != "TOPOLOGY_NO_DATA"
  {
    hide Contains;
    var logs, topology := "LOGS_NO_DATA", "TOPOLOGY_NO_DATA";
    assert logs[5..12] == NO_DATA && logs[0..3] == "LOG";
    assert topology[9..16] == NO_DATA && topology[4..7] == "LOG";
    Present(logs, NO_DATA, 5);
    Present(logs, "LOG", 0);
    Present(topology, NO_DATA, 9);
    Present(topology, "LOG", 4);
    assert |logs| == 12 && |topology| == 16;
  }

  // ---- Merging -----------------------------------------------------------------------------

  /** len of a Go string: bytes of UTF-8. */
  function ByteLength(s: string): nat {
    if s == "" then 0
    else
      var c := s[|s| - 1] as int;
      ByteLength(s[..|s| - 1]) + (if c < 0x80 then 1 else if c < 0x800 then 2 else if c < 0x10000 then 3 else 4)
  }

  /** Lengths add up, and are numbers of characters where all of these are ASCII. */
  lemma {:induction false} ByteLengthAdds(s: string, t: string)
    ensures ByteLength(s + t) == ByteLength(s) + ByteLength(t)
    ensures (forall i :: 0 <= i < |t| ==> t[i] < '\U{80}') ==> ByteLength(t) == |t|
    ensures |t| <= ByteLength(t) <= 4 * |t|
  {
    if t == "" {
      assert s + t == s;
    } else {
      var n := |t| - 1;
      ByteLengthAdds(s, t[..n]);
      assert (s + t)[..|s| + n] == s + t[..n];
    }
  }

  predicate Longer(a: string, b: string) {
    ByteLength(a) > ByteLength(b)
  }

  function Key(l: Limitation): string {
    l.code + "\0" + l.tool
  }

  function Canonical(upper: char -> char, l: Limitation): Limitation {
    l.(code := CanonicalCode(upper, l.code, l.tool))
  }

  predicate SamePair(a: Limitation, b: Limitation) {
    a.code == b.code && a.tool == b.tool
  }

  /** Exactly when two limitations share a key: they are of one pair, or a code runs over into a tool. */
  lemma KeysMeetIff(a: Limitation, b: Limitation)
    ensures Key(a) == Key(b) <==>
              SamePair(a, b) || RunsOver(a.code, a.tool, b.code, b.tool, '\0') || RunsOver(b.code, b.tool, a.code, a.tool, '\0')
  {
    JoinedEqualIff(a.code, a.tool, b.code, b.tool, '\0');
    assert ['\0'] == "\0";
  }

  /** The exact condition: a key is that of one code and one tool only if and only if neither holds a NUL. */
  lemma KeyNamesOnePairIff(a: Limitation)
    ensures (forall b :: Key(b) == Key(a) ==> SamePair(a, b)) <==> '\0' !in a.code && '\0' !in a.tool
  {
    hide Key;
    if '\0' in a.code {
      var i := IndexOf(a.code, '\0').value;
      var b := Limitation(a.code[..i], a.message, a.code[i + 1..] + "\0" + a.tool);
      KeysMeetIff(a, b);
      assert Key(b) == Key(a) && !SamePair(a, b);
    } else if '\0' in a.tool {
      var i := IndexOf(a.tool, '\0').value;
      var b := Limitation(a.code + "\0" + a.tool[..i], a.message, a.tool[i + 1..]);
      assert b.code[|a.code|] == '\0' && b.code[..|a.code|] == a.code;
      assert b.code[|a.code| + 1..] == a.tool[..i];
      assert a.tool == a.tool[..i] + "\0" + a.tool[i + 1..];
      KeysMeetIff(a, b);
      assert Key(b) == Key(a) && !SamePair(a, b);
    } else {
      forall b | Key(b) == Key(a) ensures SamePair(a, b) {
        KeysMeetIff(a, b);
      }
    }
  }

  function Position(acc: seq<Limitation>, key: string): (r: Option<nat>)
    ensures r.None? ==> forall i :: 0 <= i < |acc| ==> Key(acc[i]) != key
    ensures r.Some? ==> r.value < |acc| && Key(acc[r.value]) == key
  {
    if acc == [] then None
    else if Key(acc[|acc| - 1]) == key then Some(|acc| - 1)
    else Position(acc[..|acc| - 1], key)
  }

  /** What one more limitation, already canonical, does to the merged ones. */
  function Absorb(acc: seq<Limitation>, l: Limitation): seq<Limitation> {
    match Position(acc, Key(l))
    case None => acc + [l]
    case Some(i) => if Longer(l.message, acc[i].message) then acc[i := acc[i].(message := l.message)] else acc
  }

  function AbsorbAll(acc: seq<Limitation>, ls: seq<Limitation>): seq<Limitation> {
    if ls == [] then acc else Absorb(AbsorbAll(acc, ls[..|ls| - 1]), ls[|ls| - 1])
  }

  function CanonicalAll(upper: char -> char, ls: seq<Limitation>): (r: seq<Limitation>)
    ensures |r| == |ls| && forall i :: 0 <= i < |ls| ==> r[i] == Canonical(upper, ls[i])
  {
    seq(|ls|, i requires 0 <= i < |ls| => Canonical(upper, ls[i]))
  }

  function Merge(upper: char -> char, ls: seq<Limitation>): seq<Limitation> {
    AbsorbAll([], CanonicalAll(upper, ls))
  }

  function Flatten(groups: seq<seq<Limitation>>): seq<Limitation> {
    if groups == [] then [] else Flatten(groups[..|groups| - 1]) + groups[|groups| - 1]
  }

  /** Where every key of the merged limitations stands. */
  predicate Indexes(seen: map<string, nat>, acc: seq<Limitation>) {
    && (forall i :: 0 <= i < |acc| ==> Key(acc[i]) in seen && seen[Key(acc[i])] == i)
    && (forall key :: key in seen ==> seen[key] < |acc| && Key(acc[seen[key]]) == key)
  }

  predicate OneEach(acc: seq<Limitation>) {
    forall i, j :: 0 <= i < j < |acc| ==> Key(acc[i]) != Key(acc[j])
  }

  method MergeLimitations(upper: char -> char, groups: seq<seq<Limitation>>) returns (result: seq<Limitation>)
    ensures result == Merge(upper, Flatten(groups))
  {
    NoLimitations(upper);
    hide Canonical, CanonicalCode, CanonicalAll, AbsorbAll, Absorb, Indexes, Key, Longer;
    result := [];
    var seen: map<string, nat> := map[];
    ghost var done: seq<Limitation> := [];
    for g := 0 to |groups|
      invariant done == Flatten(groups[..g])
      invariant result == AbsorbAll([], CanonicalAll(upper, done))
      invariant Indexes(seen, result)
    {
      FlattenStep(groups, g);
      var group := groups[g];
      ghost var before := done;
      for i := 0 to |group|
        invariant done == before + group[..i]
        invariant result == AbsorbAll([], CanonicalAll(upper, done))
        invariant Indexes(seen, result)
      {
        var limitation := Canonical(upper, group[i]);
        var key := Key(limitation);
        OneMore(upper, done, group[i]);
        assert before + group[..i + 1] == before + group[..i] + [group[i]];
        done := done + [group[i]];
        IndexedPosition(seen, result, limitation);
        if key in seen {
          if Longer(limitation.message, result[seen[key]].message) {
            result := result[seen[key] := result[seen[key]].(message := limitation.message)];
          }
        } else {
          seen := seen[key := |result|];
          result := result + [limitation];
        }
      }
      assert group[..|group|] == group;
    }
    assert groups[..|groups|] == groups;
  }

  lemma NoLimitations(upper: char -> char)
    ensures Flatten([]) == [] && AbsorbAll([], CanonicalAll(upper, [])) == [] && Indexes(map[], [])
  {
  }

  lemma FlattenStep(groups: seq<seq<Limitation>>, g: nat)
    requires g < |groups|
    ensures Flatten(groups[..g + 1]) == Flatten(groups[..g]) + groups[g]
  {
    assert groups[..g + 1][..g] == groups[..g];
  }

  lemma OneMore(upper: char -> char, ls: seq<Limitation>, l: Limitation)
    ensures AbsorbAll([], CanonicalAll(upper, ls + [l])) == Absorb(AbsorbAll([], CanonicalAll(upper, ls)), Canonical(upper, l))
  {
    var all := CanonicalAll(upper, ls + [l]);
    assert all[..|ls|] == CanonicalAll(upper, ls);
  }

  /** Looking a limitation up in the index is looking for its position. */
  lemma IndexedPosition(seen: map<string, nat>, acc: seq<Limitation>, l: Limitation)
    requires Indexes(seen, acc)
    ensures Key(l) in seen ==>
              seen[Key(l)] < |acc| && var i := seen[Key(l)];
              var next := if Longer(l.message, acc[i].message) then acc[i := acc[i].(message := l.message)] else acc;
              next == Absorb(acc, l) && Indexes(seen, next)
    ensures Key(l) !in seen ==> acc + [l] == Absorb(acc, l) && Indexes(seen[Key(l) := |acc|], acc + [l])
  {
    hide Longer;
    if Key(l) in seen {
      var i := seen[Key(l)];
      assert Position(acc, Key(l)) == Some(i);
      var next := acc[i := acc[i].(message := l.message)];
      assert forall j :: 0 <= j < |acc| ==> Key(next[j]) == Key(acc[j]);
    }
  }

  // ---- What merging keeps ------------------------------------------------------------------

  lemma PositionIs(acc: seq<Limitation>, i: nat)
    requires OneEach(acc) && i < |acc|
    ensures Position(acc, Key(acc[i])) == Some(i)
  {
    var p := Position(acc, Key(acc[i]));
    assert p.Some?;
  }

  lemma AbsorbKeepsOneEach(acc: seq<Limitation>, l: Limitation)
    requires OneEach(acc)
    ensures OneEach(Absorb(acc, l))
    ensures |acc| <= |Absorb(acc, l)|
    ensures forall i :: 0 <= i < |acc| ==> Key(Absorb(acc, l)[i]) == Key(acc[i])
  {
  }

  lemma {:induction false} AbsorbAllKeepsOneEach(acc: seq<Limitation>, ls: seq<Limitation>)
    requires OneEach(acc)
    ensures OneEach(AbsorbAll(acc, ls))
  {
    hide Absorb;
    if ls != [] {
      AbsorbAllKeepsOneEach(acc, ls[..|ls| - 1]);
      AbsorbKeepsOneEach(AbsorbAll(acc, ls[..|ls| - 1]), ls[|ls| - 1]);
    }
  }

  ghost predicate HasKey(ls: seq<Limitation>, n: nat, key: string)
    requires n <= |ls|
  {
    exists k :: 0 <= k < n && Key(ls[k]) == key
  }

  predicate AtLeast(ls: seq<Limitation>, k: nat, j: nat)
    requires k < |ls| && j < |ls|
  {
    Key(ls[j]) == Key(ls[k]) ==>
      ByteLength(ls[j].message) <= ByteLength(ls[k].message)
      && (j < k ==> ByteLength(ls[j].message) < ByteLength(ls[k].message))
  }

  /** Among the first n, number k has the longest message of its key, and is the earliest such. */
  predicate EarliestLongest(ls: seq<Limitation>, n: nat, k: int)
    requires n <= |ls|
  {
    0 <= k < n && forall j :: 0 <= j < n ==> AtLeast(ls, k, j)
  }

  ghost predicate HasLongest(ls: seq<Limitation>, n: nat, l: Limitation)
    requires n <= |ls|
  {
    exists k :: EarliestLongest(ls, n, k) && Key(ls[k]) == Key(l) && ls[k].message == l.message
  }

  /** In order of first occurrence: whenever a later key occurs, an earlier one did before. */
  ghost predicate FirstOccurrenceOrder(ls: seq<Limitation>, n: nat, acc: seq<Limitation>)
    requires n <= |ls|
  {
    forall i, j, k :: 0 <= i < j < |acc| && 0 <= k < n && Key(ls[k]) == Key(acc[j]) ==> HasKey(ls, k, Key(acc[i]))
  }

  ghost predicate IsMerge(ls: seq<Limitation>, n: nat, acc: seq<Limitation>)
    requires n <= |ls|
  {
    && OneEach(acc)
    && (forall i :: 0 <= i < |acc| ==> HasLongest(ls, n, acc[i]))
    && (forall k :: 0 <= k < n ==> Position(acc, Key(ls[k])).Some?)
    && FirstOccurrenceOrder(ls, n, acc)
  }

  lemma LongestStays(ls: seq<Limitation>, n: nat, l: Limitation)
    requires n < |ls| && HasLongest(ls, n, l)
    requires Key(ls[n]) == Key(l) ==> !Longer(ls[n].message, l.message)
    ensures HasLongest(ls, n + 1, l)
  {
    hide ByteLength, Key;
    var k :| EarliestLongest(ls, n, k) && Key(ls[k]) == Key(l) && ls[k].message == l.message;
    assert EarliestLongest(ls, n + 1, k);
  }

  lemma LongestChanges(ls: seq<Limitation>, n: nat, l: Limitation)
    requires n < |ls| && HasLongest(ls, n, l)
    requires Key(ls[n]) == Key(l) && Longer(ls[n].message, l.message)
    ensures HasLongest(ls, n + 1, l.(message := ls[n].message))
  {
    var k :| EarliestLongest(ls, n, k) && Key(ls[k]) == Key(l) && ls[k].message == l.message;
    hide Key, ByteLength;
    forall j | 0 <= j <= n ensures AtLeast(ls, n, j) {
      assert j < n ==> AtLeast(ls, k, j);
    }
    assert EarliestLongest(ls, n + 1, n);
    SameKey(l, ls[n].message);
  }

  lemma SameKey(l: Limitation, m: string)
    ensures Key(l.(message := m)) == Key(l)
  {
  }

  lemma LongestIsNew(ls: seq<Limitation>, n: nat)
    requires n < |ls| && !HasKey(ls, n, Key(ls[n]))
    ensures HasLongest(ls, n + 1, ls[n])
  {
    hide Key, ByteLength;
    forall j | 0 <= j <= n ensures AtLeast(ls, n, j) {
      assert j < n ==> Key(ls[j]) != Key(ls[n]);
    }
    assert EarliestLongest(ls, n + 1, n);
  }

  lemma HeldKeysOccur(ls: seq<Limitation>, n: nat, acc: seq<Limitation>, key: string)
    requires n <= |ls| && IsMerge(ls, n, acc)
    ensures HasKey(ls, n, key) <==> Position(acc, key).Some?
  {
    hide Key, FirstOccurrenceOrder, OneEach, AtLeast;
    if Position(acc, key).Some? {
      var i := Position(acc, key).value;
      assert HasLongest(ls, n, acc[i]);
      var k :| EarliestLongest(ls, n, k) && Key(ls[k]) == Key(acc[i]) && ls[k].message == acc[i].message;
      assert Key(ls[k]) == key;
    }
  }

  lemma AbsorbKeepsMerge(ls: seq<Limitation>, n: nat, acc: seq<Limitation>)
    requires n < |ls| && IsMerge(ls, n, acc)
    ensures IsMerge(ls, n + 1, Absorb(acc, ls[n]))
  {
    var l, next := ls[n], Absorb(acc, ls[n]);
    AbsorbKeepsOneEach(acc, l);
    AbsorbKeepsLongest(ls, n, acc);
    hide Absorb, HasLongest, Longer, OneEach, HasKey, Position, Key, IsMerge;
    KeptMerge(ls, n, acc, next);
  }

  lemma KeptMerge(ls: seq<Limitation>, n: nat, acc: seq<Limitation>, next: seq<Limitation>)
    requires n < |ls| && IsMerge(ls, n, acc) && next == Absorb(acc, ls[n])
    requires OneEach(next) && forall i :: 0 <= i < |next| ==> HasLongest(ls, n + 1, next[i])
    ensures IsMerge(ls, n + 1, next)
  {
    hide Absorb, HasLongest, OneEach, Position, Key, FirstOccurrenceOrder;
    AbsorbKeepsFirstOrder(ls, n, acc);
    forall k | 0 <= k <= n ensures Position(next, Key(ls[k])).Some? {
      AbsorbFinds(acc, ls[n], Key(ls[k]));
    }
  }

  lemma AbsorbKeepsFirstOrder(ls: seq<Limitation>, n: nat, acc: seq<Limitation>)
    requires n < |ls| && IsMerge(ls, n, acc)
    ensures FirstOccurrenceOrder(ls, n + 1, Absorb(acc, ls[n]))
  {
    hide Absorb, IsMerge, HasKey, Position, Key;
    var next := Absorb(acc, ls[n]);
    forall i, j, k | 0 <= i < j < |next| && 0 <= k <= n && Key(ls[k]) == Key(next[j]) ensures HasKey(ls, k, Key(next[i])) {
      AbsorbKeepsOrder(ls, n, acc, i, j, k);
    }
  }

  lemma AbsorbFinds(acc: seq<Limitation>, l: Limitation, key: string)
    ensures Position(acc, key).Some? || Key(l) == key ==> Position(Absorb(acc, l), key).Some?
  {
    hide Longer;
    var next := Absorb(acc, l);
    if Position(acc, key).Some? {
      var i := Position(acc, key).value;
      assert Key(next[i]) == key;
    } else if Key(l) == key {
      assert next[|acc|] == l;
    }
  }

  lemma AbsorbKeepsLongest(ls: seq<Limitation>, n: nat, acc: seq<Limitation>)
    requires n < |ls| && IsMerge(ls, n, acc)
    ensures var next := Absorb(acc, ls[n]); forall i :: 0 <= i < |next| ==> HasLongest(ls, n + 1, next[i])
  {
    var l := ls[n];
    var next := Absorb(acc, l);
    HeldKeysOccur(ls, n, acc, Key(l));
    forall i | 0 <= i < |next| ensures HasLongest(ls, n + 1, next[i]) {
      hide HasLongest, Longer, Key, FirstOccurrenceOrder, HasKey;
      if i == |acc| {
        LongestIsNew(ls, n);
      } else if Key(acc[i]) == Key(l) {
        PositionIs(acc, i);
        if Longer(l.message, acc[i].message) {
          LongestChanges(ls, n, acc[i]);
        } else {
          LongestStays(ls, n, acc[i]);
        }
      } else {
        LongestStays(ls, n, acc[i]);
      }
    }
  }

  lemma AbsorbKeepsOrder(ls: seq<Limitation>, n: nat, acc: seq<Limitation>, i: nat, j: nat, k: nat)
    requires n < |ls| && IsMerge(ls, n, acc) && k <= n
    requires var next := Absorb(acc, ls[n]); i < j < |next| && Key(ls[k]) == Key(next[j])
    ensures HasKey(ls, k, Key(Absorb(acc, ls[n])[i]))
  {
    var l, next := ls[n], Absorb(acc, ls[n]);
    HeldKeysOccur(ls, n, acc, Key(l));
    HeldKeysOccur(ls, n, acc, Key(ls[k]));
    AbsorbKeepsOneEach(acc, l);
    hide HasLongest, Longer, Key;
    assert k < n ==> HasKey(ls, n, Key(ls[k]));
    assert Key(next[i]) == Key(acc[i]);
    if k < n && j < |acc| {
      assert Key(next[j]) == Key(acc[j]);
    } else {
      PositionIs(acc, i);
      HeldKeysOccur(ls, n, acc, Key(acc[i]));
      assert k == n;
    }
  }

  lemma {:induction false} AbsorbAllIsMerge(ls: seq<Limitation>, n: nat)
    requires n <= |ls|
    ensures IsMerge(ls, n, AbsorbAll([], ls[..n]))
  {
    if n == 0 {
      assert ls[..0] == [];
    } else {
      AbsorbAllIsMerge(ls, n - 1);
      assert ls[..n][..n - 1] == ls[..n - 1];
      AbsorbKeepsMerge(ls, n - 1, AbsorbAll([], ls[..n - 1]));
    }
  }

  /**
   One limitation per key, in order of first occurrence, with the longest message its key was
   given, and the earliest of these.
   */
  lemma MergeKeepsTheLongest(upper: char -> char, ls: seq<Limitation>)
    ensures var cs := CanonicalAll(upper, ls); IsMerge(cs, |cs|, Merge(upper, ls))
  {
    var cs := CanonicalAll(upper, ls);
    AbsorbAllIsMerge(cs, |cs|);
    assert cs[..|cs|] == cs;
  }

  // ---- Keys and pairs ------------------------------------------------------------------------

  /** Limitations of one key are of one code and tool. */
  predicate NoKeyShared(cs: seq<Limitation>) {
    forall j, k :: 0 <= j < |cs| && 0 <= k < |cs| && Key(cs[j]) == Key(cs[k]) ==> SamePair(cs[j], cs[k])
  }

  ghost predicate HasPair(ls: seq<Limitation>, l: Limitation) {
    exists i :: 0 <= i < |ls| && SamePair(ls[i], l)
  }

  /** Every code and tool once, and no other. */
  ghost predicate OnePerPair(cs: seq<Limitation>, acc: seq<Limitation>) {
    && (forall k :: 0 <= k < |cs| ==> HasPair(acc, cs[k]))
    && (forall i :: 0 <= i < |acc| ==> HasPair(cs, acc[i]))
    && (forall i, j :: 0 <= i < j < |acc| ==> !SamePair(acc[i], acc[j]))
  }

  lemma HasPairGrows(ls: seq<Limitation>, last: Limitation, l: Limitation)
    requires HasPair(ls, l) || SamePair(last, l)
    ensures HasPair(ls + [last], l)
  {
    var more := ls + [last];
    assert more[|ls|] == last;
    if i :| 0 <= i < |ls| && SamePair(ls[i], l) {
      assert SamePair(more[i], l);
    }
  }

  lemma {:induction false} PairsComeFromTheInput(cs: seq<Limitation>)
    ensures forall i :: 0 <= i < |AbsorbAll([], cs)| ==> HasPair(cs, AbsorbAll([], cs)[i])
  {
    hide Absorb, HasPair, SamePair, Key;
    if cs != [] {
      var init, last := cs[..|cs| - 1], cs[|cs| - 1];
      var before := AbsorbAll([], init);
      PairsComeFromTheInput(init);
      assert cs == init + [last];
      AbsorbKeepsPairs(before, last);
      OneMorePair(init, last, before, Absorb(before, last));
    }
  }

  lemma OneMorePair(ls: seq<Limitation>, last: Limitation, before: seq<Limitation>, after: seq<Limitation>)
    requires forall i :: 0 <= i < |before| ==> HasPair(ls, before[i])
    requires |before| <= |after| <= |before| + 1
    requires forall i :: 0 <= i < |before| ==> SamePair(before[i], after[i])
    requires |after| > |before| ==> SamePair(after[|before|], last)
    ensures forall i :: 0 <= i < |after| ==> HasPair(ls + [last], after[i])
  {
    hide HasPair;
    forall i | 0 <= i < |after| ensures HasPair(ls + [last], after[i]) {
      if i < |before| {
        HasPairGrows(ls, last, before[i]);
        SamePairCarries(ls + [last], before[i], after[i]);
      } else {
        HasPairGrows(ls, last, after[i]);
      }
    }
  }

  lemma SamePairCarries(ls: seq<Limitation>, a: Limitation, b: Limitation)
    requires HasPair(ls, a) && SamePair(a, b)
    ensures HasPair(ls, b)
  {
  }

  lemma AbsorbKeepsPairs(acc: seq<Limitation>, l: Limitation)
    ensures |acc| <= |Absorb(acc, l)| <= |acc| + 1
    ensures forall i :: 0 <= i < |acc| ==> SamePair(acc[i], Absorb(acc, l)[i])
    ensures |Absorb(acc, l)| > |acc| ==> SamePair(Absorb(acc, l)[|acc|], l)
  {
    hide Longer, Key;
  }

  lemma SamePairSameKey(a: Limitation, b: Limitation)
    ensures SamePair(a, b) ==> Key(a) == Key(b)
  {
  }

  /** The exact condition for one limitation per code and tool: no two of them share a key. */
  lemma MergeIsOnePerPairIff(upper: char -> char, ls: seq<Limitation>)
    ensures var cs := CanonicalAll(upper, ls); OnePerPair(cs, Merge(upper, ls)) <==> NoKeyShared(cs)
  {
    var cs, acc := CanonicalAll(upper, ls), Merge(upper, ls);
    MergeKeepsTheLongest(upper, ls);
    PairsComeFromTheInput(cs);
    assert acc == AbsorbAll([], cs);
    hide Merge, AbsorbAll, CanonicalAll, Key, OneEach, HasLongest, FirstOccurrenceOrder, HasPair, OnePerPair, NoKeyShared;
    OneEachIsOnePerPairIff(cs, acc);
  }

  lemma OneEachIsOnePerPairIff(cs: seq<Limitation>, acc: seq<Limitation>)
    requires OneEach(acc)
    requires forall k :: 0 <= k < |cs| ==> Position(acc, Key(cs[k])).Some?
    requires forall i :: 0 <= i < |acc| ==> HasPair(cs, acc[i])
    ensures OnePerPair(cs, acc) <==> NoKeyShared(cs)
  {
    hide Key, HasPair, SamePair;
    if NoKeyShared(cs) {
      forall k | 0 <= k < |cs| ensures HasPair(acc, cs[k]) {
        KeyHolderHasPair(cs, acc, k);
      }
      forall i, j | 0 <= i < j < |acc| ensures !SamePair(acc[i], acc[j]) {
        SamePairSameKey(acc[i], acc[j]);
      }
    } else {
      var j, k :| 0 <= j < |cs| && 0 <= k < |cs| && Key(cs[j]) == Key(cs[k]) && !SamePair(cs[j], cs[k]);
      SharedKeyLosesAPair(acc, cs[j], cs[k]);
    }
  }

  lemma KeyHolderHasPair(cs: seq<Limitation>, acc: seq<Limitation>, k: nat)
    requires NoKeyShared(cs) && k < |cs| && Position(acc, Key(cs[k])).Some?
    requires forall i :: 0 <= i < |acc| ==> HasPair(cs, acc[i])
    ensures HasPair(acc, cs[k])
  {
    hide Key;
    var i := Position(acc, Key(cs[k])).value;
    assert HasPair(cs, acc[i]);
    var j :| 0 <= j < |cs| && SamePair(cs[j], acc[i]);
    SamePairSameKey(cs[j], acc[i]);
    assert SamePair(acc[i], cs[k]);
  }

  lemma SharedKeyLosesAPair(acc: seq<Limitation>, a: Limitation, b: Limitation)
    requires OneEach(acc) && Key(a) == Key(b) && !SamePair(a, b)
    ensures !(HasPair(acc, a) && HasPair(acc, b))
  {
    hide Key;
    if HasPair(acc, a) && HasPair(acc, b) {
      var p :| 0 <= p < |acc| && SamePair(acc[p], a);
      var q :| 0 <= q < |acc| && SamePair(acc[q], b);
      SamePairSameKey(acc[p], a);
      SamePairSameKey(acc[q], b);
    }
  }

  /** Codes without NUL share no key, whatever the tools. */
  lemma NoNulNoKeyShared(cs: seq<Limitation>)
    requires forall k :: 0 <= k < |cs| ==> '\0' !in cs[k].code
    ensures NoKeyShared(cs)
  {
    hide Key;
    forall j, k | 0 <= j < |cs| && 0 <= k < |cs| && Key(cs[j]) == Key(cs[k]) ensures SamePair(cs[j], cs[k]) {
      KeysMeetIff(cs[j], cs[k]);
    }
  }

  /** A code with a NUL in it: two limitations of different codes and tools become one. */
  lemma NulLosesALimitation(upper: char -> char, message: string)
    requires IsUpperTable(upper) && upper('\0') == '\0'
    ensures var a, b := Limitation("A\0B", message, "C"), Limitation("A", message, "B\0C");
            Merge(upper, [a, b]) == [a] && !SamePair(a, b)
  {
    var a, b := Limitation("A\0B", message, "C"), Limitation("A", message, "B\0C");
    ShortCodeStays(upper, "A\0B", "C");
    ShortCodeStays(upper, "A", "B\0C");
    assert Key(a) == Key(b) == "A\0B\0C";
    var cs := CanonicalAll(upper, [a, b]);
    assert cs == [a, b];
    hide CanonicalAll, CanonicalCode, Key;
    assert cs[..1] == [a] && [a][..0] == [];
    assert AbsorbAll([], [a]) == [a];
  }

  lemma ShortCodeStays(upper: char -> char, code: string, tool: string)
    requires 0 < |code| < 7 && Trimmed(code) && Shouted(upper, code)
    ensures CanonicalCode(upper, code, tool) == code
  {
    TrimSpaceTrims(code);
    ShoutedStays(upper, code);
    hide TrimSpace, MapText;
  }

  // ---- Laws of merging -----------------------------------------------------------------------

  lemma {:induction false} AbsorbAllAdds(acc: seq<Limitation>, a: seq<Limitation>, b: seq<Limitation>)
    ensures AbsorbAll(acc, a + b) == AbsorbAll(AbsorbAll(acc, a), b)
  {
    hide Absorb;
    if b == [] {
      assert a + b == a;
    } else {
      AbsorbAllAdds(acc, a, b[..|b| - 1]);
      assert (a + b)[..|a + b| - 1] == a + b[..|b| - 1];
    }
  }

  lemma {:induction false} MergedStays(m: seq<Limitation>)
    requires OneEach(m)
    ensures AbsorbAll([], m) == m
  {
    if m != [] {
      hide Absorb, Key;
      var init, last := m[..|m| - 1], m[|m| - 1];
      MergedStays(init);
      assert m == init + [last];
      assert forall i :: 0 <= i < |init| ==> init[i] == m[i];
      NotHeld(init, last);
      AbsorbNew(init, last);
    }
  }

  lemma NotHeld(acc: seq<Limitation>, l: Limitation)
    requires forall i :: 0 <= i < |acc| ==> Key(acc[i]) != Key(l)
    ensures Position(acc, Key(l)).None?
  {
    hide Key;
  }

  ghost predicate IsCanonical(upper: char -> char, l: Limitation) {
    Canonical(upper, l) == l
  }

  lemma AbsorbKeepsCanonical(upper: char -> char, acc: seq<Limitation>, l: Limitation)
    requires IsCanonical(upper, l) && forall i :: 0 <= i < |acc| ==> IsCanonical(upper, acc[i])
    ensures forall i :: 0 <= i < |Absorb(acc, l)| ==> IsCanonical(upper, Absorb(acc, l)[i])
  {
    hide CanonicalCode, Longer, Key;
    forall i | 0 <= i < |Absorb(acc, l)| ensures IsCanonical(upper, Absorb(acc, l)[i]) {
      assert i < |acc| ==> IsCanonical(upper, acc[i]);
    }
  }

  lemma {:induction false} MergeIsCanonical(upper: char -> char, cs: seq<Limitation>)
    requires forall i :: 0 <= i < |cs| ==> IsCanonical(upper, cs[i])
    ensures forall i :: 0 <= i < |AbsorbAll([], cs)| ==> IsCanonical(upper, AbsorbAll([], cs)[i])
  {
    hide IsCanonical, Absorb;
    if cs != [] {
      MergeIsCanonical(upper, cs[..|cs| - 1]);
      AbsorbKeepsCanonical(upper, AbsorbAll([], cs[..|cs| - 1]), cs[|cs| - 1]);
    }
  }

  /** Merged limitations are canonical, one per key: merging them changes nothing. */
  lemma MergeSettles(upper: char -> char, ls: seq<Limitation>)
    requires IsUpperTable(upper)
    ensures CanonicalAll(upper, Merge(upper, ls)) == Merge(upper, ls)
    ensures OneEach(Merge(upper, ls))
    ensures AbsorbAll([], Merge(upper, ls)) == Merge(upper, ls)
  {
    hide CanonicalCode, OneEach, AbsorbAll, IsUpperTable;
    var cs := CanonicalAll(upper, ls);
    forall i | 0 <= i < |cs| ensures IsCanonical(upper, cs[i]) {
      CanonicalCodeSettles(upper, ls[i].code, ls[i].tool);
    }
    MergeIsCanonical(upper, cs);
    NothingMerged();
    AbsorbAllKeepsOneEach([], cs);
    MergedStays(Merge(upper, ls));
  }

  lemma NothingMerged()
    ensures OneEach([])
  {
  }

  lemma CanonicalAllAdds(upper: char -> char, a: seq<Limitation>, b: seq<Limitation>)
    ensures CanonicalAll(upper, a + b) == CanonicalAll(upper, a) + CanonicalAll(upper, b)
  {
    hide Canonical;
  }

  /** merge(merge(a), b) is merge(a, b). */
  lemma MergeInStages(upper: char -> char, a: seq<Limitation>, b: seq<Limitation>)
    requires IsUpperTable(upper)
    ensures Merge(upper, Merge(upper, a) + b) == Merge(upper, a + b)
  {
    hide CanonicalAll, AbsorbAll, IsUpperTable;
    var m := Merge(upper, a);
    MergeSettles(upper, a);
    CanonicalAllAdds(upper, m, b);
    CanonicalAllAdds(upper, a, b);
    AbsorbAllAdds([], m, CanonicalAll(upper, b));
    AbsorbAllAdds([], CanonicalAll(upper, a), CanonicalAll(upper, b));
  }

  lemma MergeIsIdempotent(upper: char -> char, a: seq<Limitation>)
    requires IsUpperTable(upper)
    ensures Merge(upper, Merge(upper, a)) == Merge(upper, a)
  {
    MergeInStages(upper, a, []);
    assert Merge(upper, a) + [] == Merge(upper, a) && a + [] == a;
  }

  /** The key is held, with a message at least as long. */
  ghost predicate Covers(acc: seq<Limitation>, l: Limitation) {
    exists i :: 0 <= i < |acc| && Key(acc[i]) == Key(l) && !Longer(l.message, acc[i].message)
  }

  lemma CoveredIsAbsorbed(acc: seq<Limitation>, l: Limitation)
    requires OneEach(acc) && Covers(acc, l)
    ensures Absorb(acc, l) == acc
  {
    var i :| 0 <= i < |acc| && Key(acc[i]) == Key(l) && !Longer(l.message, acc[i].message);
    PositionIs(acc, i);
  }

  lemma AbsorbCovers(acc: seq<Limitation>, l: Limitation, x: Limitation)
    requires OneEach(acc)
    ensures Covers(Absorb(acc, l), l)
    ensures Covers(acc, x) ==> Covers(Absorb(acc, l), x)
  {
    var next := Absorb(acc, l);
    var p := Position(acc, Key(l));
    assert Covers(next, l) by {
      var i := if p.Some? then p.value else |acc|;
      assert Key(next[i]) == Key(l) && !Longer(l.message, next[i].message);
    }
    if Covers(acc, x) {
      var i :| 0 <= i < |acc| && Key(acc[i]) == Key(x) && !Longer(x.message, acc[i].message);
      assert Key(next[i]) == Key(x) && !Longer(x.message, next[i].message);
    }
  }

  lemma {:induction false} AbsorbAllCovers(acc: seq<Limitation>, ls: seq<Limitation>, x: Limitation)
    requires OneEach(acc) && (x in ls || Covers(acc, x))
    ensures Covers(AbsorbAll(acc, ls), x)
  {
    hide Absorb, Covers, OneEach;
    if ls != [] {
      var init, last := ls[..|ls| - 1], ls[|ls| - 1];
      assert ls == init + [last];
      AbsorbAllKeepsOneEach(acc, init);
      AbsorbCovers(AbsorbAll(acc, init), last, x);
      if x in init || Covers(acc, x) {
        AbsorbAllCovers(acc, init, x);
      }
    }
  }

  lemma {:induction false} CoveredAreAbsorbed(acc: seq<Limitation>, ls: seq<Limitation>)
    requires OneEach(acc) && forall i :: 0 <= i < |ls| ==> Covers(acc, ls[i])
    ensures AbsorbAll(acc, ls) == acc
  {
    hide Absorb, Covers, OneEach;
    if ls != [] {
      CoveredAreAbsorbed(acc, ls[..|ls| - 1]);
      CoveredIsAbsorbed(acc, ls[|ls| - 1]);
    }
  }

  /** Limitations that went into a merge can be merged in again without effect. */
  lemma MergingAgainAddsNothing(upper: char -> char, a: seq<Limitation>, extra: seq<Limitation>)
    requires forall l :: l in extra ==> l in a
    ensures Merge(upper, a + extra) == Merge(upper, a)
  {
    hide Canonical, AbsorbAll, Absorb, Covers, OneEach;
    var ca, ce := CanonicalAll(upper, a), CanonicalAll(upper, extra);
    CanonicalAllAdds(upper, a, extra);
    AbsorbAllAdds([], ca, ce);
    NothingMerged();
    AbsorbAllKeepsOneEach([], ca);
    forall i | 0 <= i < |ce| ensures Covers(AbsorbAll([], ca), ce[i]) {
      assert extra[i] in extra;
      var k :| 0 <= k < |a| && a[k] == extra[i];
      assert ca[k] == ce[i];
      AbsorbAllCovers([], ca, ce[i]);
    }
    CoveredAreAbsorbed(AbsorbAll([], ca), ce);
  }

  // ---- The other grouping ------------------------------------------------------------------------

  lemma AbsorbsCommute(acc: seq<Limitation>, l: Limitation, x: Limitation)
    requires OneEach(acc) && Position(acc, Key(l)).Some? && Key(x) != Key(l)
    ensures Absorb(Absorb(acc, l), x) == Absorb(Absorb(acc, x), l)
  {
    var i := Position(acc, Key(l)).value;
    match Position(acc, Key(x))
    case Some(j) =>
      BothHeld(acc, l, i, x, j);
    case None =>
      NewAndHeld(acc, l, i, x);
  }

  lemma BothHeld(acc: seq<Limitation>, l: Limitation, i: nat, x: Limitation, j: nat)
    requires OneEach(acc) && Position(acc, Key(l)) == Some(i) && Position(acc, Key(x)) == Some(j) && i != j
    ensures Absorb(Absorb(acc, l), x) == Absorb(Absorb(acc, x), l)
  {
    hide Absorb, Longer, Key, Position, OneEach;
    AbsorbKeepsOneEach(acc, l);
    AbsorbKeepsOneEach(acc, x);
    PositionIs(Absorb(acc, x), i);
    PositionIs(Absorb(acc, l), j);
    AbsorbAt(acc, l, i);
    AbsorbAt(acc, x, j);
    AbsorbAt(Absorb(acc, l), x, j);
    AbsorbAt(Absorb(acc, x), l, i);
  }

  function Lengthen(acc: seq<Limitation>, i: nat, m: string): seq<Limitation>
    requires i < |acc|
  {
    if Longer(m, acc[i].message) then acc[i := acc[i].(message := m)] else acc
  }

  lemma AbsorbAt(acc: seq<Limitation>, l: Limitation, i: nat)
    requires Position(acc, Key(l)) == Some(i)
    ensures Absorb(acc, l) == Lengthen(acc, i, l.message)
  {
  }

  lemma NewAndHeld(acc: seq<Limitation>, l: Limitation, i: nat, x: Limitation)
    requires OneEach(acc) && Position(acc, Key(l)) == Some(i) && Position(acc, Key(x)).None?
    ensures Absorb(Absorb(acc, l), x) == Absorb(Absorb(acc, x), l)
  {
    hide Absorb, Longer, Key, Position, OneEach;
    AbsorbKeepsOneEach(acc, x);
    PositionIs(Absorb(acc, x), i);
    KeysStay(acc, l, x);
    AbsorbAt(acc, l, i);
    AbsorbAt(Absorb(acc, x), l, i);
    AbsorbNew(acc, x);
    AbsorbNew(Absorb(acc, l), x);
    assert (acc + [x])[i] == acc[i];
  }

  lemma AbsorbNew(acc: seq<Limitation>, l: Limitation)
    requires Position(acc, Key(l)).None?
    ensures Absorb(acc, l) == acc + [l]
  {
  }

  lemma KeysStay(acc: seq<Limitation>, l: Limitation, x: Limitation)
    requires Position(acc, Key(l)).Some? && Position(acc, Key(x)).None?
    ensures Position(Absorb(acc, l), Key(x)).None?
  {
    hide Longer;
    var next := Absorb(acc, l);
    assert forall i :: 0 <= i < |acc| ==> Key(next[i]) == Key(acc[i]) && Key(acc[i]) != Key(x);
  }

  /** A message need not be lengthened in two steps. */
  lemma LengthenOnce(acc: seq<Limitation>, i: nat, m: string, longer: string)
    requires i < |acc| && Longer(longer, m)
    ensures Lengthen(acc, i, longer) == Lengthen(Lengthen(acc, i, m), i, longer)
  {
  }

  lemma {:induction false} LengthenedLater(acc: seq<Limitation>, ls: seq<Limitation>, i: nat, l: Limitation)
    requires OneEach(acc) && OneEach(ls) && i < |ls|
    requires Key(ls[i]) == Key(l) && Longer(l.message, ls[i].message)
    ensures AbsorbAll(acc, ls[i := ls[i].(message := l.message)]) == Absorb(AbsorbAll(acc, ls), l)
  {
    var longer := ls[i := ls[i].(message := l.message)];
    var init, last := ls[..|ls| - 1], ls[|ls| - 1];
    var before := AbsorbAll(acc, init);
    AbsorbAllKeepsOneEach(acc, init);
    hide Absorb, Longer, Key, Position, OneEach;
    if i == |ls| - 1 {
      assert longer[..|ls| - 1] == init;
      AbsorbLengthened(before, last, l, Absorb(before, last));
    } else {
      assert longer[..|ls| - 1] == init[i := init[i].(message := l.message)];
      assert longer[|ls| - 1] == last;
      NotTheLast(ls, i);
      LengthenedLater(acc, init, i, l);
      AbsorbAllFinds(acc, init, i);
      AbsorbsCommute(before, l, last);
    }
  }

  /** A longer message can be given to an entry before it is absorbed or after. */
  lemma AbsorbLengthened(acc: seq<Limitation>, b: Limitation, l: Limitation, next: seq<Limitation>)
    requires OneEach(acc) && Key(b) == Key(l) && Longer(l.message, b.message) && next == Absorb(acc, b)
    ensures Absorb(acc, b.(message := l.message)) == Absorb(next, l)
  {
    hide Absorb, Longer, Key, Position, OneEach;
    var u := b.(message := l.message);
    SameKey(b, l.message);
    AbsorbKeepsOneEach(acc, b);
    match Position(acc, Key(b))
    case Some(k) =>
      PositionIs(next, k);
      AbsorbAt(acc, u, k);
      AbsorbAt(acc, b, k);
      AbsorbAt(next, l, k);
      LengthenOnce(acc, k, b.message, l.message);
    case None =>
      AbsorbNew(acc, u);
      AbsorbNew(acc, b);
      PositionIs(next, |acc|);
      AbsorbAt(next, l, |acc|);
  }

  lemma NotTheLast(ls: seq<Limitation>, i: nat)
    requires OneEach(ls) && i + 1 < |ls|
    ensures OneEach(ls[..|ls| - 1]) && Key(ls[i]) != Key(ls[|ls| - 1])
  {
  }

  lemma {:induction false} AbsorbAllFinds(acc: seq<Limitation>, ls: seq<Limitation>, i: nat)
    requires i < |ls|
    ensures Position(AbsorbAll(acc, ls), Key(ls[i])).Some?
  {
    hide Absorb, Key, Position;
    var init, last := ls[..|ls| - 1], ls[|ls| - 1];
    if i < |init| {
      AbsorbAllFinds(acc, init, i);
    }
    AbsorbFinds(AbsorbAll(acc, init), last, Key(ls[i]));
  }

  /** Absorbing a merged list has the effect of absorbing what was merged. */
  lemma {:induction false} AbsorbingTheMerged(acc: seq<Limitation>, ls: seq<Limitation>)
    requires OneEach(acc)
    ensures AbsorbAll(acc, AbsorbAll([], ls)) == AbsorbAll(acc, ls)
  {
    if ls != [] {
      var init, l := ls[..|ls| - 1], ls[|ls| - 1];
      var m := AbsorbAll([], init);
      NothingMerged();
      AbsorbAllKeepsOneEach([], init);
      AbsorbingTheMerged(acc, init);
      AbsorbingOneMore(acc, m, l);
    }
  }

  lemma AbsorbingOneMore(acc: seq<Limitation>, m: seq<Limitation>, l: Limitation)
    requires OneEach(acc) && OneEach(m)
    ensures AbsorbAll(acc, Absorb(m, l)) == Absorb(AbsorbAll(acc, m), l)
  {
    hide AbsorbAll, Longer, Key;
    match Position(m, Key(l))
    case None =>
      AbsorbAllLast(acc, m, l);
    case Some(i) =>
      if Longer(l.message, m[i].message) {
        LengthenedLater(acc, m, i, l);
      } else {
        assert m[i] in m;
        AbsorbAllCovers(acc, m, m[i]);
        AbsorbAllKeepsOneEach(acc, m);
        CoversShorter(AbsorbAll(acc, m), m[i], l);
        CoveredIsAbsorbed(AbsorbAll(acc, m), l);
      }
  }

  lemma AbsorbAllLast(acc: seq<Limitation>, m: seq<Limitation>, l: Limitation)
    ensures AbsorbAll(acc, m + [l]) == Absorb(AbsorbAll(acc, m), l)
  {
    assert (m + [l])[..|m|] == m;
  }

  lemma CoversShorter(acc: seq<Limitation>, x: Limitation, l: Limitation)
    requires Covers(acc, x) && Key(x) == Key(l) && !Longer(l.message, x.message)
    ensures Covers(acc, l)
  {
    hide Key;
    var i :| 0 <= i < |acc| && Key(acc[i]) == Key(x) && !Longer(x.message, acc[i].message);
    assert !Longer(l.message, acc[i].message);
  }

  /** merge(a, merge(b)) is merge(a, b). */
  lemma MergeTheRestFirst(upper: char -> char, a: seq<Limitation>, b: seq<Limitation>)
    requires IsUpperTable(upper)
    ensures Merge(upper, a + Merge(upper, b)) == Merge(upper, a + b)
  {
    hide CanonicalAll, AbsorbAll, IsUpperTable, OneEach;
    var m := Merge(upper, b);
    var ca, cb := CanonicalAll(upper, a), CanonicalAll(upper, b);
    MergeSettles(upper, b);
    CanonicalAllAdds(upper, a, m);
    CanonicalAllAdds(upper, a, b);
    AbsorbAllAdds([], ca, m);
    AbsorbAllAdds([], ca, cb);
    NothingMerged();
    AbsorbAllKeepsOneEach([], ca);
    AbsorbingTheMerged(AbsorbAll([], ca), cb);
  }

  /** Merging is associative: however the groups are merged first, the result is the same. */
  lemma MergeIsAssociative(upper: char -> char, a: seq<Limitation>, b: seq<Limitation>, c: seq<Limitation>)
    requires IsUpperTable(upper)
    ensures Merge(upper, Merge(upper, a + b) + c) == Merge(upper, a + b + c)
    ensures Merge(upper, a + Merge(upper, b + c)) == Merge(upper, a + b + c)
  {
    hide Merge, IsUpperTable;
    MergeInStages(upper, a + b, c);
    MergeTheRestFirst(upper, a, b + c);
    assert a + b + c == a + (b + c);
  }
}
