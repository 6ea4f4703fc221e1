/**
 Evidence aggregation (internal/evidence/aggregate.go, with Normalize of evidence.go).

 Duplicates of an evidence ID are reduced to the best one and the survivors are grouped by
 source. The survivors sit in a Go map, which is ranged over in no fixed order: the method
 here picks its keys arbitrarily and still returns one function of the candidates.
 */
module Aggregate {

  import opened Text
  import opened Collections
  import opened Metadata
  import Budget

  // ---- Evidence --------------------------------------------------------------------------

  datatype TimeRange = TimeRange(from: string, to: string)

  datatype Item = Item(
    id: string,
    kind: string,
    source: string,
    sourceName: string,
    content: string,
    score: Option<real>,
    timeRange: Option<TimeRange>,
    traceID: string,
    resourceID: string,
    confidence: Option<real>,
    metadata: Option<map<string, Value>>)

  function DefaultType(source: string): string {
    match source
    case "logs" => "log_event"
    case "metrics" => "metric_sample"
    case "traces" => "trace_span"
    case "knowledge" => "knowledge_chunk"
    case "alerts" => "alert_signal"
    case "topology" => "service_topology"
    case _ => "evidence"
  }

  /** The types that evidence of the known sources gets when it has none of its own. */
  lemma DefaultTypes()
    ensures DefaultType("logs") == "log_event" && DefaultType("metrics") == "metric_sample"
    ensures DefaultType("traces") == "trace_span" && DefaultType("knowledge") == "knowledge_chunk"
    ensures DefaultType("alerts") == "alert_signal" && DefaultType("topology") == "service_topology"
    ensures forall source :: source !in {"logs", "metrics", "traces", "knowledge", "alerts", "topology"} ==>
              DefaultType(source) == "evidence"
  {
  }

  function Normalize(item: Item, defaultSource: string): Item {
    var source := if item.source == "" then defaultSource else item.source;
    var kind := TrimSpace(item.kind);
    var metadata := if item.metadata.Some? then item.metadata.value else map[];
    var traceID := TrimSpace(item.traceID);
    item.(
      id := TrimSpace(item.id),
      kind := if kind == "" then DefaultType(source) else kind,
      source := source,
      sourceName := TrimSpace(item.sourceName),
      content := TrimSpace(item.content),
      resourceID := TrimSpace(item.resourceID),
      metadata := Some(metadata),
      traceID := if traceID == "" && "trace_id" in metadata && metadata["trace_id"].TextValue?
                 then TrimSpace(metadata["trace_id"].text) else traceID)
  }

  lemma DefaultTypeIsTrimmed(source: string)
    ensures TrimSpace(DefaultType(source)) == DefaultType(source) != ""
  {
    hide TrimSpace;
    TrimSpaceTrims(DefaultType(source));
  }

  /** Normalising again changes nothing. */
  lemma NormalizeSettles(item: Item, defaultSource: string, otherSource: string)
    requires item.source != "" || otherSource == defaultSource
    ensures Normalize(Normalize(item, defaultSource), otherSource) == Normalize(item, defaultSource)
  {
    hide TrimSpace, DefaultType;
    TrimSpaceTrims(item.id);
    TrimSpaceTrims(item.kind);
    TrimSpaceTrims(item.sourceName);
    TrimSpaceTrims(item.content);
    TrimSpaceTrims(item.resourceID);
    TrimSpaceTrims(item.traceID);
    var n := Normalize(item, defaultSource);
    DefaultTypeIsTrimmed(n.source);
    var metadata := if item.metadata.Some? then item.metadata.value else map[];
    if "trace_id" in metadata && metadata["trace_id"].TextValue? {
      TrimSpaceTrims(metadata["trace_id"].text);
    }
  }

  // ---- Keys --------------------------------------------------------------------------------

  function Digit(d: nat): (c: char)
    requires d < 10
    ensures '0' <= c <= '9' && c as int - '0' as int == d
  {
    "0123456789"[d]
  }

  /** Decimal notation, most significant digit first. */
  function Decimal(n: nat): (s: string)
    ensures s != ""
  {
    if n < 10 then [Digit(n)] else Decimal(n / 10) + [Digit(n % 10)]
  }

  function AnonymousKey(index: nat): string {
    "#" + Decimal(index)
  }

  function ReadDecimal(s: string): int {
    if s == "" then 0 else 10 * ReadDecimal(s[..|s| - 1]) + (s[|s| - 1] as int - '0' as int)
  }

  lemma {:induction false} DecimalIsRead(n: nat)
    ensures ReadDecimal(Decimal(n)) == n
  {
    if n >= 10 {
      DecimalIsRead(n / 10);
      var s := Decimal(n);
      assert s[..|s| - 1] == Decimal(n / 10);
    }
  }

  lemma AnonymousKeysDiffer(a: nat, b: nat)
    ensures AnonymousKey(a) == AnonymousKey(b) <==> a == b
    ensures AnonymousKey(a) != ""
  {
    DecimalIsRead(a);
    DecimalIsRead(b);
    var k, l := AnonymousKey(a), AnonymousKey(b);
    assert k[1..] == Decimal(a) && l[1..] == Decimal(b);
  }

  function Reversed(s: string): (r: string)
    ensures |r| == |s|
    ensures forall i :: 0 <= i < |s| ==> r[i] == s[|s| - 1 - i]
  {
    if s == "" then "" else Reversed(s[1..]) + [s[0]]
  }

  lemma ReversedIsTheOnly(s: string, t: string)
    requires |s| == |t| && forall i :: 0 <= i < |s| ==> t[i] == s[|s| - 1 - i]
    ensures t == Reversed(s)
  {
  }

  lemma ReversedTail(s: string, c: char)
    ensures Reversed(s + [c]) == [c] + Reversed(s)
  {
    ReversedIsTheOnly(s + [c], [c] + Reversed(s));
  }

  method ReverseInPlace(buffer: array<char>)
    modifies buffer
    ensures buffer[..] == Reversed(old(buffer[..]))
  {
    var left, right := 0, buffer.Length - 1;
    while left < right
      invariant 0 <= left <= right + 2 && left + right == buffer.Length - 1
      invariant forall k :: 0 <= k < left || right < k < buffer.Length ==> buffer[k] == old(buffer[buffer.Length - 1 - k])
      invariant forall k :: left <= k <= right ==> buffer[k] == old(buffer[k])
      decreases right - left
    {
      buffer[left], buffer[right] := buffer[right], buffer[left];
      left, right := left + 1, right - 1;
    }
    ReversedIsTheOnly(old(buffer[..]), buffer[..]);
  }

  /** Digits from the least significant one up, and the buffer reversed in place. */
  method MakeAnonymousKey(index: nat) returns (key: string)
    ensures key == AnonymousKey(index)
  {
    hide Reversed, Digit;
    if index == 0 {
      AnonymousKeyOfZero();
      return "#0";
    }
    var digits: string := "";
    var rest := index;
    hide Decimal;
    NoDigits(index);
    while rest > 0
      invariant Decimal(index) == Leading(rest) + Reversed(digits)
    {
      NextDigit(rest, digits);
      digits := digits + [Digit(rest % 10)];
      rest := rest / 10;
    }
    var buffer := new char[|digits|](i requires 0 <= i < |digits| => digits[i]);
    assert buffer[..] == digits;
    ReverseInPlace(buffer);
    assert Leading(0) + Reversed(digits) == Reversed(digits);
    key := "#" + buffer[..];
  }

  lemma AnonymousKeyOfZero()
    ensures AnonymousKey(0) == "#0"
  {
  }

  lemma NoDigits(index: nat)
    ensures Leading(index) + Reversed("") == Leading(index)
    ensures index > 0 ==> Leading(index) == Decimal(index)
  {
  }

  /** The digits still to be produced. */
  function Leading(rest: nat): string {
    if rest == 0 then "" else Decimal(rest)
  }

  lemma NextDigit(rest: nat, digits: string)
    requires rest > 0
    ensures Leading(rest) + Reversed(digits) == Leading(rest / 10) + Reversed(digits + [Digit(rest % 10)])
  {
    hide Reversed;
    ReversedTail(digits, Digit(rest % 10));
    assert Leading(rest) == Leading(rest / 10) + [Digit(rest % 10)];
    Regroup3(Leading(rest / 10), [Digit(rest % 10)], Reversed(digits));
  }

  // ---- Candidates -----------------------------------------------------------------------------

  datatype Candidate = Candidate(item: Item, latencyMS: int)

  datatype Ranked = Ranked(item: Item, latencyMS: int, sequence: nat)

  predicate BetterCandidate(left: Ranked, right: Ranked) {
    if left.item.score.Some? != right.item.score.Some? then left.item.score.Some?
    else if left.item.score.Some? && left.item.score.value != right.item.score.value then
      left.item.score.value > right.item.score.value
    else if left.latencyMS != right.latencyMS then left.latencyMS < right.latencyMS
    else left.sequence < right.sequence
  }

  /** A strict total order on candidates with distinct sequence numbers. */
  lemma BetterIsAStrictTotalOrder(a: Ranked, b: Ranked, c: Ranked)
    ensures !(BetterCandidate(a, b) && BetterCandidate(b, a))
    ensures BetterCandidate(a, b) && BetterCandidate(b, c) ==> BetterCandidate(a, c)
    ensures a.sequence != b.sequence ==> BetterCandidate(a, b) || BetterCandidate(b, a)
  {
  }

  function Clean(item: Item): Item {
    Normalize(item, item.source)
  }

  predicate Anonymous(c: Candidate) {
    Clean(c.item).id == ""
  }

  function AnonymousCount(cs: seq<Candidate>): (n: nat)
    ensures n <= |cs|
  {
    if cs == [] then 0
    else AnonymousCount(cs[..|cs| - 1]) + (if Anonymous(cs[|cs| - 1]) then 1 else 0)
  }

  /** The key the candidate at i competes under. */
  function KeyAt(cs: seq<Candidate>, i: nat): string
    requires i < |cs|
  {
    if Anonymous(cs[i]) then AnonymousKey(AnonymousCount(cs[..i + 1])) else Clean(cs[i].item).id
  }

  function RankAt(cs: seq<Candidate>, i: nat): (r: Ranked)
    requires i < |cs|
    ensures r.sequence == i
  {
    Ranked(Clean(cs[i].item), cs[i].latencyMS, i)
  }

  predicate Beats(cs: seq<Candidate>, i: nat, j: nat)
    requires i < |cs| && j < |cs|
  {
    i != j && KeyAt(cs, i) == KeyAt(cs, j) ==> BetterCandidate(RankAt(cs, i), RankAt(cs, j))
  }

  /** Among the first n candidates, nobody with the same key is better. */
  predicate Wins(cs: seq<Candidate>, n: nat, i: nat)
    requires i < n <= |cs|
  {
    forall j :: 0 <= j < n ==> Beats(cs, i, j)
  }

  /** The survivors in the order they came. */
  function Winners(cs: seq<Candidate>, n: nat): seq<Ranked>
    requires n <= |cs|
  {
    if n == 0 then []
    else Winners(cs, n - 1) + (if Wins(cs, |cs|, n - 1) then [RankAt(cs, n - 1)] else [])
  }

  function OfSource(rs: seq<Ranked>, source: string): seq<Ranked> {
    if rs == [] then []
    else
      var last := rs[|rs| - 1];
      OfSource(rs[..|rs| - 1], source) + (if last.item.source == source then [last] else [])
  }

  /** The sources in the order they are first seen. */
  function SourceOrder(cs: seq<Candidate>): seq<string> {
    if cs == [] then []
    else
      var before := SourceOrder(cs[..|cs| - 1]);
      var source := cs[|cs| - 1].item.source;
      if source in before then before else before + [source]
  }

  // ---- Sorting ------------------------------------------------------------------------------------

  predicate Sorted(rs: seq<Ranked>) {
    forall i, j :: 0 <= i < j < |rs| ==> BetterCandidate(rs[i], rs[j])
  }

  predicate Distinct(rs: seq<Ranked>) {
    forall i, j :: 0 <= i < j < |rs| ==> rs[i].sequence != rs[j].sequence
  }

  lemma {:induction false} InsertSorts(r: Ranked, rs: seq<Ranked>)
    requires Sorted(rs) && forall x :: x in rs ==> x.sequence != r.sequence
    ensures Sorted(Insert(BetterCandidate, r, rs))
    ensures forall x :: x in Insert(BetterCandidate, r, rs) <==> x == r || x in rs
    ensures |Insert(BetterCandidate, r, rs)| == |rs| + 1
  {
    if rs != [] && BetterCandidate(rs[0], r) {
      InsertSorts(r, rs[1..]);
      var tail := Insert(BetterCandidate, r, rs[1..]);
      assert forall x :: x in rs <==> x == rs[0] || x in rs[1..];
      forall j | 0 <= j < |tail| ensures BetterCandidate(rs[0], tail[j]) {
        assert tail[j] in tail;
      }
    } else if rs != [] {
      BetterIsAStrictTotalOrder(r, rs[0], rs[0]);
      assert rs[0] in rs && BetterCandidate(r, rs[0]);
      forall j | 0 <= j < |rs| ensures BetterCandidate(r, rs[j]) {
        BetterIsAStrictTotalOrder(r, rs[0], rs[j]);
      }
    }
  }

  lemma {:induction false} SortSorts(rs: seq<Ranked>)
    requires Distinct(rs)
    ensures Sorted(Sort(BetterCandidate, rs))
    ensures forall x :: x in Sort(BetterCandidate, rs) <==> x in rs
    ensures |Sort(BetterCandidate, rs)| == |rs|
  {
    if rs != [] {
      SortSorts(rs[1..]);
      assert forall x :: x in rs <==> x == rs[0] || x in rs[1..];
      InsertSorts(rs[0], Sort(BetterCandidate, rs[1..]));
    }
  }

  /** There is one way to sort a set of candidates. */
  lemma {:induction false} SortedIsUnique(a: seq<Ranked>, b: seq<Ranked>)
    requires Sorted(a) && Sorted(b)
    requires forall x :: x in a <==> x in b
    ensures a == b
  {
    assert b != [] ==> b[0] in a;
    if a != [] {
      assert a[0] in b;
      var k :| 0 <= k < |b| && b[k] == a[0];
      assert b[0] in a;
      var l :| 0 <= l < |a| && a[l] == b[0];
      assert k == 0 by {
        assert k > 0 ==> BetterCandidate(b[0], b[k]);
        assert l > 0 ==> BetterCandidate(a[0], a[l]);
        BetterIsAStrictTotalOrder(a[0], b[0], a[0]);
      }
      SortedTail(a);
      SortedTail(b);
      SortedIsUnique(a[1..], b[1..]);
    }
  }

  lemma SortedTail(s: seq<Ranked>)
    requires Sorted(s) && s != []
    ensures Sorted(s[1..])
    ensures forall x :: x in s[1..] <==> x in s && x != s[0]
  {
    forall x | x in s[1..] ensures x in s && x != s[0] {
      var k :| 1 <= k < |s| && s[k] == x;
      BetterIsAStrictTotalOrder(s[0], s[k], s[0]);
    }
  }

  // ---- The result -----------------------------------------------------------------------------------

  datatype Aggregation = Aggregation(items: seq<Item>, groups: map<string, seq<Item>>)

  function ItemsOf(rs: seq<Ranked>): (r: seq<Item>)
    ensures |r| == |rs| && forall i :: 0 <= i < |rs| ==> r[i] == rs[i].item
  {
    seq(|rs|, i requires 0 <= i < |rs| => rs[i].item)
  }

  function Group(cs: seq<Candidate>, source: string): seq<Ranked> {
    Sort(BetterCandidate, OfSource(Winners(cs, |cs|), source))
  }

  /** The groups of these sources, one after the other. */
  function Flat(cs: seq<Candidate>, sources: seq<string>): seq<Ranked> {
    if sources == [] then []
    else Flat(cs, sources[..|sources| - 1]) + Group(cs, sources[|sources| - 1])
  }

  function Survivors(cs: seq<Candidate>): seq<Ranked> {
    Flat(cs, SourceOrder(cs))
  }

  /** What aggregation returns: a function of the candidates alone. */
  function Aggregated(cs: seq<Candidate>): Aggregation {
    Aggregation(ItemsOf(Survivors(cs)), GroupsOf(cs, SourceOrder(cs)))
  }

  function GroupsOf(cs: seq<Candidate>, sources: seq<string>): map<string, seq<Item>> {
    map source | source in sources :: ItemsOf(Group(cs, source))
  }

  // ---- The survivors map -----------------------------------------------------------------------------

  ghost predicate HasKey(cs: seq<Candidate>, n: nat, key: string)
    requires n <= |cs|
  {
    exists i :: 0 <= i < n && KeyAt(cs, i) == key
  }

  predicate HoldsWinner(cs: seq<Candidate>, n: nat, key: string, r: Ranked)
    requires n <= |cs|
  {
    r.sequence < n && r == RankAt(cs, r.sequence) && KeyAt(cs, r.sequence) == key && Wins(cs, n, r.sequence)
  }

  /** The map after n candidates: for every key seen, the best candidate under it. */
  ghost predicate IsUnique(cs: seq<Candidate>, n: nat, unique: map<string, Ranked>)
    requires n <= |cs|
  {
    KeysAreSeen(cs, n, unique) && ValuesWin(cs, n, unique)
  }

  ghost predicate KeysAreSeen(cs: seq<Candidate>, n: nat, unique: map<string, Ranked>)
    requires n <= |cs|
  {
    forall key :: key in unique <==> HasKey(cs, n, key)
  }

  ghost predicate ValuesWin(cs: seq<Candidate>, n: nat, unique: map<string, Ranked>)
    requires n <= |cs|
  {
    forall key :: key in unique ==> HoldsWinner(cs, n, key, unique[key])
  }

  lemma UniqueGrows(cs: seq<Candidate>, n: nat, unique: map<string, Ranked>, key: string, r: Ranked)
    requires n < |cs| && IsUnique(cs, n, unique) && key == KeyAt(cs, n) && r == RankAt(cs, n)
    ensures IsUnique(cs, n + 1, if key !in unique || BetterCandidate(r, unique[key]) then unique[key := r] else unique)
  {
    hide KeyAt, RankAt, KeysAreSeen, ValuesWin, HoldsWinner, BetterCandidate;
    var next := if key !in unique || BetterCandidate(r, unique[key]) then unique[key := r] else unique;
    var w := if key !in unique || BetterCandidate(r, unique[key]) then r else unique[key];
    NewWinner(cs, n, key, unique, w);
    assert next == unique[key := w];
    PutKey(cs, n, unique, key, w);
    PutWinner(cs, n, unique, key, w);
  }

  lemma PutKey(cs: seq<Candidate>, n: nat, unique: map<string, Ranked>, key: string, w: Ranked)
    requires n < |cs| && KeysAreSeen(cs, n, unique) && key == KeyAt(cs, n)
    ensures KeysAreSeen(cs, n + 1, unique[key := w])
  {
    hide KeyAt, HasKey;
    var next := unique[key := w];
    forall k ensures k in next <==> HasKey(cs, n + 1, k) {
      HasKeyGrows(cs, n, k);
    }
  }

  lemma PutWinner(cs: seq<Candidate>, n: nat, unique: map<string, Ranked>, key: string, w: Ranked)
    requires n < |cs| && ValuesWin(cs, n, unique) && key == KeyAt(cs, n)
    requires HoldsWinner(cs, n + 1, key, w)
    ensures ValuesWin(cs, n + 1, unique[key := w])
  {
    hide KeyAt, HoldsWinner;
    forall k | k in unique && k != key ensures HoldsWinner(cs, n + 1, k, unique[k]) {
      OtherWinnerStays(cs, n, k, unique[k]);
    }
  }

  lemma HasKeyGrows(cs: seq<Candidate>, n: nat, key: string)
    requires n < |cs|
    ensures HasKey(cs, n + 1, key) <==> HasKey(cs, n, key) || KeyAt(cs, n) == key
  {
    hide KeyAt;
    if HasKey(cs, n, key) {
      var i :| 0 <= i < n && KeyAt(cs, i) == key;
      assert 0 <= i < n + 1 && KeyAt(cs, i) == key;
    }
  }

  lemma OtherWinnerStays(cs: seq<Candidate>, n: nat, key: string, r: Ranked)
    requires n < |cs| && HoldsWinner(cs, n, key, r) && key != KeyAt(cs, n)
    ensures HoldsWinner(cs, n + 1, key, r)
  {
    hide KeyAt, RankAt, BetterCandidate;
    assert Beats(cs, r.sequence, n);
  }

  lemma NewWinner(cs: seq<Candidate>, n: nat, key: string, unique: map<string, Ranked>, w: Ranked)
    requires n < |cs| && IsUnique(cs, n, unique) && key == KeyAt(cs, n)
    requires var r := RankAt(cs, n);
             w == if key !in unique || BetterCandidate(r, unique[key]) then r else unique[key]
    ensures HoldsWinner(cs, n + 1, key, w)
  {
    hide KeyAt, RankAt, BetterCandidate;
    if key !in unique {
      FirstOfItsKey(cs, n, key);
    } else {
      BetterOfTwo(cs, n, key, unique[key]);
    }
  }

  lemma FirstOfItsKey(cs: seq<Candidate>, n: nat, key: string)
    requires n < |cs| && !HasKey(cs, n, key) && key == KeyAt(cs, n)
    ensures HoldsWinner(cs, n + 1, key, RankAt(cs, n))
  {
    hide KeyAt, RankAt, BetterCandidate;
    forall j | 0 <= j < n ensures Beats(cs, n, j) {
      assert KeyAt(cs, j) != key;
    }
  }

  lemma BetterOfTwo(cs: seq<Candidate>, n: nat, key: string, u: Ranked)
    requires n < |cs| && HoldsWinner(cs, n, key, u) && key == KeyAt(cs, n)
    ensures HoldsWinner(cs, n + 1, key, if BetterCandidate(RankAt(cs, n), u) then RankAt(cs, n) else u)
  {
    hide KeyAt, RankAt, BetterCandidate;
    var r := RankAt(cs, n);
    if BetterCandidate(r, u) {
      forall j | 0 <= j < n ensures Beats(cs, n, j) {
        assert Beats(cs, u.sequence, j);
        BetterIsAStrictTotalOrder(r, u, RankAt(cs, j));
      }
    } else {
      BetterIsAStrictTotalOrder(r, u, r);
      assert Beats(cs, u.sequence, n);
    }
  }

  lemma {:induction false} WinnersAre(cs: seq<Candidate>, n: nat)
    requires n <= |cs|
    ensures forall r :: r in Winners(cs, n) <==> IsWinner(cs, n, r)
    ensures Distinct(Winners(cs, n))
  {
    hide Wins, KeyAt, RankAt;
    if n > 0 {
      WinnersAre(cs, n - 1);
      var before := Winners(cs, n - 1);
      assert forall i :: 0 <= i < |before| ==> before[i] in before;
      var r := RankAt(cs, n - 1);
      assert IsWinner(cs, n, r) <==> Wins(cs, |cs|, n - 1);
      forall x ensures IsWinner(cs, n, x) <==> IsWinner(cs, n - 1, x) || (x == r && IsWinner(cs, n, r)) {
      }
    }
  }

  predicate IsWinner(cs: seq<Candidate>, n: nat, r: Ranked)
    requires n <= |cs|
  {
    r.sequence < n && r == RankAt(cs, r.sequence) && Wins(cs, |cs|, r.sequence)
  }

  /** Every key of the full map holds a survivor, and every survivor is held. */
  lemma UniqueHoldsTheWinners(cs: seq<Candidate>, unique: map<string, Ranked>, r: Ranked)
    requires IsUnique(cs, |cs|, unique)
    ensures Holds(unique, unique.Keys, r) <==> r in Winners(cs, |cs|)
  {
    WinnersAre(cs, |cs|);
    hide Winners, KeyAt, RankAt, BetterCandidate;
    if r in Winners(cs, |cs|) {
      assert IsWinner(cs, |cs|, r);
      var key := KeyAt(cs, r.sequence);
      assert HasKey(cs, |cs|, key);
      var u := unique[key];
      assert HoldsWinner(cs, |cs|, key, u);
      assert Beats(cs, u.sequence, r.sequence) && Beats(cs, r.sequence, u.sequence);
      BetterIsAStrictTotalOrder(r, u, r);
      assert u == r;
    }
    if Holds(unique, unique.Keys, r) {
      var key :| key in unique && unique[key] == r;
      assert HoldsWinner(cs, |cs|, key, r);
      assert IsWinner(cs, |cs|, r);
    }
  }

  lemma {:induction false} OfSourceKeeps(rs: seq<Ranked>, source: string)
    ensures forall x :: x in OfSource(rs, source) <==> x in rs && x.item.source == source
    ensures Distinct(rs) ==> Distinct(OfSource(rs, source))
  {
    if rs != [] {
      var before, last := rs[..|rs| - 1], rs[|rs| - 1];
      OfSourceKeeps(before, source);
      assert rs == before + [last];
      var kept := OfSource(before, source);
      assert OfSource(rs, source) == kept + (if last.item.source == source then [last] else []);
      hide OfSource;
      forall i | 0 <= i < |kept| && Distinct(rs) ensures kept[i].sequence != last.sequence {
        assert kept[i] in before;
        var k :| 0 <= k < |before| && before[k] == kept[i];
        assert rs[k] == kept[i];
      }
    }
  }

  function GroupIn(groups: map<string, seq<Ranked>>, source: string): seq<Ranked> {
    if source in groups then groups[source] else []
  }

  /** After some keys of the map, each group holds their candidates of its source, once each. */
  ghost predicate Collected(unique: map<string, Ranked>, done: set<string>, groups: map<string, seq<Ranked>>) {
    && (forall source :: Distinct(GroupIn(groups, source)))
    && (forall source, r :: r in GroupIn(groups, source) <==> r.item.source == source && Holds(unique, done, r))
  }

  /** The order in which the map is ranged over is lost in sorting. */
  lemma AnyOrderSortsTheSame(cs: seq<Candidate>, unique: map<string, Ranked>, groups: map<string, seq<Ranked>>, source: string)
    requires IsUnique(cs, |cs|, unique) && Collected(unique, unique.Keys, groups)
    ensures Sort(BetterCandidate, GroupIn(groups, source)) == Group(cs, source)
  {
    var mine, theirs := GroupIn(groups, source), OfSource(Winners(cs, |cs|), source);
    hide Winners, Sorted, IsUnique, Holds;
    WinnersAre(cs, |cs|);
    OfSourceKeeps(Winners(cs, |cs|), source);
    forall r ensures r in mine <==> r in theirs {
      UniqueHoldsTheWinners(cs, unique, r);
    }
    SortSorts(mine);
    SortSorts(theirs);
    SortedIsUnique(Sort(BetterCandidate, mine), Sort(BetterCandidate, theirs));
  }

  lemma CollectOne(unique: map<string, Ranked>, done: set<string>, groups: map<string, seq<Ranked>>, key: string)
    requires Collected(unique, done, groups) && key in unique && key !in done
    requires forall k, l :: k in unique && l in unique && unique[k].sequence == unique[l].sequence ==> k == l
    ensures var source := unique[key].item.source;
            Collected(unique, done + {key}, groups[source := GroupIn(groups, source) + [unique[key]]])
  {
    var r := unique[key];
    var source := r.item.source;
    var g := GroupIn(groups, source);
    var more := groups[source := g + [r]];
    forall s, x ensures x in GroupIn(more, s) <==> x.item.source == s && Holds(unique, done + {key}, x) {
      HoldsOneMore(unique, done, key, x);
      assert x in GroupIn(more, s) <==> x in GroupIn(groups, s) || (s == source && x == r);
    }
    hide Holds;
    forall i | 0 <= i < |g| ensures g[i].sequence != r.sequence {
      assert g[i] in g;
      NewSequence(unique, done, key, g[i]);
    }
    forall s ensures Distinct(GroupIn(more, s)) {
      assert Distinct(GroupIn(groups, s));
    }
  }

  lemma NewSequence(unique: map<string, Ranked>, done: set<string>, key: string, r: Ranked)
    requires forall k, l :: k in unique && l in unique && unique[k].sequence == unique[l].sequence ==> k == l
    requires key in unique && key !in done && Holds(unique, done, r)
    ensures r.sequence != unique[key].sequence
  {
  }

  lemma HoldsOneMore(unique: map<string, Ranked>, done: set<string>, key: string, r: Ranked)
    requires key in unique
    ensures Holds(unique, done + {key}, r) <==> Holds(unique, done, r) || r == unique[key]
  {
    if Holds(unique, done, r) {
      var k :| k in done && k in unique && unique[k] == r;
      assert k in done + {key};
    }
    assert key in done + {key};
  }

  ghost predicate Holds(unique: map<string, Ranked>, keys: set<string>, r: Ranked) {
    exists key :: key in keys && key in unique && unique[key] == r
  }

  lemma KeysHoldDistinct(cs: seq<Candidate>, unique: map<string, Ranked>)
    requires IsUnique(cs, |cs|, unique)
    ensures forall k, l :: k in unique && l in unique && unique[k].sequence == unique[l].sequence ==> k == l
  {
    forall k, l | k in unique && l in unique && unique[k].sequence == unique[l].sequence ensures k == l {
      assert HoldsWinner(cs, |cs|, k, unique[k]) && HoldsWinner(cs, |cs|, l, unique[l]);
    }
  }

  // ---- Aggregate --------------------------------------------------------------------------------------

  method Aggregate(cs: seq<Candidate>) returns (result: Aggregation)
    ensures result == Aggregated(cs)
  {
    hide Sort, Group, Winners, Wins, RankAt, KeyAt, Normalize, Clean, Distinct, IsUnique, Collected, GroupIn;
    hide AnonymousCount, SourceOrder, Flat, GroupsOf, BetterCandidate, AnonymousKey, Anonymous;
    var unique: map<string, Ranked> := map[];
    var sourceOrder: seq<string> := [];
    var nextAnonymous := 0;
    NothingYet(cs);
    for i := 0 to |cs|
      invariant IsUnique(cs, i, unique)
      invariant sourceOrder == SourceOrder(cs[..i])
      invariant nextAnonymous == AnonymousCount(cs[..i])
    {
      var item := Normalize(cs[i].item, cs[i].item.source);
      var key := item.id;
      if key == "" {
        nextAnonymous := nextAnonymous + 1;
        key := MakeAnonymousKey(nextAnonymous);
      }
      var ranked := Ranked(item, cs[i].latencyMS, i);
      OneCandidate(cs, i);
      ghost var before := unique;
      if key !in unique || BetterCandidate(ranked, unique[key]) {
        unique := unique[key := ranked];
      }
      UniqueGrows(cs, i, before, key, ranked);
      if item.source !in sourceOrder {
        sourceOrder := sourceOrder + [item.source];
      }
    }
    assert cs[..|cs|] == cs;

    KeysHoldDistinct(cs, unique);
    var rankedGroups: map<string, seq<Ranked>> := map[];
    var todo := unique.Keys;
    NothingCollected(unique);
    while todo != {}
      invariant todo <= unique.Keys
      invariant Collected(unique, unique.Keys - todo, rankedGroups)
      decreases |todo|
    {
      var key :| key in todo;
      var candidate := unique[key];
      CollectOne(unique, unique.Keys - todo, rankedGroups, key);
      assert unique.Keys - todo + {key} == unique.Keys - (todo - {key});
      rankedGroups := rankedGroups[candidate.item.source := GroupIn(rankedGroups, candidate.item.source) + [candidate]];
      todo := todo - {key};
    }
    assert unique.Keys - {} == unique.Keys;

    var items: seq<Item> := [];
    var groups: map<string, seq<Item>> := map[];
    NoGroups(cs);
    assert sourceOrder[..0] == [];
    for i := 0 to |sourceOrder|
      invariant items == ItemsOf(Flat(cs, sourceOrder[..i]))
      invariant groups == GroupsOf(cs, sourceOrder[..i])
    {
      var source := sourceOrder[i];
      AnyOrderSortsTheSame(cs, unique, rankedGroups, source);
      var group := Sort(BetterCandidate, GroupIn(rankedGroups, source));
      FlatGrows(cs, sourceOrder, i);
      items := items + ItemsOf(group);
      groups := groups[source := ItemsOf(group)];
    }
    assert sourceOrder[..|sourceOrder|] == sourceOrder;
    result := Aggregation(items, groups);
  }

  lemma NothingYet(cs: seq<Candidate>)
    ensures IsUnique(cs, 0, map[])
    ensures SourceOrder(cs[..0]) == [] && AnonymousCount(cs[..0]) == 0
  {
  }

  lemma NoGroups(cs: seq<Candidate>)
    ensures ItemsOf(Flat(cs, [])) == [] && GroupsOf(cs, []) == map[]
  {
  }

  lemma NothingCollected(unique: map<string, Ranked>)
    ensures Collected(unique, {}, map[])
    ensures unique.Keys - unique.Keys == {}
  {
  }

  lemma OneCandidate(cs: seq<Candidate>, i: nat)
    requires i < |cs|
    ensures var item, n, order := Normalize(cs[i].item, cs[i].item.source), AnonymousCount(cs[..i]), SourceOrder(cs[..i]);
            && RankAt(cs, i) == Ranked(item, cs[i].latencyMS, i)
            && KeyAt(cs, i) == (if item.id == "" then AnonymousKey(n + 1) else item.id)
            && AnonymousCount(cs[..i + 1]) == n + (if item.id == "" then 1 else 0)
            && SourceOrder(cs[..i + 1]) == if item.source in order then order else order + [item.source]
  {
    hide AnonymousKey;
    assert cs[..i + 1][..i] == cs[..i];
    NormalizeKeepsSource(cs[i].item);
    hide Normalize;
  }

  lemma NormalizeKeepsSource(item: Item)
    ensures Clean(item).source == item.source
  {
  }

  lemma FlatGrows(cs: seq<Candidate>, sources: seq<string>, i: nat)
    requires i < |sources|
    ensures var before, now := sources[..i], sources[..i + 1];
            && Flat(cs, now) == Flat(cs, before) + Group(cs, sources[i])
            && ItemsOf(Flat(cs, now)) == ItemsOf(Flat(cs, before)) + ItemsOf(Group(cs, sources[i]))
            && GroupsOf(cs, now) == GroupsOf(cs, before)[sources[i] := ItemsOf(Group(cs, sources[i]))]
  {
    hide Group;
    assert sources[..i + 1][..i] == sources[..i];
    assert forall s :: s in sources[..i + 1] <==> s in sources[..i] || s == sources[i];
    ItemsOfAdds(Flat(cs, sources[..i]), Group(cs, sources[i]));
  }

  lemma ItemsOfAdds(a: seq<Ranked>, b: seq<Ranked>)
    ensures ItemsOf(a + b) == ItemsOf(a) + ItemsOf(b)
  {
  }

  // ---- Shape of the result ---------------------------------------------------------------------------

  function Push(order: seq<string>, source: string): seq<string> {
    if source in order then order else order + [source]
  }

  ghost predicate SeenBefore(cs: seq<Candidate>, n: nat, source: string)
    requires n <= |cs|
  {
    exists i :: 0 <= i < n && cs[i].item.source == source
  }

  /** Every source once, and an earlier one was seen before any candidate of a later one. */
  lemma {:induction false} SourceOrderIsFirstSeen(cs: seq<Candidate>)
    ensures NoRepeats(SourceOrder(cs))
    ensures forall source :: source in SourceOrder(cs) <==> SeenBefore(cs, |cs|, source)
    ensures FirstSeenFirst(cs, SourceOrder(cs))
  {
    if cs != [] {
      var n := |cs| - 1;
      var before := SourceOrder(cs[..n]);
      SourceOrderIsFirstSeen(cs[..n]);
      SeenInPrefix(cs, n);
      hide SeenBefore;
      forall source ensures SeenBefore(cs, |cs|, source) <==> SeenBefore(cs, n, source) || source == cs[n].item.source {
        SeenOneMore(cs, n, source);
      }
      assert SourceOrder(cs) == Push(before, cs[n].item.source);
      hide SourceOrder;
      forall a, b, j | 0 <= a < b < |SourceOrder(cs)| && 0 <= j < |cs| && cs[j].item.source == SourceOrder(cs)[b]
        ensures SeenBefore(cs, j, SourceOrder(cs)[a])
      {
        if b < |before| {
          if j < n {
            assert cs[..n][j] == cs[j];
            assert SeenBefore(cs[..n], j, before[a]);
          } else {
            assert before[a] in before;
          }
        } else {
          assert before[a] in before;
          SeenAt(cs, n, j);
          assert j == n;
        }
      }
    }
  }

  ghost predicate FirstSeenFirst(cs: seq<Candidate>, order: seq<string>) {
    forall a, b, j :: 0 <= a < b < |order| && 0 <= j < |cs| && cs[j].item.source == order[b] ==> SeenBefore(cs, j, order[a])
  }

  lemma SeenAt(cs: seq<Candidate>, n: nat, j: nat)
    requires n <= |cs| && j < |cs|
    ensures j < n ==> SeenBefore(cs, n, cs[j].item.source)
  {
  }

  lemma SeenOneMore(cs: seq<Candidate>, n: nat, source: string)
    requires n < |cs|
    ensures SeenBefore(cs, n + 1, source) <==> SeenBefore(cs, n, source) || source == cs[n].item.source
  {
  }

  lemma SeenInPrefix(cs: seq<Candidate>, n: nat)
    requires n <= |cs|
    ensures forall j, source :: 0 <= j <= n ==> (SeenBefore(cs[..n], j, source) <==> SeenBefore(cs, j, source))
  {
    forall j, source | 0 <= j <= n ensures SeenBefore(cs[..n], j, source) <==> SeenBefore(cs, j, source) {
      assert forall i :: 0 <= i < j ==> cs[..n][i] == cs[i];
    }
  }

  /** Better candidates come first within a source. */
  predicate SortedBySource(rs: seq<Ranked>) {
    forall i, j :: 0 <= i < j < |rs| && rs[i].item.source == rs[j].item.source ==> BetterCandidate(rs[i], rs[j])
  }

  /** The candidates of a source stand together. */
  predicate Contiguous(rs: seq<Ranked>) {
    forall i, j, k :: 0 <= i < j < k < |rs| && rs[i].item.source == rs[k].item.source ==> rs[j].item.source == rs[i].item.source
  }

  lemma GroupFacts(cs: seq<Candidate>, source: string)
    ensures forall r :: r in Group(cs, source) <==> IsWinner(cs, |cs|, r) && r.item.source == source
    ensures Sorted(Group(cs, source))
  {
    var ws := Winners(cs, |cs|);
    hide Winners, IsWinner, Sort, BetterCandidate;
    WinnersAre(cs, |cs|);
    OfSourceKeeps(ws, source);
    SortSorts(OfSource(ws, source));
  }

  lemma {:induction false} FlatFacts(cs: seq<Candidate>, sources: seq<string>)
    requires NoRepeats(sources)
    ensures forall r :: r in Flat(cs, sources) <==> IsWinner(cs, |cs|, r) && r.item.source in sources
    ensures SortedBySource(Flat(cs, sources)) && Contiguous(Flat(cs, sources))
    ensures Distinct(Flat(cs, sources))
  {
    hide Group, IsWinner, BetterCandidate;
    if sources != [] {
      var init, s := sources[..|sources| - 1], sources[|sources| - 1];
      FlatFacts(cs, init);
      GroupFacts(cs, s);
      var f, g := Flat(cs, init), Group(cs, s);
      assert sources == init + [s] && s !in init;
      FlatStep(f, g, init, s);
      WinnersAreDistinct(cs, f + g);
    }
  }

  lemma FlatStep(f: seq<Ranked>, g: seq<Ranked>, init: seq<string>, s: string)
    requires SortedBySource(f) && Contiguous(f) && Sorted(g) && s !in init
    requires forall r :: r in f ==> r.item.source in init
    requires forall r :: r in g ==> r.item.source == s
    ensures SortedBySource(f + g) && Contiguous(f + g)
  {
    hide BetterCandidate;
    var h := f + g;
    assert forall i :: 0 <= i < |f| ==> h[i] == f[i] && f[i] in f && h[i].item.source != s;
    assert forall i :: |f| <= i < |h| ==> h[i] == g[i - |f|] && g[i - |f|] in g && h[i].item.source == s;
  }

  lemma WinnersAreDistinct(cs: seq<Candidate>, rs: seq<Ranked>)
    requires forall r :: r in rs ==> IsWinner(cs, |cs|, r)
    requires SortedBySource(rs)
    ensures Distinct(rs)
  {
    hide Wins, RankAt;
    forall i, j | 0 <= i < j < |rs| ensures rs[i].sequence != rs[j].sequence {
      assert IsWinner(cs, |cs|, rs[i]) && IsWinner(cs, |cs|, rs[j]);
      BetterIsAStrictTotalOrder(rs[i], rs[j], rs[i]);
    }
  }

  /** Aggregation keeps exactly the winners, groups of a source together and best first. */
  lemma SurvivorsAreTheWinners(cs: seq<Candidate>)
    ensures forall r :: r in Survivors(cs) <==> IsWinner(cs, |cs|, r)
    ensures SortedBySource(Survivors(cs)) && Contiguous(Survivors(cs)) && Distinct(Survivors(cs))
  {
    hide IsWinner, Flat, BetterCandidate;
    SourceOrderIsFirstSeen(cs);
    FlatFacts(cs, SourceOrder(cs));
    forall r | IsWinner(cs, |cs|, r) ensures r.item.source in SourceOrder(cs) {
      WinnerHasSource(cs, r);
    }
  }

  lemma WinnerHasSource(cs: seq<Candidate>, r: Ranked)
    requires IsWinner(cs, |cs|, r)
    ensures SeenBefore(cs, |cs|, r.item.source)
  {
    NormalizeKeepsSource(cs[r.sequence].item);
    hide Wins, Normalize;
    assert cs[r.sequence].item.source == r.item.source;
  }

  // ---- What is kept, and in what order ----------------------------------------------------------

  predicate TellsTrace(item: Item, text: string) {
    item.metadata.Some? && "trace_id" in item.metadata.value && item.metadata.value["trace_id"] == TextValue(text)
  }

  /** The fields of a kept item are those of a candidate, trimmed and filled in. */
  lemma KeptItems(cs: seq<Candidate>, k: nat)
    requires k < |Survivors(cs)|
    ensures var r := Survivors(cs)[k];
            && r.sequence < |cs|
            && Aggregated(cs).items[k] == r.item
            && var was := cs[r.sequence].item;
               && r.latencyMS == cs[r.sequence].latencyMS
               && r.item.source == was.source && r.item.score == was.score
               && r.item.timeRange == was.timeRange && r.item.confidence == was.confidence
               && r.item.id == TrimSpace(was.id) && r.item.content == TrimSpace(was.content)
               && r.item.sourceName == TrimSpace(was.sourceName) && r.item.resourceID == TrimSpace(was.resourceID)
               && r.item.kind == (if TrimSpace(was.kind) != "" then TrimSpace(was.kind) else DefaultType(was.source))
               && (TrimSpace(was.traceID) != "" ==> r.item.traceID == TrimSpace(was.traceID))
               && (forall text :: TrimSpace(was.traceID) == "" && TellsTrace(was, text) ==> r.item.traceID == TrimSpace(text))
               && r.item.metadata.Some? && (was.metadata.Some? ==> r.item.metadata == was.metadata)
  {
    SurvivorsAreTheWinners(cs);
    var r := Survivors(cs)[k];
    assert r in Survivors(cs);
    hide Survivors, Wins, TrimSpace;
    assert IsWinner(cs, |cs|, r);
    DefaultTypeIsTrimmed(r.item.source);
  }

  /** Of candidates of one ID the one with the best score is kept, then the fastest, then the first. */
  lemma KeptIsTheBestOfItsId(cs: seq<Candidate>, k: nat, j: nat)
    requires k < |Survivors(cs)| && j < |cs|
    requires Aggregated(cs).items[k].id == TrimSpace(cs[j].item.id) != ""
    ensures var r, other := Survivors(cs)[k], cs[j];
            && (other.item.score.Some? ==> r.item.score.Some? && r.item.score.value >= other.item.score.value)
            && (other.item.score == r.item.score ==> r.latencyMS <= other.latencyMS)
            && (other.item.score == r.item.score && other.latencyMS == r.latencyMS ==> r.sequence <= j)
  {
    KeptItems(cs, k);
    SurvivorsAreTheWinners(cs);
    var r := Survivors(cs)[k];
    assert r in Survivors(cs);
    hide Survivors, Aggregated;
    assert IsWinner(cs, |cs|, r);
    assert Beats(cs, r.sequence, j);
    hide TrimSpace, DefaultType, Wins;
    assert KeyAt(cs, r.sequence) == r.item.id == KeyAt(cs, j);
  }

  /** Within a source: scored items first, by descending score, ascending latency and arrival. */
  lemma ItemsOfASourceAreRanked(cs: seq<Candidate>, k: nat, l: nat)
    requires k < l < |Survivors(cs)| && Survivors(cs)[k].item.source == Survivors(cs)[l].item.source
    ensures var a, b := Survivors(cs)[k], Survivors(cs)[l];
            && (b.item.score.Some? ==> a.item.score.Some? && a.item.score.value >= b.item.score.value)
            && (a.item.score == b.item.score ==> a.latencyMS <= b.latencyMS)
            && (a.item.score == b.item.score && a.latencyMS == b.latencyMS ==> a.sequence < b.sequence)
  {
    SurvivorsAreTheWinners(cs);
    hide Survivors;
    assert BetterCandidate(Survivors(cs)[k], Survivors(cs)[l]);
  }

  /** Of two sources the one first offered stands first. */
  lemma SourcesStandAsTheyCame(cs: seq<Candidate>, k: nat, l: nat, j: nat)
    requires k < l < |Survivors(cs)| && j < |cs|
    requires Survivors(cs)[k].item.source != Survivors(cs)[l].item.source == cs[j].item.source
    ensures SeenBefore(cs, j, Survivors(cs)[k].item.source)
  {
    SourceOrderIsFirstSeen(cs);
    hide Flat, SourceOrder, SeenBefore, FirstSeenFirst, NoRepeats;
    var order := SourceOrder(cs);
    var a, b := FlatPlaces(cs, order, k, l);
    hide Survivors;
    assert a < b;
    FirstSeenBefore(cs, order, a, b, j);
  }

  lemma FirstSeenBefore(cs: seq<Candidate>, order: seq<string>, a: nat, b: nat, j: nat)
    requires FirstSeenFirst(cs, order) && a < b < |order| && j < |cs| && cs[j].item.source == order[b]
    ensures SeenBefore(cs, j, order[a])
  {
    hide SeenBefore;
  }

  lemma {:induction false} FlatPlaces(cs: seq<Candidate>, sources: seq<string>, k: nat, l: nat) returns (a: nat, b: nat)
    requires NoRepeats(sources) && k < l < |Flat(cs, sources)|
    ensures a <= b < |sources|
    ensures Flat(cs, sources)[k].item.source == sources[a] && Flat(cs, sources)[l].item.source == sources[b]
  {
    FlatSplit(cs, sources);
    hide Flat, Group;
    var n := |sources| - 1;
    var init := sources[..n];
    var before, group := Flat(cs, init), Group(cs, sources[n]);
    assert NoRepeats(init);
    hide NoRepeats;
    if l < |before| {
      a, b := FlatPlaces(cs, init, k, l);
    } else {
      b := n;
      SourceInGroup(cs, sources[n], l - |before|);
      if k < |before| {
        a := SourceInFlat(cs, init, k);
      } else {
        SourceInGroup(cs, sources[n], k - |before|);
        a := n;
      }
    }
  }

  lemma FlatSplit(cs: seq<Candidate>, sources: seq<string>)
    ensures Flat(cs, sources) != [] ==> sources != []
    ensures sources != [] ==> var n := |sources| - 1;
            Flat(cs, sources) == Flat(cs, sources[..n]) + Group(cs, sources[n])
  {
    hide Group;
  }

  lemma SourceInGroup(cs: seq<Candidate>, source: string, i: nat)
    requires i < |Group(cs, source)|
    ensures Group(cs, source)[i].item.source == source
  {
    GroupFacts(cs, source);
    hide Group, IsWinner, Sorted;
    assert Group(cs, source)[i] in Group(cs, source);
  }

  lemma SourceInFlat(cs: seq<Candidate>, sources: seq<string>, i: nat) returns (a: nat)
    requires NoRepeats(sources) && i < |Flat(cs, sources)|
    ensures a < |sources| && Flat(cs, sources)[i].item.source == sources[a]
  {
    FlatFacts(cs, sources);
    hide Flat, IsWinner, SortedBySource, Contiguous, Distinct;
    var r := Flat(cs, sources)[i];
    assert r in Flat(cs, sources);
    a :| 0 <= a < |sources| && sources[a] == r.item.source;
  }

  function ItemsOfSource(items: seq<Item>, source: string): seq<Item> {
    if items == [] then []
    else
      var last := items[|items| - 1];
      ItemsOfSource(items[..|items| - 1], source) + (if last.source == source then [last] else [])
  }

  /** The groups are the items by source, one group for every source that was offered. */
  lemma GroupsAreTheItemsBySource(cs: seq<Candidate>, source: string)
    ensures source in Aggregated(cs).groups <==> SeenBefore(cs, |cs|, source)
    ensures source in Aggregated(cs).groups ==>
              Aggregated(cs).groups[source] == ItemsOfSource(Aggregated(cs).items, source)
  {
    SourceOrderIsFirstSeen(cs);
    hide SeenBefore, Group, SourceOrder, Flat;
    FlatBySource(cs, SourceOrder(cs), source);
  }

  lemma {:induction false} FlatBySource(cs: seq<Candidate>, sources: seq<string>, source: string)
    requires NoRepeats(sources)
    ensures ItemsOfSource(ItemsOf(Flat(cs, sources)), source) == if source in sources then ItemsOf(Group(cs, source)) else []
  {
    hide Group, IsWinner, BetterCandidate;
    if sources != [] {
      var n := |sources| - 1;
      assert sources == sources[..n] + [sources[n]];
      FlatBySource(cs, sources[..n], source);
      GroupFacts(cs, sources[n]);
      var before, group := ItemsOf(Flat(cs, sources[..n])), ItemsOf(Group(cs, sources[n]));
      forall i | 0 <= i < |group| ensures group[i].source == sources[n] {
        assert Group(cs, sources[n])[i] in Group(cs, sources[n]);
      }
      ItemsOfAdds(Flat(cs, sources[..n]), Group(cs, sources[n]));
      ItemsOfOneSource(before, group, sources[n], source);
    }
  }

  lemma {:induction false} ItemsOfOneSource(items: seq<Item>, group: seq<Item>, from: string, source: string)
    requires forall i :: 0 <= i < |group| ==> group[i].source == from
    ensures ItemsOfSource(items + group, source) == ItemsOfSource(items, source) + (if from == source then group else [])
  {
    hide ItemsOfSource;
    if group == [] {
      assert items + group == items;
    } else {
      var init, last := group[..|group| - 1], group[|group| - 1];
      ItemsOfOneSource(items, init, from, source);
      OneMoreItem(items + init, last, source);
      assert items + group == items + init + [last];
      assert group == init + [last];
    }
  }

  lemma OneMoreItem(items: seq<Item>, last: Item, source: string)
    ensures ItemsOfSource(items + [last], source) == ItemsOfSource(items, source) + (if last.source == source then [last] else [])
  {
    assert (items + [last])[..|items|] == items;
  }

  // ---- Counting ----------------------------------------------------------------------------------------

  function GroupCounts(a: Aggregation): map<string, nat> {
    map source | source in a.groups :: |a.groups[source]|
  }

  method CountGroups(a: Aggregation) returns (result: map<string, nat>)
    ensures result == GroupCounts(a)
  {
    result := map[];
    var todo := a.groups.Keys;
    while todo != {}
      invariant todo <= a.groups.Keys
      invariant result.Keys == a.groups.Keys - todo
      invariant forall source :: source in result ==> result[source] == |a.groups[source]|
      decreases |todo|
    {
      var source :| source in todo;
      result := result[source := |a.groups[source]|];
      todo := todo - {source};
    }
  }

  lemma {:induction false} CountsOfPrefix(cs: seq<Candidate>, sources: seq<string>)
    requires NoRepeats(sources)
    ensures Budget.SumCounts(CountsOf(cs, sources)) == |Flat(cs, sources)|
  {
    hide Group, Budget.SumCounts;
    if sources == [] {
      NothingCounted(cs);
    } else {
      var init, s := sources[..|sources| - 1], sources[|sources| - 1];
      CountsOfPrefix(cs, init);
      assert sources == init + [s] && s !in init;
      Budget.SumCountsSplit(CountsOf(cs, sources), s);
      assert CountsOf(cs, sources) - {s} == CountsOf(cs, init);
    }
  }

  lemma NothingCounted(cs: seq<Candidate>)
    ensures Budget.SumCounts(CountsOf(cs, [])) == 0
  {
    assert CountsOf(cs, []) == map[];
  }

  function CountsOf(cs: seq<Candidate>, sources: seq<string>): map<string, nat> {
    map source | source in sources :: |Group(cs, source)|
  }

  /** The group counts add up to the number of items. */
  lemma GroupCountsAddUp(cs: seq<Candidate>)
    ensures Budget.SumCounts(GroupCounts(Aggregated(cs))) == |Aggregated(cs).items|
  {
    hide Budget.SumCounts, Group, SourceOrder, Flat;
    SourceOrderIsFirstSeen(cs);
    CountsOfPrefix(cs, SourceOrder(cs));
    assert GroupCounts(Aggregated(cs)) == CountsOf(cs, SourceOrder(cs));
  }

  // ---- Which evidence is kept ------------------------------------------------------------------------------

  /** No candidate without an ID competes under the ID of another one. */
  predicate NoCollision(cs: seq<Candidate>) {
    forall i, j :: 0 <= i < |cs| && 0 <= j < |cs| && Anonymous(cs[i]) && !Anonymous(cs[j]) ==> KeyAt(cs, i) != KeyAt(cs, j)
  }

  /**
   What makes one candidate better than another, by their fields: a score before none, the
   higher score, among equal scores the lower latency, and among equal latencies coming first.
   */
  predicate Outranks(cs: seq<Candidate>, i: nat, j: nat)
    requires i < |cs| && j < |cs|
  {
    var a, b := cs[i], cs[j];
    || (a.item.score.Some? && b.item.score.None?)
    || (a.item.score.Some? && b.item.score.Some? && a.item.score.value > b.item.score.value)
    || (a.item.score == b.item.score && (a.latencyMS < b.latencyMS || (a.latencyMS == b.latencyMS && i < j)))
  }

  lemma BetterIffOutranks(cs: seq<Candidate>, i: nat, j: nat)
    requires i < |cs| && j < |cs|
    ensures BetterCandidate(RankAt(cs, i), RankAt(cs, j)) <==> Outranks(cs, i, j)
  {
    hide TrimSpace, DefaultType;
  }

  predicate BeatsItsId(cs: seq<Candidate>, i: nat, j: nat)
    requires i < |cs| && j < |cs|
  {
    i != j && TrimSpace(cs[i].item.id) == TrimSpace(cs[j].item.id) ==> Outranks(cs, i, j)
  }

  lemma BeatsItsIdIff(cs: seq<Candidate>, i: nat, j: nat)
    requires i < |cs| && j < |cs|
    ensures BeatsItsId(cs, i, j)
       <==> (i != j && Clean(cs[i].item).id == Clean(cs[j].item).id ==> BetterCandidate(RankAt(cs, i), RankAt(cs, j)))
  {
    BetterIffOutranks(cs, i, j);
    hide TrimSpace, DefaultType, Outranks, BetterCandidate;
  }

  /** A candidate with an ID that no other one with this ID is better than. */
  predicate BestOfItsId(cs: seq<Candidate>, n: nat, i: nat)
    requires i < n <= |cs|
  {
    TrimSpace(cs[i].item.id) != "" && forall j :: 0 <= j < n ==> BeatsItsId(cs, i, j)
  }

  /** The best candidate of every ID and every candidate without one, and nothing else. */
  ghost predicate KeepsTheRightOnes(cs: seq<Candidate>) {
    forall i :: 0 <= i < |cs| ==> (RankAt(cs, i) in Survivors(cs) <==> TrimSpace(cs[i].item.id) == "" || BestOfItsId(cs, |cs|, i))
  }

  lemma {:induction false} AnonymousCountGrows(cs: seq<Candidate>, i: nat, j: nat)
    requires i <= j <= |cs|
    ensures AnonymousCount(cs[..i]) <= AnonymousCount(cs[..j])
    decreases j
  {
    hide Anonymous;
    if i < j {
      AnonymousCountGrows(cs, i, j - 1);
      assert cs[..j][..j - 1] == cs[..j - 1];
    }
  }

  lemma AnonymousKeysAreTheirOwn(cs: seq<Candidate>, i: nat, j: nat)
    requires i < j < |cs| && Anonymous(cs[i]) && Anonymous(cs[j])
    ensures KeyAt(cs, i) != KeyAt(cs, j)
  {
    AnonymousCountGrows(cs, i + 1, j);
    hide AnonymousKey, Anonymous;
    assert cs[..j + 1][..j] == cs[..j];
    AnonymousKeysDiffer(AnonymousCount(cs[..i + 1]), AnonymousCount(cs[..j + 1]));
  }

  lemma OutranksIsATotalOrder(cs: seq<Candidate>, i: nat, j: nat, k: nat)
    requires i < |cs| && j < |cs| && k < |cs|
    ensures i != j ==> (Outranks(cs, i, j) <==> !Outranks(cs, j, i))
    ensures Outranks(cs, i, j) && Outranks(cs, j, k) ==> Outranks(cs, i, k)
  {
  }

  lemma {:induction false} BestExists(cs: seq<Candidate>, n: nat, id: string) returns (b: nat)
    requires n <= |cs| && id != "" && exists j :: 0 <= j < n && TrimSpace(cs[j].item.id) == id
    ensures b < n && TrimSpace(cs[b].item.id) == id && BestOfItsId(cs, n, b)
  {
    hide TrimSpace, Outranks;
    var last := n - 1;
    if exists j :: 0 <= j < last && TrimSpace(cs[j].item.id) == id {
      var c := BestExists(cs, last, id);
      OutranksIsATotalOrder(cs, c, last, c);
      if TrimSpace(cs[last].item.id) == id && Outranks(cs, last, c) {
        forall j | 0 <= j < last ensures BeatsItsId(cs, last, j) {
          assert BeatsItsId(cs, c, j);
          OutranksIsATotalOrder(cs, last, c, j);
        }
        b := last;
      } else {
        assert BeatsItsId(cs, c, last);
        b := c;
      }
    } else {
      b := last;
    }
  }

  lemma SurvivesIffWins(cs: seq<Candidate>, i: nat)
    requires i < |cs|
    ensures RankAt(cs, i) in Survivors(cs) <==> Wins(cs, |cs|, i)
  {
    SurvivorsAreTheWinners(cs);
    hide Survivors, Wins;
    assert IsWinner(cs, |cs|, RankAt(cs, i)) <==> Wins(cs, |cs|, i);
  }

  lemma NoCollisionKeeps(cs: seq<Candidate>, i: nat)
    requires NoCollision(cs) && i < |cs|
    ensures Wins(cs, |cs|, i) <==> Anonymous(cs[i]) || BestOfItsId(cs, |cs|, i)
  {
    hide AnonymousKey, RankAt, BetterCandidate, BeatsItsId, TrimSpace, DefaultType;
    if Anonymous(cs[i]) {
      forall j | 0 <= j < |cs| ensures Beats(cs, i, j) {
        if Anonymous(cs[j]) && i != j {
          AnonymousKeysAreTheirOwn(cs, if i < j then i else j, if i < j then j else i);
        }
      }
    } else {
      forall j | 0 <= j < |cs| ensures Beats(cs, i, j) <==> BeatsItsId(cs, i, j) {
        BeatsItsIdIff(cs, i, j);
      }
    }
  }

  /** The exact condition for losing nothing: an ID such as "#1" can displace evidence that has none. */
  lemma KeepsTheRightOnesIffNoCollision(cs: seq<Candidate>)
    ensures KeepsTheRightOnes(cs) <==> NoCollision(cs)
  {
    forall i | 0 <= i < |cs| ensures Anonymous(cs[i]) <==> TrimSpace(cs[i].item.id) == "" {
      IdOf(cs[i]);
    }
    hide Survivors, Wins, KeyAt, BestOfItsId, Clean, RankAt, BetterCandidate, TrimSpace, Anonymous;
    forall i | 0 <= i < |cs| ensures RankAt(cs, i) in Survivors(cs) <==> Wins(cs, |cs|, i) {
      SurvivesIffWins(cs, i);
    }
    if NoCollision(cs) {
      forall i | 0 <= i < |cs| ensures Wins(cs, |cs|, i) <==> Anonymous(cs[i]) || BestOfItsId(cs, |cs|, i) {
        NoCollisionKeeps(cs, i);
      }
    } else {
      var i, j :| 0 <= i < |cs| && 0 <= j < |cs| && Anonymous(cs[i]) && !Anonymous(cs[j]) && KeyAt(cs, i) == KeyAt(cs, j);
      var b := BestExists(cs, |cs|, TrimSpace(cs[j].item.id));
      IdOf(cs[j]);
      IdOf(cs[b]);
      KeyOfNamed(cs, j);
      KeyOfNamed(cs, b);
      OnlyOneWins(cs, i, b);
    }
  }

  /** Evidence without an ID and evidence called "#1": one of the two is lost. */
  lemma HashOneCollides(a: Item, b: Item)
    requires TrimSpace(a.id) == "" && TrimSpace(b.id) == "#1"
    ensures !KeepsTheRightOnes([Candidate(a, 0), Candidate(b, 0)])
  {
    var cs := [Candidate(a, 0), Candidate(b, 0)];
    hide TrimSpace, KeepsTheRightOnes;
    KeepsTheRightOnesIffNoCollision(cs);
    assert cs[..1][..0] == [] && AnonymousCount(cs[..1]) == 1;
    assert Decimal(1) == "1";
    assert KeyAt(cs, 0) == KeyAt(cs, 1);
  }

  lemma IdOf(c: Candidate)
    ensures Clean(c.item).id == TrimSpace(c.item.id)
    ensures Anonymous(c) <==> TrimSpace(c.item.id) == ""
  {
    hide TrimSpace, DefaultType;
  }

  lemma KeyOfNamed(cs: seq<Candidate>, i: nat)
    requires i < |cs|
    ensures !Anonymous(cs[i]) ==> KeyAt(cs, i) == Clean(cs[i].item).id
    ensures Anonymous(cs[i]) <==> Clean(cs[i].item).id == ""
  {
  }

  lemma OnlyOneWins(cs: seq<Candidate>, i: nat, j: nat)
    requires i < |cs| && j < |cs| && i != j && KeyAt(cs, i) == KeyAt(cs, j)
    ensures !(Wins(cs, |cs|, i) && Wins(cs, |cs|, j))
  {
    hide KeyAt, BetterCandidate;
    if Wins(cs, |cs|, i) {
      assert Beats(cs, i, j);
      BetterIsAStrictTotalOrder(RankAt(cs, i), RankAt(cs, j), RankAt(cs, i));
      assert !Beats(cs, j, i);
    }
  }

  // ---- Aggregating again --------------------------------------------------------------------------------------

  /** The output offered as candidates once more, with its latencies. */
  function Again(rs: seq<Ranked>): (cs: seq<Candidate>)
    ensures |cs| == |rs| && forall i :: 0 <= i < |rs| ==> cs[i] == Candidate(rs[i].item, rs[i].latencyMS)
  {
    seq(|rs|, i requires 0 <= i < |rs| => Candidate(rs[i].item, rs[i].latencyMS))
  }

  function Ranks(cs: seq<Candidate>, n: nat): (rs: seq<Ranked>)
    requires n <= |cs|
    ensures |rs| == n && forall i :: 0 <= i < n ==> rs[i] == RankAt(cs, i)
  {
    seq(n, i requires 0 <= i < n => RankAt(cs, i))
  }

  lemma {:induction false} EveryoneWins(cs: seq<Candidate>, n: nat)
    requires n <= |cs| && forall i :: 0 <= i < |cs| ==> Wins(cs, |cs|, i)
    ensures Winners(cs, n) == Ranks(cs, n)
  {
    hide Wins, RankAt;
    if n > 0 {
      EveryoneWins(cs, n - 1);
    }
  }

  /** The parts of rs from these sources, one after the other. */
  function Parts(rs: seq<Ranked>, sources: seq<string>): seq<Ranked> {
    if sources == [] then []
    else Parts(rs, sources[..|sources| - 1]) + OfSource(rs, sources[|sources| - 1])
  }

  lemma {:induction false} PartsOfOthers(rs: seq<Ranked>, r: Ranked, sources: seq<string>)
    requires r.item.source !in sources
    ensures Parts(rs + [r], sources) == Parts(rs, sources)
  {
    if sources != [] {
      PartsOfOthers(rs, r, sources[..|sources| - 1]);
      assert (rs + [r])[..|rs|] == rs;
    }
  }

  lemma PartsStep(rs: seq<Ranked>, r: Ranked, init: seq<string>)
    requires r.item.source !in init
    ensures Parts(rs + [r], init + [r.item.source]) == Parts(rs, init + [r.item.source]) + [r]
  {
    var s := r.item.source;
    assert (init + [s])[..|init|] == init;
    PartsOfOthers(rs, r, init);
    assert (rs + [r])[..|rs|] == rs;
    assert OfSource(rs + [r], s) == OfSource(rs, s) + [r];
  }

  lemma {:induction false} NothingOfSource(rs: seq<Ranked>, s: string)
    requires forall i :: 0 <= i < |rs| ==> rs[i].item.source != s
    ensures OfSource(rs, s) == []
  {
    if rs != [] {
      NothingOfSource(rs[..|rs| - 1], s);
    }
  }

  /** Candidates that already stand together by source are left where they are. */
  lemma {:induction false} PartsOfContiguous(cs: seq<Candidate>, n: nat)
    requires n <= |cs| && Contiguous(Ranks(cs, n))
    ensures Parts(Ranks(cs, n), SourceOrder(cs[..n])) == Ranks(cs, n)
    ensures n > 0 ==> SourceOrder(cs[..n]) != [] && Last(SourceOrder(cs[..n])) == RankAt(cs, n - 1).item.source
  {
    if n > 0 {
      var before, r := Ranks(cs, n - 1), RankAt(cs, n - 1);
      var order := SourceOrder(cs[..n - 1]);
      assert Ranks(cs, n) == before + [r];
      OneRank(cs, n - 1);
      hide RankAt, SourceOrder, Parts, Ranks, Contiguous;
      ContiguousPrefix(before, r);
      PartsOfContiguous(cs, n - 1);
      OnePart(before, r, order);
    }
  }

  function Last(sources: seq<string>): string
    requires sources != []
  {
    sources[|sources| - 1]
  }

  lemma OneRank(cs: seq<Candidate>, n: nat)
    requires n < |cs|
    ensures var order, rs := SourceOrder(cs[..n]), Ranks(cs, n);
            && SourceOrder(cs[..n + 1]) == Push(order, RankAt(cs, n).item.source)
            && NoRepeats(order)
            && (forall source :: source in order <==> HasSource(rs, source))
            && (n > 0 ==> rs[n - 1] == RankAt(cs, n - 1))
  {
    OneCandidate(cs, n);
    NormalizeKeepsSource(cs[n].item);
    SourceOrderIsFirstSeen(cs[..n]);
    forall source ensures source in SourceOrder(cs[..n]) <==> HasSource(Ranks(cs, n), source) {
      RanksHaveSources(cs, n, source);
    }
    hide SourceOrder, Normalize, HasSource, SeenBefore;
  }

  lemma OnePart(rs: seq<Ranked>, r: Ranked, order: seq<string>)
    requires Contiguous(rs + [r]) && NoRepeats(order) && Parts(rs, order) == rs
    requires forall source :: source in order <==> HasSource(rs, source)
    requires rs != [] ==> order != [] && Last(order) == rs[|rs| - 1].item.source
    ensures var next := Push(order, r.item.source);
            Parts(rs + [r], next) == rs + [r] && next != [] && Last(next) == r.item.source
  {
    hide Parts, Contiguous, NoRepeats;
    var s := r.item.source;
    if s !in order {
      NothingOfSource(rs, s);
      PartsStep(rs, r, order);
      NewPart(rs, order, s);
    } else {
      LastSourceRepeats(rs, r, order);
      assert order == order[..|order| - 1] + [s];
      PartsStep(rs, r, order[..|order| - 1]);
    }
  }

  lemma NewPart(rs: seq<Ranked>, order: seq<string>, s: string)
    requires OfSource(rs, s) == []
    ensures Parts(rs, order + [s]) == Parts(rs, order)
  {
    assert (order + [s])[..|order|] == order;
  }

  lemma ContiguousPrefix(rs: seq<Ranked>, r: Ranked)
    requires Contiguous(rs + [r])
    ensures Contiguous(rs)
  {
    var more := rs + [r];
    assert forall i :: 0 <= i < |rs| ==> more[i] == rs[i];
  }

  predicate HasSource(rs: seq<Ranked>, source: string) {
    exists i :: 0 <= i < |rs| && rs[i].item.source == source
  }

  lemma HasSourceGrows(rs: seq<Ranked>, r: Ranked, source: string)
    ensures HasSource(rs + [r], source) <==> HasSource(rs, source) || r.item.source == source
  {
    var more := rs + [r];
    assert more[|rs|] == r;
    if HasSource(rs, source) {
      var i :| 0 <= i < |rs| && rs[i].item.source == source;
      assert more[i].item.source == source;
    }
  }

  lemma {:induction false} RanksHaveSources(cs: seq<Candidate>, n: nat, source: string)
    requires n <= |cs|
    ensures source in SourceOrder(cs[..n]) <==> HasSource(Ranks(cs, n), source)
  {
    if n > 0 {
      var r := RankAt(cs, n - 1);
      RanksStep(cs, n - 1);
      hide Normalize, SourceOrder, HasSource, RankAt, Ranks;
      RanksHaveSources(cs, n - 1, source);
      HasSourceGrows(Ranks(cs, n - 1), r, source);
    }
  }

  lemma RanksStep(cs: seq<Candidate>, n: nat)
    requires n < |cs|
    ensures Ranks(cs, n + 1) == Ranks(cs, n) + [RankAt(cs, n)]
    ensures SourceOrder(cs[..n + 1]) == Push(SourceOrder(cs[..n]), RankAt(cs, n).item.source)
  {
    assert RankAt(cs, n).item.source == cs[n].item.source;
    hide RankAt;
    assert cs[..n + 1][..n] == cs[..n];
  }

  lemma LastSourceRepeats(rs: seq<Ranked>, r: Ranked, order: seq<string>)
    requires Contiguous(rs + [r]) && NoRepeats(order)
    requires HasSource(rs, r.item.source)
    requires rs != [] ==> order != [] && order[|order| - 1] == rs[|rs| - 1].item.source
    ensures order != [] && order[|order| - 1] == r.item.source
    ensures r.item.source !in order[..|order| - 1]
  {
    var i :| 0 <= i < |rs| && rs[i].item.source == r.item.source;
    var more := rs + [r];
    assert more[i] == rs[i] && more[|rs| - 1] == rs[|rs| - 1] && more[|rs|] == r;
  }

  /** With every candidate a winner and all groups already in order, nothing moves. */
  lemma NothingMoves(cs: seq<Candidate>)
    requires forall i :: 0 <= i < |cs| ==> Wins(cs, |cs|, i)
    requires Contiguous(Ranks(cs, |cs|)) && SortedBySource(Ranks(cs, |cs|))
    ensures Survivors(cs) == Ranks(cs, |cs|)
  {
    hide Wins, RankAt, Ranks, BetterCandidate, SortedBySource, Contiguous;
    EveryoneWins(cs, |cs|);
    PartsOfContiguous(cs, |cs|);
    assert cs[..|cs|] == cs;
    SortedPartsAreFlat(cs, SourceOrder(cs));
  }

  lemma {:induction false} SortedPartsAreFlat(cs: seq<Candidate>, sources: seq<string>)
    requires Winners(cs, |cs|) == Ranks(cs, |cs|)
    requires SortedBySource(Ranks(cs, |cs|)) && Distinct(Ranks(cs, |cs|))
    ensures Flat(cs, sources) == Parts(Ranks(cs, |cs|), sources)
  {
    hide Winners, Ranks, BetterCandidate, SortedBySource, Distinct, Sort, OfSource;
    if sources != [] {
      SortedPartsAreFlat(cs, sources[..|sources| - 1]);
      PartIsSorted(Ranks(cs, |cs|), sources[|sources| - 1]);
    }
  }

  lemma PartIsSorted(rs: seq<Ranked>, source: string)
    requires SortedBySource(rs) && Distinct(rs)
    ensures Sort(BetterCandidate, OfSource(rs, source)) == OfSource(rs, source)
  {
    var part := OfSource(rs, source);
    OfSourceKeeps(rs, source);
    OfSourceIsSorted(rs, source);
    SortSorts(part);
    hide Sort, OfSource;
    SortedIsUnique(Sort(BetterCandidate, part), part);
  }

  lemma {:induction false} OfSourceIsSorted(rs: seq<Ranked>, source: string)
    requires SortedBySource(rs)
    ensures Sorted(OfSource(rs, source))
  {
    hide BetterCandidate;
    if rs != [] {
      var before, last := rs[..|rs| - 1], rs[|rs| - 1];
      OfSourceIsSorted(before, source);
      OfSourceKeeps(before, source);
      var kept := OfSource(before, source);
      forall i | 0 <= i < |kept| && last.item.source == source ensures BetterCandidate(kept[i], last) {
        assert kept[i] in before;
        var k :| 0 <= k < |before| && before[k] == kept[i];
        assert rs[k] == kept[i];
      }
    }
  }

  /** Ranked by their place in the output, the survivors are still in order. */
  lemma AgainInOrder(cs: seq<Candidate>)
    ensures var out := Survivors(cs);
            var again := Again(out);
            && (forall k :: 0 <= k < |out| ==> RankAt(again, k) == out[k].(sequence := k))
            && Contiguous(Ranks(again, |again|)) && SortedBySource(Ranks(again, |again|))
  {
    SurvivorsAreTheWinners(cs);
    var out := Survivors(cs);
    var again := Again(out);
    hide Survivors;
    forall k | 0 <= k < |out| ensures RankAt(again, k) == out[k].(sequence := k) {
      assert out[k] in out;
      CleanStays(cs, out[k]);
    }
    var rs := Ranks(again, |again|);
    hide RankAt, Ranks, Distinct;
    assert forall k :: 0 <= k < |out| ==> rs[k] == out[k].(sequence := k);
    forall i, j | 0 <= i < j < |rs| && rs[i].item.source == rs[j].item.source ensures BetterCandidate(rs[i], rs[j]) {
      assert BetterCandidate(out[i], out[j]);
    }
  }

  lemma CleanStays(cs: seq<Candidate>, r: Ranked)
    requires IsWinner(cs, |cs|, r)
    ensures Clean(r.item) == r.item
  {
    hide Wins, Normalize;
    var item := cs[r.sequence].item;
    NormalizeKeepsSource(item);
    NormalizeSettles(item, item.source, item.source);
  }

  /** Nothing the first aggregation kept competes with another, unless a number passes for an ID. */
  lemma AgainAllWin(cs: seq<Candidate>)
    requires NoCollision(Again(Survivors(cs)))
    ensures var again := Again(Survivors(cs)); forall i :: 0 <= i < |again| ==> Wins(again, |again|, i)
  {
    var out := Survivors(cs);
    var again := Again(out);
    SurvivorsAreTheWinners(cs);
    AgainInOrder(cs);
    hide Survivors, KeyAt, Clean, RankAt, BetterCandidate, Contiguous, SortedBySource, Ranks;
    forall i, j | 0 <= i < j < |again| ensures KeyAt(again, i) != KeyAt(again, j) {
      if Anonymous(again[i]) && Anonymous(again[j]) {
        AnonymousKeysAreTheirOwn(again, i, j);
      } else if !Anonymous(again[i]) && !Anonymous(again[j]) {
        assert out[i] in out && out[j] in out;
        KeyOfNamed(again, i);
        KeyOfNamed(again, j);
        NamedSurvivorsDiffer(cs, out[i], out[j]);
      }
    }
    forall i, j | 0 <= i < |again| && 0 <= j < |again| ensures Beats(again, i, j) {
    }
  }

  lemma NamedSurvivorsDiffer(cs: seq<Candidate>, r: Ranked, s: Ranked)
    requires IsWinner(cs, |cs|, r) && IsWinner(cs, |cs|, s) && r.sequence != s.sequence
    requires Clean(r.item).id != "" && Clean(s.item).id != ""
    ensures Clean(r.item).id != Clean(s.item).id
  {
    CleanStays(cs, r);
    CleanStays(cs, s);
    var i, j := r.sequence, s.sequence;
    assert r.item == Clean(cs[i].item) && s.item == Clean(cs[j].item);
    hide Clean, Wins, KeyAt;
    KeyOfNamed(cs, i);
    KeyOfNamed(cs, j);
    if Clean(r.item).id == Clean(s.item).id {
      OnlyOneWins(cs, i, j);
    }
  }

  predicate HasSequence(rs: seq<Ranked>, k: nat) {
    exists i :: 0 <= i < |rs| && rs[i].sequence == k
  }

  lemma {:induction false} SequencesCount(rs: seq<Ranked>) returns (seen: set<nat>)
    requires Distinct(rs)
    ensures |seen| == |rs| && forall k :: k in seen <==> HasSequence(rs, k)
  {
    seen := {};
    if rs != [] {
      var init, last := rs[..|rs| - 1], rs[|rs| - 1];
      var before := SequencesCount(init);
      assert last.sequence !in before;
      seen := before + {last.sequence};
      assert rs == init + [last];
      forall k ensures HasSequence(rs, k) <==> HasSequence(init, k) || k == last.sequence {
        if HasSequence(init, k) {
          var i :| 0 <= i < |init| && init[i].sequence == k;
          assert rs[i].sequence == k;
        }
        assert rs[|init|] == last;
        if HasSequence(rs, k) && k != last.sequence {
          var i :| 0 <= i < |rs| && rs[i].sequence == k;
          assert init[i].sequence == k;
        }
      }
    }
  }

  lemma {:induction false} UpToCount(n: nat) returns (all: set<nat>)
    ensures |all| == n && forall k: nat :: k in all <==> k < n
  {
    all := {};
    if n > 0 {
      var before := UpToCount(n - 1);
      all := before + {n - 1};
    }
  }

  /** A collision costs at least one candidate. */
  lemma CollisionLoses(cs: seq<Candidate>)
    requires !NoCollision(cs)
    ensures |Survivors(cs)| < |cs|
  {
    hide KeyAt, Survivors, Wins, RankAt, Anonymous;
    SurvivorsAreTheWinners(cs);
    var i, j :| 0 <= i < |cs| && 0 <= j < |cs| && Anonymous(cs[i]) && !Anonymous(cs[j]) && KeyAt(cs, i) == KeyAt(cs, j);
    OnlyOneWins(cs, i, j);
    LoserLeavesRoom(cs, Survivors(cs), if Wins(cs, |cs|, i) then j else i);
  }

  lemma LoserLeavesRoom(cs: seq<Candidate>, out: seq<Ranked>, loser: nat)
    requires loser < |cs| && !Wins(cs, |cs|, loser)
    requires Distinct(out) && forall r :: r in out ==> IsWinner(cs, |cs|, r)
    ensures |out| < |cs|
  {
    hide Wins, RankAt;
    var seen := SequencesCount(out);
    var all := UpToCount(|cs|);
    forall k | k in seen ensures k in all - {loser} {
      var l :| 0 <= l < |out| && out[l].sequence == k;
      assert out[l] in out;
    }
    SubsetIsSmaller(seen, all - {loser});
  }

  /** The exact condition for idempotence: the output itself has no collision. */
  lemma AggregationSettlesIffNoCollision(cs: seq<Candidate>)
    ensures var again := Again(Survivors(cs));
            Aggregated(again).items == Aggregated(cs).items <==> NoCollision(again)
  {
    var out := Survivors(cs);
    var again := Again(out);
    AgainInOrder(cs);
    hide Survivors, NoCollision, RankAt, Wins, Contiguous, SortedBySource;
    if NoCollision(again) {
      AgainAllWin(cs);
      NothingMoves(again);
    } else {
      CollisionLoses(again);
    }
  }

  /** An ID that an unnamed candidate could compete under, such as "#1". */
  ghost predicate LooksAnonymous(id: string) {
    exists n: nat :: id == AnonymousKey(n)
  }

  /** Without such IDs, evidence aggregated once is aggregated for good. */
  lemma AggregationIsIdempotent(cs: seq<Candidate>)
    requires forall i :: 0 <= i < |cs| ==> !LooksAnonymous(TrimSpace(cs[i].item.id))
    ensures Aggregated(Again(Survivors(cs))).items == Aggregated(cs).items
  {
    SurvivorsAreTheWinners(cs);
    AgainInOrder(cs);
    var out := Survivors(cs);
    var again := Again(out);
    hide Survivors, RankAt, Contiguous, SortedBySource;
    forall i, j | 0 <= i < |again| && 0 <= j < |again| && Anonymous(again[i]) && !Anonymous(again[j])
      ensures KeyAt(again, i) != KeyAt(again, j)
    {
      assert out[j] in out;
      IdOfSurvivor(cs, out[j]);
      assert KeyAt(again, j) == TrimSpace(cs[out[j].sequence].item.id);
      assert LooksAnonymous(KeyAt(again, i));
    }
    AggregationSettlesIffNoCollision(cs);
  }

  lemma IdOfSurvivor(cs: seq<Candidate>, r: Ranked)
    requires IsWinner(cs, |cs|, r)
    ensures Clean(r.item).id == TrimSpace(cs[r.sequence].item.id)
  {
    CleanStays(cs, r);
    hide Wins, TrimSpace;
  }
}
