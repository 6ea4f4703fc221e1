/**
 The parts of Go's `strings` package that the modelled code relies on.

 Whitespace is the White_Space property that unicode.IsSpace tests, spelled out.
 The Unicode case tables are too large to spell out: functions that need one take
 it as a parameter of type `char -> char`.
 */
module Text {

  datatype Option<+T> = None | Some(value: T)

  predicate IsSpace(c: char) {
    || '\t' <= c <= '\r'
    || c == ' ' || c == '\U{85}' || c == '\U{A0}' || c == '\U{1680}'
    || '\U{2000}' <= c <= '\U{200A}'
    || c == '\U{2028}' || c == '\U{2029}' || c == '\U{202F}' || c == '\U{205F}' || c == '\U{3000}'
  }

  function TrimLeft(s: string): (r: string)
    ensures |r| <= |s|
    ensures r != "" ==> !IsSpace(r[0])
  {
    if s != "" && IsSpace(s[0]) then TrimLeft(s[1..]) else s
  }

  function TrimRight(s: string): (r: string)
    ensures |r| <= |s|
    ensures r != "" ==> !IsSpace(r[|r| - 1])
  {
    if s != "" && IsSpace(s[|s| - 1]) then TrimRight(s[..|s| - 1]) else s
  }

  /** What is trimmed off the left is whitespace, and the rest is a suffix. */
  lemma {:induction false} TrimLeftKeeps(s: string)
    ensures TrimLeft(s) == s[|s| - |TrimLeft(s)|..]
    ensures forall i :: 0 <= i < |s| - |TrimLeft(s)| ==> IsSpace(s[i])
  {
    if s != "" && IsSpace(s[0]) {
      TrimLeftKeeps(s[1..]);
    }
  }

  lemma {:induction false} TrimRightKeeps(s: string)
    ensures TrimRight(s) == s[..|TrimRight(s)|]
    ensures forall i :: |TrimRight(s)| <= i < |s| ==> IsSpace(s[i])
  {
    if s != "" && IsSpace(s[|s| - 1]) {
      TrimRightKeeps(s[..|s| - 1]);
    }
  }

  function TrimSpace(s: string): string {
    TrimRight(TrimLeft(s))
  }

  /** No leading and no trailing whitespace. */
  predicate Trimmed(s: string) {
    s != "" ==> !IsSpace(s[0]) && !IsSpace(s[|s| - 1])
  }

  lemma TrimSpaceTrims(s: string)
    ensures Trimmed(TrimSpace(s))
    ensures Trimmed(s) <==> TrimSpace(s) == s
    ensures TrimSpace(TrimSpace(s)) == TrimSpace(s)
  {
    var l := TrimLeft(s);
    TrimRightKeeps(l);
    assert TrimRight(l) != "" ==> TrimRight(l)[0] == l[0];
  }

  /** Exactly the spaces at both ends go. */
  lemma TrimSpaceIsTheCore(s: string, front: string, core: string, back: string)
    requires s == front + core + back && Trimmed(core)
    requires AllSpaces(front) && AllSpaces(back)
    ensures TrimSpace(s) == core
  {
    assert s == front + (core + back);
    TrimLeftDrops(front, core + back);
    if core == "" {
      assert core + back == back + "";
      TrimLeftDrops(back, "");
    } else {
      assert (core + back)[0] == core[0];
      TrimRightDrops(core, back);
    }
  }

  predicate AllSpaces(s: string) {
    forall i :: 0 <= i < |s| ==> IsSpace(s[i])
  }

  lemma {:induction false} TrimLeftDrops(front: string, rest: string)
    requires AllSpaces(front)
    ensures TrimLeft(front + rest) == TrimLeft(rest)
  {
    if front == "" {
      assert front + rest == rest;
    } else {
      TrimLeftDrops(front[1..], rest);
      assert (front + rest)[1..] == front[1..] + rest;
    }
  }

  lemma {:induction false} TrimRightDrops(rest: string, back: string)
    requires AllSpaces(back)
    ensures TrimRight(rest + back) == TrimRight(rest)
  {
    if back == "" {
      assert rest + back == rest;
    } else {
      var n := |back| - 1;
      TrimRightDrops(rest, back[..n]);
      assert (rest + back)[..|rest| + n] == rest + back[..n];
    }
  }

  predicate HasPrefix(s: string, prefix: string) {
    prefix <= s
  }

  predicate HasSuffix(s: string, suffix: string) {
    |suffix| <= |s| && s[|s| - |suffix|..] == suffix
  }

  function TrimSuffix(s: string, suffix: string): string {
    if HasSuffix(s, suffix) then s[..|s| - |suffix|] else s
  }

  predicate OccursAt(s: string, part: string, i: int) {
    0 <= i <= |s| - |part| && s[i..i + |part|] == part
  }

  predicate Contains(s: string, part: string) {
    exists i :: 0 <= i <= |s| - |part| && OccursAt(s, part, i)
  }

  /** What occurs in one of several texts occurs in them joined, and nothing else does that has no separator in it. */
  lemma {:induction false} ContainsInJoin(parts: seq<string>, separator: char, part: string)
    requires parts != []
    ensures SomeContains(parts, part) ==> Contains(Join(parts, [separator]), part)
    ensures separator !in part ==> (Contains(Join(parts, [separator]), part) <==> SomeContains(parts, part))
  {
    if |parts| == 1 {
      assert SomeContains(parts, part) <==> Contains(parts[0], part);
    } else {
      ContainsInJoin(parts[1..], separator, part);
      SomeContainsSplit(parts, part);
      ContainsAcross(parts[0], separator, Join(parts[1..], [separator]), part);
    }
  }

  predicate SomeContains(parts: seq<string>, part: string) {
    exists i :: 0 <= i < |parts| && Contains(parts[i], part)
  }

  lemma SomeContainsSplit(parts: seq<string>, part: string)
    requires parts != []
    ensures SomeContains(parts, part) <==> Contains(parts[0], part) || SomeContains(parts[1..], part)
  {
    hide Contains;
    var rest := parts[1..];
    assert forall i :: 0 <= i < |rest| ==> rest[i] == parts[i + 1];
    if i :| 0 < i < |parts| && Contains(parts[i], part) {
      assert Contains(rest[i - 1], part);
    }
    if i :| 0 <= i < |rest| && Contains(rest[i], part) {
      assert Contains(parts[i + 1], part);
    }
  }

  lemma ContainsAcross(a: string, separator: char, b: string, part: string)
    ensures Contains(a, part) || Contains(b, part) ==> Contains(a + [separator] + b, part)
    ensures separator !in part ==> (Contains(a + [separator] + b, part) <==> Contains(a, part) || Contains(b, part))
  {
    var s := a + [separator] + b;
    var n := |a| + 1;
    assert forall k :: 0 <= k < |b| ==> s[n + k] == b[k];
    forall i | OccursAt(a, part, i) ensures OccursAt(s, part, i) {
      assert s[i..i + |part|] == a[i..i + |part|];
    }
    forall i | OccursAt(b, part, i) ensures OccursAt(s, part, n + i) {
      assert s[n + i..n + i + |part|] == b[i..i + |part|];
    }
    forall i | OccursAt(s, part, i) && i <= |a| < i + |part| ensures separator in part {
      assert part[|a| - i] == s[|a|];
    }
    forall i | OccursAt(s, part, i) && separator !in part ensures OccursAt(a, part, i) || OccursAt(b, part, i - n) || part == "" {
      if i + |part| <= |a| {
        assert a[i..i + |part|] == s[i..i + |part|];
      } else if i >= n {
        assert b[i - n..i - n + |part|] == s[i..i + |part|];
      }
    }
    assert part == "" ==> OccursAt(a, part, 0);
  }

  /** strings.IndexByte for an ASCII character: first position, or None. */
  function IndexOf(s: string, c: char): (r: Option<nat>)
    ensures r.None? <==> c !in s
    ensures r.Some? ==> r.value < |s| && s[r.value] == c && c !in s[..r.value]
  {
    if s == "" then None
    else if s[0] == c then Some(0)
    else
      match IndexOf(s[1..], c)
      case None => None
      case Some(i) =>
        assert s[..i + 1] == [s[0]] + s[1..][..i];
        Some(i + 1)
  }

  /** strings.LastIndexByte for an ASCII character: last position, or None. */
  function LastIndexOf(s: string, c: char): (r: Option<nat>)
    ensures r.None? <==> c !in s
    ensures r.Some? ==> r.value < |s| && s[r.value] == c && c !in s[r.value + 1..]
  {
    if s == "" then None
    else if s[|s| - 1] == c then Some(|s| - 1)
    else
      assert forall x :: x in s <==> x in s[..|s| - 1] || x == s[|s| - 1];
      var r := LastIndexOf(s[..|s| - 1], c);
      assert r.Some? ==> s[r.value + 1..] == s[..|s| - 1][r.value + 1..] + [s[|s| - 1]];
      r
  }

  /** strings.Map with a rune table, which is what ToLower and ToUpper are. */
  function MapText(table: char -> char, s: string): (r: string)
    ensures |r| == |s|
    ensures forall i :: 0 <= i < |s| ==> r[i] == table(s[i])
  {
    seq(|s|, i requires 0 <= i < |s| => table(s[i]))
  }

  /** strings.Fields: the maximal runs of non-space characters, in order. */
  function Fields(s: string): seq<string>
    decreases |s|
  {
    var t := TrimLeft(s);
    if t == "" then []
    else
      var n := WordLength(t);
      [t[..n]] + Fields(t[n..])
  }

  function WordLength(s: string): (n: nat)
    ensures n <= |s|
    ensures s != "" && !IsSpace(s[0]) ==> n > 0
  {
    if s == "" || IsSpace(s[0]) then 0 else 1 + WordLength(s[1..])
  }

  /** strings.Join. */
  function Join(parts: seq<string>, separator: string): string {
    if parts == [] then ""
    else if |parts| == 1 then parts[0]
    else parts[0] + separator + Join(parts[1..], separator)
  }

  // ---- Regrouping concatenations -------------------------------------------------------

  lemma Regroup3(a: string, b: string, c: string)
    ensures a + b + c == a + (b + c)
  {
  }

  lemma Regroup4(a: string, b: string, c: string, d: string)
    ensures a + b + c + d == a + (b + (c + d))
  {
    Regroup3(a + b, c, d);
    Regroup3(a, b, c + d);
  }

  lemma Regroup5(a: string, b: string, c: string, d: string, e: string)
    ensures a + b + c + d + e == a + (b + (c + (d + e)))
  {
    Regroup3(a + b + c, d, e);
    Regroup3(a + b, c, d + e);
    Regroup3(a, b, c + (d + e));
  }

  lemma DropFirst(c: char, s: string)
    ensures ([c] + s)[0] == c && ([c] + s)[1..] == s
  {
  }

  lemma Ends(a: string, b: string)
    ensures a != "" ==> (a + b)[0] == a[0]
    ensures b != "" ==> (a + b)[|a + b| - 1] == b[|b| - 1]
  {
  }

  // ---- Texts joined by a separator --------------------------------------------------------

  /** The first part of one text goes on, past a separator, into the second part of the other. */
  predicate RunsOver(a: string, x: string, b: string, y: string, c: char) {
    |a| < |b| && b[..|a|] == a && b[|a|] == c && x == b[|a| + 1..] + [c] + y
  }

  /** Exactly when two joined texts are equal. */
  lemma JoinedEqualIff(a: string, x: string, b: string, y: string, c: char)
    ensures a + [c] + x == b + [c] + y <==> (a == b && x == y) || RunsOver(a, x, b, y, c) || RunsOver(b, y, a, x, c)
  {
    var s, t := a + [c] + x, b + [c] + y;
    assert s[..|a|] == a && s[|a|] == c && s[|a| + 1..] == x;
    assert t[..|b|] == b && t[|b|] == c && t[|b| + 1..] == y;
    if |a| < |b| {
      RunsOverIff(a, x, b, y, c);
    } else if |b| < |a| {
      RunsOverIff(b, y, a, x, c);
    }
  }

  lemma RunsOverIff(a: string, x: string, b: string, y: string, c: char)
    requires |a| < |b|
    ensures a + [c] + x == b + [c] + y <==> RunsOver(a, x, b, y, c)
  {
    var s, t := a + [c] + x, b + [c] + y;
    assert s[..|a|] == a && s[|a|] == c && s[|a| + 1..] == x;
    assert t[..|a|] == b[..|a|] && t[|a|] == b[|a|] && t[|a| + 1..] == b[|a| + 1..] + [c] + y;
    assert s == s[..|a|] + [s[|a|]] + s[|a| + 1..];
    assert t == t[..|a|] + [t[|a|]] + t[|a| + 1..];
  }
}
