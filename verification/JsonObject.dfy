/**
 RepairJSON (internal/agent/control/controller.go): an object is cut out of the prose around
 it, its trailing commas are removed, and the result is kept if it is valid JSON.
 */
module JsonObject {
  import opened Text
  import opened JsonRepair

  // ---- Finding the object ------------------------------------------------------------------

  /** The opening Markdown fence goes with its line, the closing one with what it is. */
  function StripFence(content: string): string {
    if HasPrefix(content, "```") then
      var body := match IndexOf(content, '\n') case None => content case Some(newline) => content[newline + 1..];
      TrimSpace(TrimSuffix(body, "```"))
    else content
  }

  function StripToJsonObject(content: string): string {
    var c := StripFence(TrimSpace(content));
    Between(c, IndexOf(c, '{'), LastIndexOf(c, '}'))
  }

  /** From the first opening brace to the last closing one, if they stand in this order. */
  function Between(c: string, start: Option<nat>, end: Option<nat>): string
    requires end.Some? ==> end.value < |c|
  {
    if start.None? || end.None? || end.value < start.value then c
    else TrimSpace(c[start.value..end.value + 1])
  }

  /** Prose around an object: no braces of its own. */
  predicate BraceFree(s: string) {
    '{' !in s && '}' !in s
  }

  predicate ObjectText(obj: string) {
    |obj| >= 2 && obj[0] == '{' && obj[|obj| - 1] == '}'
  }

  lemma {:induction false} TrimLeftBefore(before: string, rest: string)
    requires rest != "" && !IsSpace(rest[0])
    ensures TrimLeft(before + rest) == TrimLeft(before) + rest
    decreases |before|
  {
    if before == "" {
      assert before + rest == rest;
    } else {
      assert (before + rest)[0] == before[0] && (before + rest)[1..] == before[1..] + rest;
      TrimLeftBefore(before[1..], rest);
    }
  }

  lemma {:induction false} TrimRightAfter(rest: string, after: string)
    requires rest != "" && !IsSpace(rest[|rest| - 1])
    ensures TrimRight(rest + after) == rest + TrimRight(after)
    decreases |after|
  {
    if after == "" {
      assert rest + after == rest;
    } else {
      var t := rest + after;
      assert t[|t| - 1] == after[|after| - 1] && t[..|t| - 1] == rest + after[..|after| - 1];
      TrimRightAfter(rest, after[..|after| - 1]);
    }
  }

  /** Trimming only reaches the prose. */
  lemma TrimAround(before: string, obj: string, after: string)
    requires ObjectText(obj)
    ensures TrimSpace(before + obj + after) == TrimLeft(before) + obj + TrimRight(after)
  {
    assert !IsSpace(obj[0]) && !IsSpace(obj[|obj| - 1]);
    hide TrimLeft, TrimRight, IsSpace;
    Regroup3(before, obj, after);
    Ends(obj, after);
    TrimLeftBefore(before, obj + after);
    var l := TrimLeft(before);
    Regroup3(l, obj, after);
    Ends(l, obj);
    TrimRightAfter(l + obj, after);
  }

  /** The fence has a line of its own, or there is none. */
  predicate FenceHasItsLine(before: string) {
    HasPrefix(TrimLeft(before), "```") ==> '\n' in TrimLeft(before)
  }

  /** Removing a fence only reaches the prose as well. */
  lemma FenceAround(before: string, obj: string, after: string) returns (b: string, a: string)
    requires ObjectText(obj) && BraceFree(before) && BraceFree(after)
    requires HasPrefix(before, "```") ==> '\n' in before
    ensures StripFence(before + obj + after) == b + obj + a && BraceFree(b) && BraceFree(a)
  {
    FenceIsInTheProse(before, obj, after);
    if HasPrefix(before, "```") {
      b, a := FencedObject(before, obj, after);
    } else {
      b, a := before, after;
    }
  }

  lemma FenceIsInTheProse(before: string, obj: string, after: string)
    requires ObjectText(obj)
    ensures HasPrefix(before + obj + after, "```") <==> HasPrefix(before, "```")
  {
    var c := before + obj + after;
    assert forall i :: 0 <= i < |before| ==> c[i] == before[i];
    assert c[|before|] == '{';
    FenceChars(c);
    FenceChars(before);
  }

  lemma FenceChars(s: string)
    ensures HasPrefix(s, "```") <==> |s| >= 3 && s[0] == '`' && s[1] == '`' && s[2] == '`'
  {
    assert |s| >= 3 ==> s[..3] == [s[0], s[1], s[2]];
  }

  lemma FencedObject(before: string, obj: string, after: string) returns (b: string, a: string)
    requires ObjectText(obj) && BraceFree(before) && BraceFree(after)
    requires HasPrefix(before, "```") && '\n' in before
    ensures StripFence(before + obj + after) == b + obj + a && BraceFree(b) && BraceFree(a)
  {
    var c := before + obj + after;
    FenceIsInTheProse(before, obj, after);
    FenceLine(before, obj + after);
    assert before + (obj + after) == c;
    var n := IndexOf(before, '\n').value;
    var rest := before[n + 1..];
    assert BraceFree(rest);
    var cut := TrimSuffix(after, "```");
    assert BraceFree(cut);
    assert c[n + 1..] == (rest + obj) + after;
    SuffixAround(rest + obj, after);
    BodyOfFence(c, n, (rest + obj) + cut);
    TrimAround(rest, obj, cut);
    hide StripFence, TrimSpace, TrimSuffix;
    b, a := TrimLeft(rest), TrimRight(cut);
    TrimmedBraceFree(rest, cut);
  }

  lemma TrimmedBraceFree(before: string, after: string)
    requires BraceFree(before) && BraceFree(after)
    ensures BraceFree(TrimLeft(before)) && BraceFree(TrimRight(after))
  {
    TrimLeftKeeps(before);
    TrimRightKeeps(after);
  }

  lemma BodyOfFence(c: string, n: nat, body: string)
    requires HasPrefix(c, "```") && IndexOf(c, '\n') == Some(n) && TrimSuffix(c[n + 1..], "```") == body
    ensures StripFence(c) == TrimSpace(body)
  {
    hide TrimSpace, TrimSuffix, IndexOf;
  }

  lemma FenceLine(before: string, rest: string)
    requires '\n' in before
    ensures IndexOf(before + rest, '\n') == IndexOf(before, '\n')
    ensures IndexOf(before, '\n').Some?
  {
    FirstIndexIsUnique(before + rest, '\n', IndexOf(before, '\n').value);
  }

  lemma FirstIndexIsUnique(s: string, c: char, k: nat)
    requires k < |s| && s[k] == c && c !in s[..k]
    ensures IndexOf(s, c) == Some(k)
  {
    var r := IndexOf(s, c);
    assert s[k] in s;
    assert forall i :: 0 <= i < k ==> s[..k][i] == s[i];
    assert forall i :: 0 <= i < r.value ==> s[..r.value][i] == s[i];
  }

  lemma LastIndexIsUnique(s: string, c: char, k: nat)
    requires k < |s| && s[k] == c && c !in s[k + 1..]
    ensures LastIndexOf(s, c) == Some(k)
  {
    var r := LastIndexOf(s, c);
    assert s[k] in s;
    assert forall i {:trigger s[i]} :: k + 1 <= i < |s| ==> s[k + 1..][i - k - 1] == s[i];
    assert forall i {:trigger s[i]} :: r.value + 1 <= i < |s| ==> s[r.value + 1..][i - r.value - 1] == s[i];
  }

  /** A text that ends in a brace keeps it: the closing fence is in the prose or not there. */
  lemma SuffixAround(text: string, after: string)
    requires text != "" && text[|text| - 1] == '}'
    ensures TrimSuffix(text + after, "```") == text + TrimSuffix(after, "```")
  {
    var t := text + after;
    if |after| >= 3 {
      assert t[|t| - 3..] == after[|after| - 3..];
      assert HasSuffix(after, "```") ==> t[..|t| - 3] == text + after[..|after| - 3];
    } else {
      assert |t| >= 3 ==> t[|t| - 3..][2 - |after|] == '}';
      assert |t| >= 3 ==> "```"[2 - |after|] == '`';
    }
  }

  /** An object in brace-free prose is found whole. */
  lemma StripFindsTheObject(before: string, obj: string, after: string)
    requires ObjectText(obj) && BraceFree(before) && BraceFree(after) && FenceHasItsLine(before)
    ensures StripToJsonObject(before + obj + after) == obj
  {
    hide StripToJsonObject, StripFence, TrimSpace, IndexOf, LastIndexOf;
    var l, r := TrimLeft(before), TrimRight(after);
    TrimAround(before, obj, after);
    TrimmedProse(before, after);
    hide TrimLeft, TrimRight, BraceFree, HasPrefix, FenceHasItsLine;
    var b, a := FenceAround(l, obj, r);
    ObjectIsCutOut(before + obj + after, b, obj, a);
  }

  lemma TrimmedProse(before: string, after: string)
    requires BraceFree(before) && BraceFree(after) && FenceHasItsLine(before)
    ensures BraceFree(TrimLeft(before)) && BraceFree(TrimRight(after))
    ensures HasPrefix(TrimLeft(before), "```") ==> '\n' in TrimLeft(before)
  {
    TrimmedBraceFree(before, after);
  }

  lemma ObjectIsTrimmed(obj: string)
    requires ObjectText(obj)
    ensures TrimSpace(obj) == obj
  {
    assert Trimmed(obj);
    TrimSpaceTrims(obj);
  }

  lemma ObjectIsCutOut(content: string, b: string, obj: string, a: string)
    requires ObjectText(obj) && BraceFree(b) && BraceFree(a)
    requires StripFence(TrimSpace(content)) == b + obj + a
    ensures StripToJsonObject(content) == obj
  {
    BracesOfTheObject(b, obj, a);
    ObjectIsBetween(b, obj, a);
    hide Between;
    var c := b + obj + a;
    assert StripToJsonObject(content) == Between(c, Some(|b|), Some(|b| + |obj| - 1)) by {
      hide StripFence, TrimSpace, IndexOf, LastIndexOf;
    }
  }

  lemma ObjectIsBetween(b: string, obj: string, a: string)
    requires ObjectText(obj)
    ensures Between(b + obj + a, Some(|b|), Some(|b| + |obj| - 1)) == obj
  {
    var c := b + obj + a;
    assert c[|b|..|b| + |obj| - 1 + 1] == obj;
    ObjectIsTrimmed(obj);
    hide TrimSpace;
  }

  lemma BracesOfTheObject(b: string, obj: string, a: string)
    requires ObjectText(obj) && BraceFree(b) && BraceFree(a)
    ensures var c := b + obj + a;
            && IndexOf(c, '{') == Some(|b|)
            && LastIndexOf(c, '}') == Some(|b| + |obj| - 1)
            && c[|b|..|b| + |obj|] == obj
  {
    var c := b + obj + a;
    assert c[..|b|] == b && c[|b| + |obj|..] == a;
    assert c[|b|] == '{' && c[|b| + |obj| - 1] == '}';
    hide IndexOf, LastIndexOf;
    FirstIndexIsUnique(c, '{', |b|);
    LastIndexIsUnique(c, '}', |b| + |obj| - 1);
  }

  /** A fence on the object's own line, when no line ends before the text does. */
  lemma UnbrokenFence(before: string, obj: string, after: string) returns (b: string, a: string)
    requires ObjectText(obj) && BraceFree(before) && BraceFree(after)
    requires HasPrefix(before, "```") && '\n' !in before + obj + after
    ensures StripFence(before + obj + after) == b + obj + a && BraceFree(b) && BraceFree(a)
  {
    var c := before + obj + after;
    FenceIsInTheProse(before, obj, after);
    var cut := TrimSuffix(after, "```");
    SuffixAround(before + obj, after);
    TrimAround(before, obj, cut);
    assert IndexOf(c, '\n').None?;
    assert StripFence(c) == TrimSpace(TrimSuffix(c, "```")) by {
      hide TrimSpace, TrimSuffix, IndexOf;
    }
    assert BraceFree(cut);
    hide StripFence, TrimSpace, TrimSuffix;
    b, a := TrimLeft(before), TrimRight(cut);
    TrimmedBraceFree(before, cut);
  }

  /** Without a line of its own the fence takes the start of the object with it. */
  lemma FenceLineIsLost(head: string, tail: string)
    requires '\n' !in head && '{' !in tail && tail != "" && Trimmed(tail) && !HasSuffix(tail, "```")
    ensures StripToJsonObject("```" + head + "\n" + tail) == tail
  {
    var c := "```" + head + "\n" + tail;
    var k := 3 + |head|;
    assert c[0] == '`' && c[1] == '`' && c[2] == '`' && c[|c| - 1] == tail[|tail| - 1];
    FenceChars(c);
    assert !IsSpace('`') && Trimmed(c);
    TrimSpaceTrims(c);
    TrimSpaceTrims(tail);
    hide StripToJsonObject, TrimSpace, IsSpace, Trimmed, IndexOf;
    LineEnd(c, head, tail);
    NoBraceNoCut(c, tail);
  }

  lemma LineEnd(c: string, head: string, tail: string)
    requires c == "```" + head + "\n" + tail && '\n' !in head
    ensures IndexOf(c, '\n') == Some(3 + |head|) && c[3 + |head| + 1..] == tail
  {
    var k := 3 + |head|;
    assert c[..k] == "```" + head && c[k] == '\n' && c[k + 1..] == tail;
    FirstIndexIsUnique(c, '\n', k);
  }

  lemma NoBraceNoCut(c: string, tail: string)
    requires TrimSpace(c) == c && HasPrefix(c, "```") && IndexOf(c, '\n').Some?
    requires c[IndexOf(c, '\n').value + 1..] == tail && !HasSuffix(tail, "```") && TrimSpace(tail) == tail
    requires '{' !in tail
    ensures StripToJsonObject(c) == tail
  {
    hide TrimSpace;
    assert StripFence(c) == tail;
  }

  function Opens(s: string): nat {
    if s == "" then 0 else (if s[0] == '{' then 1 else 0) + Opens(s[1..])
  }

  lemma {:induction false} OpensAdd(a: string, b: string)
    ensures Opens(a + b) == Opens(a) + Opens(b)
  {
    if a == "" {
      assert a + b == b;
    } else {
      OpensAdd(a[1..], b);
      assert (a + b)[1..] == a[1..] + b;
    }
  }

  lemma {:induction false} OpensOfAny(s: string)
    ensures Opens(s) > 0 <==> '{' in s
  {
    if s != "" {
      OpensOfAny(s[1..]);
      assert s == [s[0]] + s[1..];
    }
  }

  /** The fence's line reaches into the object: the text after it holds fewer opening braces. */
  lemma BrokenObject(before: string, obj: string, after: string)
    requires ObjectText(obj) && BraceFree(before) && BraceFree(after)
    requires HasPrefix(before, "```") && '\n' !in before && '\n' in obj + after
    ensures var c := before + obj + after;
            var newline := IndexOf(c, '\n');
            newline.Some? && HasPrefix(c, "```") && Opens(c[newline.value + 1..]) < Opens(obj)
  {
    var c := before + obj + after;
    FenceIsInTheProse(before, obj, after);
    assert c == before + (obj + after);
    assert '\n' in c;
    var n := IndexOf(c, '\n').value;
    assert forall i :: 0 <= i < |before| ==> c[i] == before[i] != '\n';
    assert c[|before|] == '{' && n > |before|;
    var head, tail := c[..n + 1], c[n + 1..];
    assert c == head + tail && head[|before|] == '{';
    OpensAdd(head, tail);
    OpensOfAny(head);
    OpensAdd(before + obj, after);
    OpensAdd(before, obj);
    OpensOfAny(before);
    OpensOfAny(after);
  }

  // ---- RepairJSON --------------------------------------------------------------------------

  /** validJSON, for a decoder that accepts the texts `accepts` says. */
  predicate ValidJson(accepts: string -> bool, content: string) {
    accepts(TrimSpace(content))
  }

  function RepairJson(enabled: bool, accepts: string -> bool, content: string): (string, bool) {
    if !enabled || ValidJson(accepts, content) then (content, false)
    else
      var repaired := WithoutTrailingCommas(StripToJsonObject(content));
      if ValidJson(accepts, repaired) then (repaired, true) else (content, false)
  }

  /** `a` is what is left of `b` after deleting some characters. */
  ghost predicate IsSubsequence(a: string, b: string)
    decreases |b|
  {
    if a == "" then true
    else if b == "" then false
    else (a[0] == b[0] && IsSubsequence(a[1..], b[1..])) || IsSubsequence(a, b[1..])
  }

  lemma {:induction false} SubsequenceOfItself(a: string)
    ensures IsSubsequence(a, a)
  {
    if a != "" {
      SubsequenceOfItself(a[1..]);
    }
  }

  lemma {:induction false} SubsequenceIsTransitive(a: string, b: string, c: string)
    requires IsSubsequence(a, b) && IsSubsequence(b, c)
    ensures IsSubsequence(a, c)
    decreases |b| + |c|
  {
    if a != "" {
      if b[0] == c[0] && IsSubsequence(b[1..], c[1..]) {
        if a[0] == b[0] && IsSubsequence(a[1..], b[1..]) {
          SubsequenceIsTransitive(a[1..], b[1..], c[1..]);
        } else {
          SubsequenceIsTransitive(a, b[1..], c[1..]);
        }
      } else {
        SubsequenceIsTransitive(a, b, c[1..]);
      }
    }
  }

  lemma {:induction false} SubstringIsSubsequence(s: string, i: nat, j: nat)
    requires i <= j <= |s|
    ensures IsSubsequence(s[i..j], s)
    decreases |s|
  {
    if i < j {
      if i == 0 {
        SubstringIsSubsequence(s[1..], 0, j - 1);
        assert s[1..][0..j - 1] == s[0..j][1..];
      } else {
        SubstringIsSubsequence(s[1..], i - 1, j - 1);
        assert s[1..][i - 1..j - 1] == s[i..j];
      }
    }
  }

  /** Scanning deletes commas and nothing else. */
  lemma {:induction false} ScanOnlyDeletes(s: string, inString: bool, escaped: bool)
    ensures IsSubsequence(Scan(s, inString, escaped), s)
    ensures NotCommas(Scan(s, inString, escaped)) == NotCommas(s)
    decreases |s|
  {
    if s == "" {
    } else {
      ScanUnfolds(s, inString, escaped);
      var next, quoted := !escaped && s[0] == '\\' && inString, !escaped && s[0] == '"';
      ScanOnlyDeletes(s[1..], if quoted then !inString else inString, next);
      hide Scan;
      var rest := Scan(s[1..], if quoted then !inString else inString, next);
      assert ([s[0]] + rest)[1..] == rest;
    }
  }

  function NotCommas(s: string): string {
    if s == "" then "" else (if s[0] == ',' then "" else [s[0]]) + NotCommas(s[1..])
  }

  lemma TrimIsSubsequence(s: string)
    ensures IsSubsequence(TrimSpace(s), s)
  {
    var l := TrimLeft(s);
    TrimLeftKeeps(s);
    TrimRightKeeps(l);
    SubstringIsSubsequence(s, |s| - |l|, |s|);
    assert s[|s| - |l|..|s|] == l;
    SubstringIsSubsequence(l, 0, |TrimRight(l)|);
    assert l[0..|TrimRight(l)|] == TrimRight(l);
    SubsequenceIsTransitive(TrimRight(l), l, s);
  }

  lemma StripIsSubsequence(content: string)
    ensures IsSubsequence(StripToJsonObject(content), content)
  {
    var t := TrimSpace(content);
    TrimIsSubsequence(content);
    FenceIsSubsequence(t);
    var c := StripFence(t);
    hide StripFence, TrimSpace, IsSubsequence, IndexOf, LastIndexOf, Between;
    SubsequenceIsTransitive(c, t, content);
    var start, end := IndexOf(c, '{'), LastIndexOf(c, '}');
    BetweenIsSubsequence(c, start, end);
    SubsequenceIsTransitive(Between(c, start, end), c, content);
  }

  lemma BetweenIsSubsequence(c: string, start: Option<nat>, end: Option<nat>)
    requires end.Some? ==> end.value < |c|
    ensures IsSubsequence(Between(c, start, end), c)
  {
    SubsequenceOfItself(c);
    hide IsSubsequence, TrimSpace;
    if start.Some? && end.Some? && start.value <= end.value {
      var o := c[start.value..end.value + 1];
      SubstringIsSubsequence(c, start.value, end.value + 1);
      TrimIsSubsequence(o);
      SubsequenceIsTransitive(TrimSpace(o), o, c);
    }
  }

  lemma FenceIsSubsequence(content: string)
    ensures IsSubsequence(StripFence(content), content)
  {
    SubsequenceOfItself(content);
    if HasPrefix(content, "```") {
      var i := match IndexOf(content, '\n') case None => 0 case Some(newline) => newline + 1;
      var body := content[i..];
      assert content[0..] == content;
      SubstringIsSubsequence(content, i, |content|);
      assert content[i..|content|] == body;
      var cut := TrimSuffix(body, "```");
      SubstringIsSubsequence(body, 0, |cut|);
      assert body[0..|cut|] == cut;
      TrimIsSubsequence(cut);
      hide IsSubsequence, TrimSpace;
      SubsequenceIsTransitive(cut, body, content);
      SubsequenceIsTransitive(TrimSpace(cut), cut, content);
    }
  }

  lemma {:induction false} DeletingAddsNoBraces(a: string, b: string)
    requires IsSubsequence(a, b)
    ensures Opens(a) <= Opens(b)
    decreases |b|
  {
    if a != "" {
      if a[0] == b[0] && IsSubsequence(a[1..], b[1..]) {
        DeletingAddsNoBraces(a[1..], b[1..]);
      } else {
        DeletingAddsNoBraces(a, b[1..]);
      }
    }
  }

  lemma CutIsOfTheBody(content: string)
    requires HasPrefix(TrimSpace(content), "```") && IndexOf(TrimSpace(content), '\n').Some?
    ensures IsSubsequence(StripToJsonObject(content), TrimSpace(content)[IndexOf(TrimSpace(content), '\n').value + 1..])
  {
    var t := TrimSpace(content);
    var body := t[IndexOf(t, '\n').value + 1..];
    var cut := TrimSuffix(body, "```");
    var c := StripFence(t);
    assert c == TrimSpace(cut) by { hide TrimSpace, TrimSuffix, IndexOf; }
    SubstringIsSubsequence(body, 0, |cut|);
    assert body[0..|cut|] == cut;
    TrimIsSubsequence(cut);
    hide IsSubsequence, TrimSpace, StripFence, TrimSuffix, IndexOf, LastIndexOf, Between;
    SubsequenceIsTransitive(c, cut, body);
    BetweenIsSubsequence(c, IndexOf(c, '{'), LastIndexOf(c, '}'));
    SubsequenceIsTransitive(StripToJsonObject(content), c, body);
  }

  /** The exact condition: the fence's line, if there is one to lose, ends before the object. */
  predicate FenceSpares(before: string, obj: string, after: string) {
    HasPrefix(TrimLeft(before), "```") ==> '\n' in TrimLeft(before) || '\n' !in obj + TrimRight(after)
  }

  lemma StripFindsTheObjectIff(before: string, obj: string, after: string)
    requires ObjectText(obj) && BraceFree(before) && BraceFree(after)
    ensures StripToJsonObject(before + obj + after) == obj <==> FenceSpares(before, obj, after)
  {
    hide StripToJsonObject, StripFence, IndexOf, LastIndexOf, IsSubsequence, Opens, ObjectText;
    if FenceHasItsLine(before) {
      StripFindsTheObject(before, obj, after);
    } else {
      var l, r := TrimLeft(before), TrimRight(after);
      TrimAround(before, obj, after);
      TrimmedBraceFree(before, after);
      hide TrimLeft, TrimRight, TrimSpace, BraceFree, HasPrefix;
      var content := before + obj + after;
      assert TrimSpace(content) == l + obj + r;
      assert l + obj + r == l + (obj + r);
      if '\n' !in obj + r {
        var b, a := UnbrokenFence(l, obj, r);
        ObjectIsCutOut(content, b, obj, a);
      } else {
        BrokenObject(l, obj, r);
        CutIsOfTheBody(content);
        DeletingAddsNoBraces(StripToJsonObject(content), (l + obj + r)[IndexOf(l + obj + r, '\n').value + 1..]);
      }
    }
  }

  /** Whatever the input: success gives valid JSON made by deleting, failure gives the input back. */
  lemma RepairOnlyDeletes(enabled: bool, accepts: string -> bool, content: string)
    ensures var (r, ok) := RepairJson(enabled, accepts, content);
            && IsSubsequence(r, content)
            && (ok ==> enabled && ValidJson(accepts, r) && !ValidJson(accepts, content))
            && (!ok ==> r == content)
  {
    hide Scan, StripToJsonObject, IsSubsequence, NotCommas, TrimSpace;
    var obj := StripToJsonObject(content);
    StripIsSubsequence(content);
    ScanOnlyDeletes(obj, false, false);
    SubsequenceIsTransitive(WithoutTrailingCommas(obj), obj, content);
    SubsequenceOfItself(content);
  }

  lemma RenderedObjectText(n: Node, commas: bool)
    requires n.Container? && n.isObject
    ensures ObjectText(Render(n, commas))
  {
  }

  /**
   The exact condition: an object with trailing commas, alone or in brace-free prose, is
   repaired if and only if no bracket has two of them. What comes out is the object without them.
   */
  lemma RepairSucceedsIff(accepts: string -> bool, n: Node, before: string, after: string)
    requires forall s :: accepts(s) <==> IsJson(s)
    requires n.Container? && n.isObject && WellFormed(n)
    requires BraceFree(before) && BraceFree(after) && FenceSpares(before, Render(n, true), after)
    ensures var content := before + Render(n, true) + after;
            RepairJson(true, accepts, content) ==
              if !ValidJson(accepts, content) && AtMostOne(n) then (Render(n, false), true) else (content, false)
  {
    RenderedObjectText(n, true);
    RenderedObjectText(n, false);
    RepairDropsTheLastCommas(n);
    RepairedTextIsJsonIff(n);
    var dirty, clean := Render(n, true), Render(n, false);
    hide Render, StripToJsonObject, Scan, IsJson, TrimSpace, ObjectText, FenceSpares, AtMostOne, WellFormed;
    StripFindsTheObjectIff(before, dirty, after);
    ObjectIsTrimmed(clean);
  }

  method Repair(enabled: bool, accepts: string -> bool, content: string) returns (repaired: string, ok: bool)
    ensures (repaired, ok) == RepairJson(enabled, accepts, content)
  {
    if !enabled {
      return content, false;
    }
    if ValidJson(accepts, content) {
      return content, false;
    }
    repaired := StripToJsonObject(content);
    repaired := RemoveTrailingCommas(repaired);
    if !ValidJson(accepts, repaired) {
      return content, false;
    }
    ok := true;
  }
}
