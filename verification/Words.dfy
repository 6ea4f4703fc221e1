/**
 The words of a text, by position, and what joining them with single blanks comes to: the
 folding that argument texts and string values undergo before calls are compared.
 */
module Words {

  import opened Text

  /** A maximal run of characters that are no space: from i up to j. */
  predicate IsWord(s: string, i: nat, j: nat) {
    && i < j <= |s|
    && (forall k :: i <= k < j ==> !IsSpace(s[k]))
    && (i > 0 ==> IsSpace(s[i - 1]))
    && (j < |s| ==> IsSpace(s[j]))
  }

  predicate StartsWord(s: string, i: nat) {
    i < |s| && !IsSpace(s[i]) && (i > 0 ==> IsSpace(s[i - 1]))
  }

  /** The first position from i on that holds a space, or the end. */
  function WordEnd(s: string, i: nat): (j: nat)
    requires i <= |s|
    ensures i <= j <= |s|
    ensures forall k :: i <= k < j ==> !IsSpace(s[k])
    ensures j < |s| ==> IsSpace(s[j])
    decreases |s| - i
  {
    if i == |s| || IsSpace(s[i]) then i else WordEnd(s, i + 1)
  }

  /** The words that start at i or later, in order. */
  function WordsFrom(s: string, i: nat): seq<string>
    requires i <= |s|
    decreases |s| - i
  {
    if i == |s| then []
    else if StartsWord(s, i) then [s[i..WordEnd(s, i)]] + WordsFrom(s, i + 1)
    else WordsFrom(s, i + 1)
  }

  function WordsOf(s: string): seq<string> {
    WordsFrom(s, 0)
  }

  lemma WordEndsOnce(s: string, i: nat)
    requires StartsWord(s, i)
    ensures IsWord(s, i, WordEnd(s, i))
    ensures forall j: nat :: IsWord(s, i, j) ==> j == WordEnd(s, i)
  {
    forall j: nat | IsWord(s, i, j) ensures j == WordEnd(s, i) {
      EndAt(s, i, j);
    }
  }

  /** Where words start, from i on, in order. */
  function Starts(s: string, i: nat): (starts: seq<nat>)
    requires i <= |s|
    ensures forall k :: 0 <= k < |starts| ==> starts[k] >= i
    decreases |s| - i
  {
    if i == |s| then []
    else (if StartsWord(s, i) then [i] else []) + Starts(s, i + 1)
  }

  predicate IsRun(s: string, i: nat, word: string) {
    IsWord(s, i, i + |word|) && word == s[i..i + |word|]
  }

  /** The words are all the maximal runs, each once, in the order in which they stand. */
  lemma WordsAreTheMaximalRuns(s: string)
    ensures var starts := Starts(s, 0);
            && |WordsOf(s)| == |starts|
            && (forall k :: 0 <= k < |starts| ==> IsRun(s, starts[k], WordsOf(s)[k]))
            && (forall k, l :: 0 <= k < l < |starts| ==> starts[k] < starts[l])
            && (forall i: nat, j: nat :: IsWord(s, i, j) ==> i in starts)
  {
    RunsFrom(s, 0);
    forall i: nat, j: nat | IsWord(s, i, j) ensures i in Starts(s, 0) {
      EveryStartIsListed(s, 0, i);
    }
  }

  lemma {:induction false} RunsFrom(s: string, i: nat)
    requires i <= |s|
    ensures var starts, words := Starts(s, i), WordsFrom(s, i);
            && |words| == |starts|
            && (forall k :: 0 <= k < |starts| ==> IsRun(s, starts[k], words[k]))
            && (forall k, l :: 0 <= k < l < |starts| ==> starts[k] < starts[l])
    decreases |s| - i
  {
    if i < |s| {
      RunsFrom(s, i + 1);
      if StartsWord(s, i) {
        WordEndsOnce(s, i);
        assert IsRun(s, i, s[i..WordEnd(s, i)]);
      }
      hide IsRun, StartsWord;
    }
  }

  lemma {:induction false} EveryStartIsListed(s: string, i: nat, j: nat)
    requires i <= j <= |s| && StartsWord(s, j)
    ensures j in Starts(s, i)
    decreases j - i
  {
    if i < j {
      EveryStartIsListed(s, i + 1, j);
    }
  }

  // ---- strings.Fields -----------------------------------------------------------------------

  lemma {:induction false} NoneStartWithin(s: string, i: nat, j: nat)
    requires i <= j <= |s| && forall k :: i <= k < j ==> !StartsWord(s, k)
    ensures WordsFrom(s, i) == WordsFrom(s, j)
    decreases j - i
  {
    if i < j {
      NoneStartWithin(s, i + 1, j);
    }
  }

  /** Words after a break are the words of what comes after it. */
  lemma {:induction false} WordsAfterBreak(s: string, m: nat, i: nat)
    requires m <= i <= |s| && (m == 0 || IsSpace(s[m - 1]) || m == |s| || IsSpace(s[m]))
    ensures WordsFrom(s, i) == WordsFrom(s[m..], i - m)
    decreases |s| - i
  {
    if i < |s| {
      WordsAfterBreak(s, m, i + 1);
      var t := s[m..];
      assert forall k :: 0 <= k < |t| ==> t[k] == s[m + k];
      assert StartsWord(s, i) <==> StartsWord(t, i - m);
      if StartsWord(s, i) {
        WordEndAfter(s, m, i);
        assert s[i..WordEnd(s, i)] == t[i - m..WordEnd(t, i - m)];
      }
    }
  }

  lemma {:induction false} WordEndAfter(s: string, m: nat, i: nat)
    requires m <= i <= |s|
    ensures WordEnd(s, i) == WordEnd(s[m..], i - m) + m
    decreases |s| - i
  {
    if i < |s| {
      assert s[m..][i - m] == s[i];
      WordEndAfter(s, m, if IsSpace(s[i]) then |s| else i + 1);
    }
  }

  lemma {:induction false} WordLengthIsEnd(s: string)
    ensures WordEnd(s, 0) == WordLength(s)
  {
    if s != "" && !IsSpace(s[0]) {
      WordLengthIsEnd(s[1..]);
      WordEndAfter(s, 1, 1);
    }
  }

  /** strings.Fields gives the words. */
  lemma {:induction false} FieldsAreWords(s: string)
    ensures Fields(s) == WordsOf(s)
    decreases |s|
  {
    var t := TrimLeft(s);
    var k := |s| - |t|;
    TrimLeftKeeps(s);
    NoneStartWithin(s, 0, k);
    if t != "" {
      var n := WordLength(t);
      FieldsAreWords(t[n..]);
      WordsAfterBreak(s, k, k);
      WordLengthIsEnd(t);
      assert StartsWord(t, 0) && WordEnd(t, 0) == n;
      NoneStartWithin(t, 1, n);
      WordsAfterBreak(t, n, n);
      assert t[0..n] == t[..n];
    }
  }

  // ---- Joining ------------------------------------------------------------------------------

  predicate IsPlainWord(w: string) {
    w != "" && forall k :: 0 <= k < |w| ==> !IsSpace(w[k])
  }

  predicate PlainWords(ws: seq<string>) {
    forall i :: 0 <= i < |ws| ==> IsPlainWord(ws[i])
  }

  lemma {:induction false} WordsArePlain(s: string, i: nat)
    requires i <= |s|
    ensures PlainWords(WordsFrom(s, i))
    decreases |s| - i
  {
    if i < |s| {
      WordsArePlain(s, i + 1);
      if StartsWord(s, i) {
        assert WordEnd(s, i) > i;
      }
    }
  }

  /** Plain words joined with single blanks are found again. */
  lemma {:induction false} JoinedWords(ws: seq<string>)
    requires PlainWords(ws)
    ensures WordsOf(Join(ws, " ")) == ws
  {
    if ws != [] {
      var w := ws[0];
      var t := Join(ws, " ");
      var rest := if |ws| == 1 then "" else " " + Join(ws[1..], " ");
      assert t == w + rest;
      FirstWord(w, rest);
      if |ws| == 1 {
        assert rest == "" && WordsOf("") == [];
      } else {
        JoinedWords(ws[1..]);
        BlankFirst(Join(ws[1..], " "));
      }
      assert ws == [w] + ws[1..];
    }
  }

  lemma FirstWord(w: string, rest: string)
    requires IsPlainWord(w) && (rest == "" || IsSpace(rest[0]))
    ensures WordsOf(w + rest) == [w] + WordsOf(rest)
  {
    var t := w + rest;
    assert forall k :: 0 <= k < |w| ==> t[k] == w[k];
    assert |w| < |t| ==> t[|w|] == rest[0];
    EndAt(t, 0, |w|);
    assert t[0..|w|] == w && t[|w|..] == rest;
    NoneStartWithin(t, 1, |w|);
    WordsAfterBreak(t, |w|, |w|);
  }

  lemma {:induction false} EndAt(s: string, i: nat, e: nat)
    requires i <= e <= |s| && (e < |s| ==> IsSpace(s[e]))
    requires forall k :: i <= k < e ==> !IsSpace(s[k])
    ensures WordEnd(s, i) == e
    decreases e - i
  {
    if i < e {
      EndAt(s, i + 1, e);
    }
  }

  lemma BlankFirst(s: string)
    ensures WordsOf(" " + s) == WordsOf(s)
  {
    var t := " " + s;
    assert t[1..] == s;
    NoneStartWithin(t, 0, 1);
    WordsAfterBreak(t, 1, 1);
  }

  /** Two texts' words, joined, are the same text exactly when the words are the same. */
  lemma JoinedWordsAlikeIff(s: string, t: string)
    ensures Join(Fields(s), " ") == Join(Fields(t), " ") <==> WordsOf(s) == WordsOf(t)
  {
    FieldsAreWords(s);
    FieldsAreWords(t);
    WordsArePlain(s, 0);
    WordsArePlain(t, 0);
    JoinedWords(WordsOf(s));
    JoinedWords(WordsOf(t));
  }

  // ---- What is kept -------------------------------------------------------------------------

  function NonSpaces(s: string): string {
    if s == "" then "" else (if IsSpace(s[0]) then "" else [s[0]]) + NonSpaces(s[1..])
  }

  /** No outer blank, and no whitespace but single blanks inside. */
  predicate SingleSpaced(s: string) {
    && Trimmed(s)
    && forall i :: 0 <= i < |s| ==> SingleSpacedAt(s, i)
  }

  predicate SingleSpacedAt(s: string, i: nat)
    requires i < |s|
  {
    IsSpace(s[i]) ==> s[i] == ' ' && i + 1 < |s| && !IsSpace(s[i + 1])
  }

  lemma {:induction false} JoinedIsSingleSpaced(ws: seq<string>)
    requires PlainWords(ws)
    ensures SingleSpaced(Join(ws, " "))
    ensures ws != [] ==> Join(ws, " ") != ""
  {
    if ws == [] {
    } else if |ws| == 1 {
      assert IsPlainWord(ws[0]);
    } else {
      JoinedIsSingleSpaced(ws[1..]);
      assert IsPlainWord(ws[0]);
      BlankBetween(ws[0], Join(ws[1..], " "));
    }
  }

  lemma BlankBetween(w: string, s: string)
    requires IsPlainWord(w) && SingleSpaced(s) && s != ""
    ensures SingleSpaced(w + " " + s)
  {
    var t := w + " " + s;
    var n := |w| + 1;
    assert forall k :: 0 <= k < |w| ==> t[k] == w[k];
    assert t[|w|] == ' ' && forall k :: 0 <= k < |s| ==> t[n + k] == s[k];
    assert t[0] == w[0] && t[|t| - 1] == s[|s| - 1];
    forall i | 0 <= i < |t| ensures SingleSpacedAt(t, i) {
      assert i == |w| ==> t[i + 1] == s[0];
      assert i >= n ==> SingleSpacedAt(s, i - n) && t[i] == s[i - n];
      assert n <= i < |t| - 1 ==> t[i + 1] == s[i - n + 1];
    }
  }

  lemma {:induction false} NonSpacesAdd(a: string, b: string)
    ensures NonSpaces(a + b) == NonSpaces(a) + NonSpaces(b)
  {
    if a == "" {
      assert a + b == b;
    } else {
      NonSpacesAdd(a[1..], b);
      assert (a + b)[1..] == a[1..] + b;
    }
  }

  /** Joining the words keeps every character that is no space, in order. */
  lemma {:induction false} FieldsKeepNonSpaces(s: string)
    ensures NonSpaces(Join(Fields(s), " ")) == NonSpaces(s)
    decreases |s|
  {
    var t := TrimLeft(s);
    NonSpacesOfTrimmed(s);
    if t != "" {
      var n := WordLength(t);
      var more := Fields(t[n..]);
      FieldsKeepNonSpaces(t[n..]);
      assert Fields(s) == [t[..n]] + more;
      hide Fields, NonSpaces, Join, TrimLeft, WordLength;
      assert t == t[..n] + t[n..];
      NonSpacesAdd(t[..n], t[n..]);
      JoinHead(t[..n], more);
    }
  }

  lemma NonSpacesOfTrimmed(s: string)
    ensures NonSpaces(s) == NonSpaces(TrimLeft(s))
  {
    if s != "" && IsSpace(s[0]) {
      NonSpacesOfTrimmed(s[1..]);
    }
  }

  lemma JoinHead(w: string, more: seq<string>)
    ensures NonSpaces(Join([w] + more, " ")) == NonSpaces(w) + NonSpaces(Join(more, " "))
  {
    assert ([w] + more)[1..] == more;
    if more == [] {
      assert NonSpaces(Join(more, " ")) == "";
    } else {
      NonSpacesAdd(w + " ", Join(more, " "));
      NonSpacesAdd(w, " ");
      assert NonSpaces(" ") == "" by { assert " "[1..] == ""; }
    }
  }

  /** Folded texts are single-spaced and hold the same characters otherwise. */
  lemma JoinedFieldsShape(s: string)
    ensures SingleSpaced(Join(Fields(s), " "))
    ensures NonSpaces(Join(Fields(s), " ")) == NonSpaces(s)
  {
    FieldsAreWords(s);
    WordsArePlain(s, 0);
    JoinedIsSingleSpaced(WordsOf(s));
    FieldsKeepNonSpaces(s);
  }
}
