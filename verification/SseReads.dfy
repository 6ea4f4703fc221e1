/**
 When the boundaries of the reads show in what the web client processes (web/app.js).

 Every read normalises the whole buffer again, so carriage returns before a line feed wear
 away one by one. The module gives the exact condition for that to stay without effect.
 */
module SseReads {

  import opened Text
  import opened Sse

  // ---- When the reads show in what is processed --------------------------------------------------

  /** Without the carriage returns that stand before a line feed, however many. */
  function Eroded(s: string): string {
    if s == "" then ""
    else
      var t := Eroded(s[1..]);
      if s[0] == '\r' && StartsWithLf(t) then t else [s[0]] + t
  }

  predicate AllSpace(s: string) {
    forall i :: 0 <= i < |s| ==> JsSpace(s[i])
  }

  /** The text splits into whole blocks free of CRCRLF and a blank rest that cannot become a blank line. */
  ghost predicate QuietAfter(s: string, k: int) {
    && 0 <= k <= |s|
    && !HasCrCrLf(s[..k]) && Split(Normalize(s[..k])).rest == ""
    && AllSpace(s[k..]) && Boundary(Eroded(s[k..])).None?
  }

  ghost predicate Quiet(s: string) {
    !HasCrCrLf(s) || exists k :: QuietAfter(s, k)
  }

  lemma {:induction false} TrimStartIsEmptyIff(s: string)
    ensures TrimStart(s) == "" <==> AllSpace(s)
  {
    if s != "" {
      TrimStartIsEmptyIff(s[1..]);
      assert AllSpace(s) <==> JsSpace(s[0]) && AllSpace(s[1..]) by {
        hide JsSpace;
        assert s == [s[0]] + s[1..];
      }
    }
  }

  lemma {:induction false} TrimEndIsEmptyIff(s: string)
    ensures TrimEnd(s) == "" <==> AllSpace(s)
  {
    if s != "" {
      TrimEndIsEmptyIff(s[..|s| - 1]);
    }
  }

  lemma {:induction false} TrimStartKeeps(s: string)
    ensures AllSpace(TrimStart(s)) <==> AllSpace(s)
  {
    if s != "" && JsSpace(s[0]) {
      TrimStartKeeps(s[1..]);
      hide JsSpace;
      assert s == [s[0]] + s[1..];
    }
  }

  lemma TrimIsEmptyIff(s: string)
    ensures Trim(s) == "" <==> AllSpace(s)
  {
    TrimEndIsEmptyIff(TrimStart(s));
    TrimStartKeeps(s);
  }

  // Erosion is what normalising over and over comes to.

  lemma {:induction false} ErodedNormalized(s: string)
    ensures Eroded(Normalize(s)) == Eroded(s)
    decreases |s|
  {
    if s != "" {
      var k := if CrLfAt(s, 0) then 2 else 1;
      NormalizeHead(s, k);
      ErodedNormalized(s[k..]);
      var n := Normalize(s[k..]);
      hide Normalize;
      if k == 2 {
        DropFirst('\n', n);
        assert s[1..][1..] == s[2..] && s[1..][0] == '\n';
        assert Eroded(s[1..]) == ['\n'] + Eroded(s[2..]);
      } else {
        DropFirst(s[0], n);
      }
    }
  }

  lemma {:induction false} ErodedPieces(a: string, b: string)
    ensures Eroded(Eroded(a) + b) == Eroded(a + b)
  {
    if a == "" {
      assert a + b == b;
    } else {
      ErodedPieces(a[1..], b);
      var t := Eroded(a[1..]);
      assert (a + b)[1..] == a[1..] + b;
      if a[0] == '\r' && StartsWithLf(t) {
        ErodedKeepsLf(t + b);
      } else {
        assert ([a[0]] + t + b)[1..] == t + b;
      }
    }
  }

  lemma ErodedKeepsLf(s: string)
    requires StartsWithLf(s)
    ensures StartsWithLf(Eroded(s))
  {
  }

  lemma {:induction false} ErodedKeepsBlankLines(s: string, i: int)
    requires BlankLineAt(s, i)
    ensures Boundary(Eroded(s)).Some?
  {
    BoundaryFacts(Eroded(s));
    if i == 0 {
      ErodedKeepsLf(s[1..]);
      assert BlankLineAt(Eroded(s), 0);
    } else {
      ErodedKeepsBlankLines(s[1..], i - 1);
      BoundaryFacts(Eroded(s[1..]));
      var j := Boundary(Eroded(s[1..])).value;
      assert BlankLineAt(Eroded(s), if Eroded(s) == Eroded(s[1..]) then j else j + 1);
    }
  }

  /** No blank line comes out of a beginning, if none comes out of the whole. */
  lemma ErodedPrefix(a: string, b: string)
    requires Boundary(Eroded(a + b)).None?
    ensures Boundary(Eroded(a)).None?
  {
    ErodedPieces(a, b);
    BoundaryFacts(Eroded(a));
    if Boundary(Eroded(a)).Some? {
      var i := Boundary(Eroded(a)).value;
      assert BlankLineAt(Eroded(a) + b, i);
      ErodedKeepsBlankLines(Eroded(a) + b, i);
    }
  }

  lemma NotErodedToBlankLine(s: string)
    requires Boundary(Eroded(s)).None?
    ensures Boundary(s).None?
  {
    BoundaryFacts(s);
    if Boundary(s).Some? {
      ErodedKeepsBlankLines(s, Boundary(s).value);
    }
  }

  lemma {:induction false} ErodedIsSpace(s: string)
    ensures AllSpace(Eroded(s)) <==> AllSpace(s)
  {
    if s != "" {
      ErodedIsSpace(s[1..]);
      assert JsSpace('\r');
      assert s == [s[0]] + s[1..];
      hide JsSpace, AllSpace;
      AllSpaceHead(s[0], s[1..]);
      AllSpaceHead(s[0], Eroded(s[1..]));
    }
  }

  lemma AllSpaceHead(c: char, s: string)
    ensures AllSpace([c] + s) <==> JsSpace(c) && AllSpace(s)
  {
    hide JsSpace;
    assert ([c] + s)[0] == c && forall i :: 0 <= i < |s| ==> ([c] + s)[i + 1] == s[i];
    if AllSpace([c] + s) {
      forall i | 0 <= i < |s| ensures JsSpace(s[i]) {
        assert JsSpace(([c] + s)[i + 1]);
      }
    }
  }

  lemma {:induction false} NothingToErode(s: string)
    requires !HasCrLf(s)
    ensures Eroded(s) == s
  {
    if s != "" {
      assert !CrLfAt(s, 0);
      forall i: nat ensures !CrLfAt(s[1..], i) {
        assert CrLfAt(s[1..], i) ==> CrLfAt(s, i + 1);
      }
      NothingToErode(s[1..]);
    }
  }

  // A quiet text is processed the same way, however it is read.

  /** Past k the buffer holds what erosion may have left of the text read since. */
  ghost predicate QuietlyRead(chunks: seq<string>, k: nat, blocks: seq<string>) {
    var a, c := Concat(chunks), Consume(chunks);
    k <= |a| && c.blocks == blocks && Eroded(c.rest) == Eroded(a[k..])
  }

  lemma {:induction false} QuietReads(s: string, k: nat, chunks: seq<string>, rest: string)
    requires QuietAfter(s, k) && Concat(chunks) + rest == s
    ensures |Concat(chunks)| <= k ==> Consume(chunks) == Split(Normalize(Concat(chunks)))
    ensures |Concat(chunks)| >= k ==> QuietlyRead(chunks, k, Split(Normalize(s[..k])).blocks)
    decreases |chunks|
  {
    var a := Concat(chunks);
    if |a| <= k {
      assert s[..k] == a + s[|a|..k];
      BeginningHasNone(a, s[|a|..k]);
      ChunkingDoesNotMatter(chunks);
      if |a| == k {
        assert a == s[..k] && a[k..] == "";
      }
    } else {
      var before, last := chunks[..|chunks| - 1], chunks[|chunks| - 1];
      assert a == Concat(before) + last;
      assert Concat(before) + (last + rest) == s;
      QuietReads(s, k, before, last + rest);
      if |Concat(before)| >= k {
        QuietStep(s, k, before, last, rest);
      } else {
        CrossingStep(s, k, before, last, rest);
      }
    }
  }

  lemma QuietStep(s: string, k: nat, before: seq<string>, last: string, rest: string)
    requires QuietAfter(s, k) && Concat(before) + last + rest == s
    requires QuietlyRead(before, k, Split(Normalize(s[..k])).blocks)
    ensures QuietlyRead(before + [last], k, Split(Normalize(s[..k])).blocks)
  {
    hide Split, Eroded, AllSpace;
    var a, e := Concat(before), Consume(before).rest;
    OneMoreRead(before, last);
    var n := Normalize(e + last);
    ErodedNormalized(e + last);
    ErodedPieces(e, last);
    ErodedPieces(a[k..], last);
    assert (a + last)[k..] == a[k..] + last;
    assert s[k..] == a[k..] + last + rest;
    ErodedPrefix(a[k..] + last, rest);
    NotErodedToBlankLine(n);
    SplitHead(n);
    assert Consume(before).blocks + [] == Consume(before).blocks;
  }

  lemma CrossingStep(s: string, k: nat, before: seq<string>, last: string, rest: string)
    requires QuietAfter(s, k) && Concat(before) + last + rest == s
    requires |Concat(before)| < k < |Concat(before) + last|
    requires Consume(before) == Split(Normalize(Concat(before)))
    ensures QuietlyRead(before + [last], k, Split(Normalize(s[..k])).blocks)
  {
    hide Split, Eroded, AllSpace, Normalize;
    var a := Concat(before);
    var z := (a + last)[k..];
    OneMoreRead(before, last);
    assert a + last == s[..k] + z && s[k..] == z + rest;
    assert s[..k] == a + s[|a|..k];
    BeginningHasNone(a, s[|a|..k]);
    Resume(a, last);
    Resume(s[..k], z);
    assert "" + z == z;
    var n := Normalize(z);
    ErodedNormalized(z);
    ErodedPrefix(z, rest);
    NotErodedToBlankLine(n);
    SplitHead(n);
  }

  lemma OneMoreRead(before: seq<string>, last: string)
    ensures Concat(before + [last]) == Concat(before) + last
    ensures var c := Consume(before);
            var next := Split(Normalize(c.rest + last));
            Consume(before + [last]) == Cut(c.blocks + next.blocks, next.rest)
  {
    assert (before + [last])[..|before|] == before;
  }

  lemma QuietIsProcessedAlike(s: string, k: nat, chunks: seq<string>)
    requires QuietAfter(s, k) && Concat(chunks) == s
    ensures Processed(Consume(chunks)) == Split(Normalize(s[..k])).blocks
  {
    assert Concat(chunks) + "" == s;
    QuietReads(s, k, chunks, "");
    var e := Consume(chunks).rest;
    ErodedIsSpace(s[k..]);
    ErodedIsSpace(e);
    TrimIsEmptyIff(e);
    hide Split, Normalize, Consume, Eroded, Trim, AllSpace;
    var blocks := Split(Normalize(s[..k])).blocks;
    assert blocks + [] == blocks;
  }

  // A text that is not quiet is processed differently for some reads.

  /** A text cut at its first CRCRLF: what the first part leaves in the buffer, and both continuations. */
  lemma FirstCrCrLf(s: string, p: nat) returns (blocks: seq<string>, q: string, m: string, k: nat)
    requires CrCrLfAt(s, p) && forall i: nat :: i < p ==> !CrCrLfAt(s, i)
    ensures Boundary(q + "\r").None?
    ensures Consume([s[..p + 3], s[p + 3..]]) == CutAfter(blocks, q + "\n" + m)
    ensures Split(Normalize(s)) == CutAfter(blocks, q + "\r\n" + m)
    ensures k <= |s| && !HasCrCrLf(s[..k]) && Split(Normalize(s[..k])) == Cut(blocks, "")
    ensures Normalize(s[k..]) == q + "\r\n" + m
  {
    hide Split, Normalize, Joined, Clean, Boundary, CrCrLfAt;
    LettersAt(s, p);
    var a, b, h := s[..p + 3], s[p + 3..], s[..p + 1];
    assert s == a + b;
    NoneInPrefix(s, p, p + 1);
    var c := Split(Normalize(h));
    blocks, m := c.blocks, Normalize(b);
    var u := Joined(blocks);
    SplitIsFaithful(Normalize(h));
    JoinedEndsInLf(blocks);
    NormalizeKeepsEnd(h);
    EndOfPair(u, c.rest);
    q := c.rest[..|c.rest| - 1];
    assert c.rest == q + "\r";
    PartOfNormalized(h, u, q);
    TextAround(h, u, q, b, s);
    ReadsAround(a, b, blocks, q);
    SplitAfterBlocks(blocks, q + "\r\n" + m);
    k := RawEnd(h, u, c.rest);
    assert h[..k] == s[..k];
    NoneInPrefix(s, p, k);
    TailAfterBlocks(s, k, blocks, q + "\r\n" + m);
  }

  lemma EndOfPair(u: string, r: string)
    requires EndsWithCr(u + r) && !EndsWithCr(u)
    ensures EndsWithCr(r)
  {
    assert r == "" ==> u + r == u;
  }

  lemma BeginningHasNone(a: string, b: string)
    requires !HasCrCrLf(a + b)
    ensures !HasCrCrLf(a)
  {
    forall i: nat ensures !CrCrLfAt(a, i) {
      assert CrCrLfAt(a, i) ==> CrCrLfAt(a + b, i);
    }
  }

  lemma LettersAt(s: string, p: nat)
    requires CrCrLfAt(s, p)
    ensures p + 3 <= |s| && s[..p + 3] == s[..p + 1] + "\r\n" && EndsWithCr(s[..p + 1])
  {
  }

  lemma NoneInPrefix(s: string, p: nat, k: nat)
    requires CrCrLfAt(s, p) && (forall i: nat :: i < p ==> !CrCrLfAt(s, i)) && k <= p + 1
    ensures k <= |s| && !HasCrCrLf(s[..k])
  {
    forall i: nat ensures !CrCrLfAt(s[..k], i) {
      assert CrCrLfAt(s[..k], i) ==> CrCrLfAt(s, i) && i < p;
    }
  }

  lemma TailAfterBlocks(s: string, k: nat, blocks: seq<string>, tail: string)
    requires k <= |s| && Normalize(s[..k]) == Joined(blocks) && Normalize(s) == Joined(blocks) + tail
    requires forall i :: 0 <= i < |blocks| ==> Clean(blocks[i])
    ensures Normalize(s[k..]) == tail && Split(Normalize(s[..k])) == Cut(blocks, "")
  {
    hide Split, Normalize, Joined, Clean;
    var u := Joined(blocks);
    SplitAfterBlocks(blocks, "");
    NothingToSplit();
    assert u + "" == u && blocks + [] == blocks;
    JoinedEndsInLf(blocks);
    NormalizeKeepsEnd(s[..k]);
    NormalizeSplits(s[..k], s[k..]);
    assert s == s[..k] + s[k..];
    SameTail(u, Normalize(s[k..]), tail);
  }

  function CutAfter(blocks: seq<string>, text: string): Cut {
    Cut(blocks + Split(text).blocks, Split(text).rest)
  }

  lemma SameTail(u: string, x: string, y: string)
    requires u + x == u + y
    ensures x == y
  {
    assert (u + x)[|u|..] == x && (u + y)[|u|..] == y;
  }

  lemma NothingToSplit()
    ensures Split("") == Cut([], "")
  {
  }

  /** A beginning of a normalised text is the normal form of a beginning. */
  lemma {:induction false} RawEnd(h: string, u: string, r: string) returns (k: nat)
    requires Normalize(h) == u + r
    ensures k <= |h| && Normalize(h[..k]) == u && Normalize(h[k..]) == r
    decreases |h|
  {
    if u == "" {
      k := 0;
      assert h[..0] == "" && h[0..] == h && "" + r == r;
    } else {
      hide Normalize;
      NothingNormalized();
      var n := if CrLfAt(h, 0) then 2 else 1;
      NormalizeHead(h, n);
      var c := if n == 2 then '\n' else h[0];
      assert [c] + Normalize(h[n..]) == u + r;
      var tail := Normalize(h[n..]);
      assert ([c] + tail)[0] == c && ([c] + tail)[1..] == tail;
      assert (u + r)[0] == u[0] && (u + r)[1..] == u[1..] + r;
      var j := RawEnd(h[n..], u[1..], r);
      k := n + j;
      NormalizeHead(h[..k], n);
      assert h[..k][n..] == h[n..][..j] && h[k..] == h[n..][j..];
    }
  }

  lemma NothingNormalized()
    ensures Normalize("") == ""
  {
  }

  /** What a part of a normalised text is normalised to is itself. */
  lemma PartOfNormalized(h: string, u: string, q: string)
    requires !HasCrCrLf(h) && Normalize(h) == u + (q + "\r")
    ensures Normalize(q) == q
  {
    NormalizedHasNoCrLf(h);
    var n := Normalize(h);
    hide Normalize;
    assert forall i :: 0 <= i < |q| ==> n[|u| + i] == q[i];
    forall i: nat ensures !CrLfAt(q, i) {
      assert CrLfAt(q, i) ==> CrLfAt(n, |u| + i);
    }
    NothingToNormalize(q);
  }

  lemma TextAround(h: string, u: string, q: string, b: string, s: string)
    requires Normalize(h) == u + (q + "\r") && s == h + "\r\n" + b
    ensures Normalize(h + "\r\n") == u + (q + "\r\n")
    ensures Normalize(s) == u + (q + "\r\n" + Normalize(b))
  {
    hide Normalize;
    NormalizeSmall("");
    NormalizeSplits(h, "\r\n");
    NormalizeSplits(h + "\r\n", b);
    Regroup3(u, q + "\r", "\n");
    assert q + "\r" + "\n" == q + "\r\n";
    Regroup3(u, q + "\r\n", Normalize(b));
  }

  lemma ReadsAround(a: string, b: string, blocks: seq<string>, q: string)
    requires (forall i :: 0 <= i < |blocks| ==> Clean(blocks[i])) && Normalize(q) == q && Boundary(q + "\r").None?
    requires Normalize(a) == Joined(blocks) + (q + "\r\n")
    ensures Consume([a, b]) == CutAfter(blocks, q + "\n" + Normalize(b))
  {
    hide Normalize, Split, Boundary, Clean, Joined;
    TwoReads(a, b);
    SplitAfterBlocks(blocks, q + "\r\n");
    NoBoundaryYet(q);
    SplitHead(q + "\r\n");
    assert blocks + [] == blocks;
    Regroup3(q, "\r\n", b);
    NormalizeSplits(q, "\r\n" + b);
    NormalizeSmall(b);
    Regroup3(q, "\n", Normalize(b));
  }

  lemma NoBoundaryYet(q: string)
    requires Boundary(q + "\r").None?
    ensures Boundary(q + "\r\n").None?
  {
    var t, u := q + "\r", q + "\r\n";
    BoundaryFacts(t);
    BoundaryFacts(u);
    assert forall i :: 0 <= i < |t| ==> u[i] == t[i];
    forall i: nat ensures !BlankLineAt(u, i) {
      assert BlankLineAt(u, i) ==> BlankLineAt(t, i);
    }
  }

  /** With a CR less the first block is shorter, unless there is none and nothing to process. */
  lemma OneCrLess(q: string, m: string)
    requires Boundary(q + "\r").None?
    ensures Processed(Split(q + "\n" + m)) == Processed(Split(q + "\r\n" + m)) ==>
              Boundary(q + "\r\n" + m).None? && AllSpace(q + "\r\n" + m)
  {
    var x, y := q + "\n" + m, q + "\r\n" + m;
    SplitHead(x);
    SplitHead(y);
    BoundaryOfShorter(q, m);
    TrimIsEmptyIff(x);
    TrimIsEmptyIff(y);
    hide Split, Boundary, Trim, AllSpace;
    if Boundary(y).Some? {
      assert |Processed(Split(x))[0]| < |Processed(Split(y))[0]|;
    } else if Trim(y) != "" {
      assert Processed(Split(y)) == [y];
      assert Boundary(x).Some? ==> |Processed(Split(x))[0]| < |y|;
      assert Boundary(x).None? && Trim(x) != "" ==> Processed(Split(x)) == [x];
      assert Boundary(x).None? && Trim(x) == "" ==> Processed(Split(x)) == [];
    }
  }

  lemma BoundaryOfShorter(q: string, m: string)
    requires Boundary(q + "\r").None?
    ensures var x, y := Boundary(q + "\n" + m), Boundary(q + "\r\n" + m);
            y.Some? ==> x.Some? && x.value < y.value
  {
    var t, x, y := q + "\r", q + "\n" + m, q + "\r\n" + m;
    BoundaryFacts(t);
    BoundaryFacts(x);
    BoundaryFacts(y);
    hide Boundary;
    assert forall i :: 0 <= i < |t| ==> y[i] == t[i];
    assert forall i :: |t| <= i < |y| ==> y[i] == x[i - 1];
    assert y[|t| - 1] == '\r';
    forall i: nat ensures i + 1 < |t| ==> !BlankLineAt(y, i) {
      assert BlankLineAt(y, i) && i + 1 < |t| ==> BlankLineAt(t, i);
    }
    var r := Boundary(y);
    if r.Some? {
      assert BlankLineAt(x, r.value - 1);
    }
  }

  function Empties(n: nat): (r: seq<string>)
    ensures |r| == n
  {
    if n == 0 then [] else Empties(n - 1) + [""]
  }

  lemma {:induction false} ConcatEmpties(chunks: seq<string>, n: nat)
    ensures Concat(chunks + Empties(n)) == Concat(chunks)
  {
    if n == 0 {
      assert chunks + [] == chunks;
    } else {
      ConcatEmpties(chunks, n - 1);
      assert chunks + Empties(n) == chunks + Empties(n - 1) + [""];
      OneMoreRead(chunks + Empties(n - 1), "");
    }
  }

  /** Reads that bring nothing still erode the buffer, down to a blank line if there is one in it. */
  lemma {:induction false} EmptyReadsErode(chunks: seq<string>) returns (n: nat)
    requires var r := Consume(chunks).rest; Boundary(r).None? && Boundary(Eroded(r)).Some?
    ensures |Consume(chunks + Empties(n)).blocks| > |Consume(chunks).blocks|
    decreases |Consume(chunks).rest|
  {
    hide Consume, Split, Normalize, Eroded, Boundary, HasCrLf, Empties;
    OneEmptyRead(chunks);
    var more := chunks + [""];
    if |Consume(more).blocks| > |Consume(chunks).blocks| {
      n := 1;
      EmptiesFirst(0);
      assert chunks + ([""] + Empties(0)) == more;
    } else {
      var j := EmptyReadsErode(more);
      n := j + 1;
      EmptiesFirst(j);
      assert chunks + ([""] + Empties(j)) == more + Empties(j);
    }
  }

  /** One empty read normalises the buffer again: it cuts a block off, or leaves less to erode. */
  lemma OneEmptyRead(chunks: seq<string>)
    requires var r := Consume(chunks).rest; Boundary(r).None? && Boundary(Eroded(r)).Some?
    ensures var c, d := Consume(chunks), Consume(chunks + [""]);
            |d.blocks| > |c.blocks|
            || (d.blocks == c.blocks && |d.rest| < |c.rest| && Boundary(d.rest).None? && Boundary(Eroded(d.rest)).Some?)
  {
    var c := Consume(chunks);
    OneMoreRead(chunks, "");
    assert c.rest + "" == c.rest;
    var t := Normalize(c.rest);
    ErodedNormalized(c.rest);
    NormalizeShortens(c.rest);
    if !HasCrLf(c.rest) {
      NothingToErode(c.rest);
    }
    hide Consume, Normalize, Eroded, HasCrLf;
    SplitHead(t);
    hide Split, Boundary;
    assert c.blocks + [] == c.blocks;
  }

  lemma {:induction false} EmptiesFirst(n: nat)
    ensures Empties(n + 1) == [""] + Empties(n)
  {
    if n > 0 {
      EmptiesFirst(n - 1);
      assert Empties(n + 1) == Empties(n) + [""];
    }
  }

  lemma {:induction false} NormalizeShortens(s: string)
    ensures |Normalize(s)| <= |s|
    ensures HasCrLf(s) ==> |Normalize(s)| < |s|
    decreases |s|
  {
    if s != "" {
      var k := if CrLfAt(s, 0) then 2 else 1;
      NormalizeHead(s, k);
      NormalizeShortens(s[k..]);
      hide Normalize;
      if i: nat :| CrLfAt(s, i) {
        assert k == 1 ==> CrLfAt(s[1..], i - 1);
      }
    }
  }

  /** The exact condition, for the blocks that are processed: whatever the reads, they are the same. */
  lemma ProcessedAlikeIffQuiet(s: string)
    ensures (forall chunks: seq<string> :: Concat(chunks) == s ==> Processed(Consume(chunks)) == Processed(Split(Normalize(s))))
       <==> Quiet(s)
  {
    hide Concat, Consume, Split, Normalize, Processed, QuietAfter;
    if Quiet(s) {
      forall chunks: seq<string> | Concat(chunks) == s
        ensures Processed(Consume(chunks)) == Processed(Split(Normalize(s)))
      {
        QuietMeansAlike(s, chunks);
      }
    } else {
      var chunks := LoudReads(s);
      assert Concat(chunks) == s && Processed(Consume(chunks)) != Processed(Split(Normalize(s)));
    }
  }

  lemma OneRead(s: string)
    ensures Concat([s]) == s && Consume([s]) == Split(Normalize(s))
  {
    OneMoreRead([], s);
    assert [] + [s] == [s] && "" + s == s;
    var c := Split(Normalize(s));
    assert [] + c.blocks == c.blocks;
  }

  lemma QuietMeansAlike(s: string, chunks: seq<string>)
    requires Quiet(s) && Concat(chunks) == s
    ensures Processed(Consume(chunks)) == Processed(Split(Normalize(s)))
  {
    OneRead(s);
    hide Concat, Consume, Split, Normalize, Processed, Eroded, AllSpace;
    if !HasCrCrLf(s) {
      ChunkingDoesNotMatter(chunks);
    } else {
      var k :| QuietAfter(s, k);
      QuietIsProcessedAlike(s, k, chunks);
      QuietIsProcessedAlike(s, k, [s]);
    }
  }

  lemma FirstSuch(s: string) returns (p: nat)
    requires HasCrCrLf(s)
    ensures CrCrLfAt(s, p) && forall i: nat :: i < p ==> !CrCrLfAt(s, i)
  {
    p := 0;
    while !CrCrLfAt(s, p)
      invariant forall i: nat :: i < p ==> !CrCrLfAt(s, i)
      invariant p <= |s|
      decreases |s| - p
    {
      p := p + 1;
    }
  }

  /** Reads that show: a cut after the first CRCRLF, or the whole text and then nothing for long enough. */
  lemma LoudReads(s: string) returns (chunks: seq<string>)
    requires !Quiet(s)
    ensures Concat(chunks) == s && Processed(Consume(chunks)) != Processed(Split(Normalize(s)))
  {
    hide Concat, Consume, Split, Normalize, Processed, QuietAfter, Boundary, AllSpace, Joined;
    var p := FirstSuch(s);
    var blocks, q, m, k := FirstCrCrLf(s, p);
    var a, b := s[..p + 3], s[p + 3..];
    TwoReads(a, b);
    assert a + b == s;
    OneCrLess(q, m);
    ProcessedAfter(blocks, q + "\n" + m);
    ProcessedAfter(blocks, q + "\r\n" + m);
    var x, y := Processed(Split(q + "\n" + m)), Processed(Split(q + "\r\n" + m));
    if x == y {
      chunks := EmptyReadsShow(s, blocks, q + "\r\n" + m, k);
    } else {
      chunks := [a, b];
      OtherTails(blocks, x, y);
    }
  }

  lemma OtherTails(a: seq<string>, x: seq<string>, y: seq<string>)
    requires x != y
    ensures a + x != a + y
  {
    assert (a + x)[|a|..] == x && (a + y)[|a|..] == y;
  }

  lemma ProcessedAfter(blocks: seq<string>, text: string)
    ensures Processed(CutAfter(blocks, text)) == blocks + Processed(Split(text))
  {
    hide Split, Trim;
    var c := Split(text);
    assert blocks + c.blocks + [c.rest] == blocks + (c.blocks + [c.rest]);
    assert blocks + c.blocks + [] == blocks + (c.blocks + []);
  }

  lemma EmptyReadsShow(s: string, blocks: seq<string>, rest: string, k: nat) returns (chunks: seq<string>)
    requires !Quiet(s) && AllSpace(rest) && Boundary(rest).None?
    requires Split(Normalize(s)) == CutAfter(blocks, rest)
    requires k <= |s| && !HasCrCrLf(s[..k]) && Split(Normalize(s[..k])) == Cut(blocks, "") && Normalize(s[k..]) == rest
    ensures Concat(chunks) == s && Processed(Consume(chunks)) != Processed(Split(Normalize(s)))
  {
    OneRead(s);
    SplitHead(rest);
    ErodedNormalized(s[k..]);
    ErodedIsSpace(s[k..]);
    ErodedIsSpace(rest);
    TrimIsEmptyIff(rest);
    hide Split, Normalize, Consume, Concat, Eroded, AllSpace, Trim;
    assert blocks + [] == blocks;
    assert Consume([s]) == Cut(blocks, rest);
    assert !QuietAfter(s, k);
    var n := EmptyReadsErode([s]);
    chunks := [s] + Empties(n);
    ConcatEmpties([s], n);
    assert Processed(Cut(blocks, rest)) == blocks;
    assert |Processed(Consume(chunks))| > |blocks|;
  }
}
