/**
 The incremental server-sent-event splitter of the web client (web/app.js).

 Each read appends decoded text to a buffer, rewrites CRLF to LF in it and cuts off the
 blocks that are complete. The module shows when the reads' boundaries cannot be told
 from the result.
 */
module Sse {

  import opened Text

  // ---- Text -----------------------------------------------------------------------------

  /** replace(/\r\n/g, "\n"): one pass from the left. */
  function Normalize(s: string): string
    decreases |s|
  {
    if s == "" then ""
    else if |s| >= 2 && s[0] == '\r' && s[1] == '\n' then "\n" + Normalize(s[2..])
    else [s[0]] + Normalize(s[1..])
  }

  predicate BlankLineAt(s: string, i: int) {
    0 <= i && i + 1 < |s| && s[i] == '\n' && s[i + 1] == '\n'
  }

  /** indexOf("\n\n"), or None. */
  function Boundary(s: string): (r: Option<nat>)
    ensures r.Some? ==> r.value + 1 < |s|
    decreases |s|
  {
    if |s| < 2 then None
    else if BlankLineAt(s, 0) then Some(0)
    else match Boundary(s[1..]) case None => None case Some(i) => Some(i + 1)
  }

  /** The complete blocks of a text, and what is left after the last of them. */
  datatype Cut = Cut(blocks: seq<string>, rest: string)

  function Split(s: string): Cut
    decreases |s|
  {
    match Boundary(s)
    case None => Cut([], s)
    case Some(i) =>
      var more := Split(s[i + 2..]);
      Cut([s[..i]] + more.blocks, more.rest)
  }

  function Concat(chunks: seq<string>): string {
    if chunks == [] then "" else Concat(chunks[..|chunks| - 1]) + chunks[|chunks| - 1]
  }

  /** What the reading loop has cut off and still buffers after these reads. */
  function Consume(chunks: seq<string>): Cut {
    if chunks == [] then Cut([], "")
    else
      var before := Consume(chunks[..|chunks| - 1]);
      var next := Split(Normalize(before.rest + chunks[|chunks| - 1]));
      Cut(before.blocks + next.blocks, next.rest)
  }

  // ---- Normalising in pieces ----------------------------------------------------------------

  predicate EndsWithCr(s: string) {
    s != "" && s[|s| - 1] == '\r'
  }

  predicate StartsWithLf(s: string) {
    s != "" && s[0] == '\n'
  }

  predicate CrLfAt(s: string, i: int) {
    0 <= i && i + 1 < |s| && s[i] == '\r' && s[i + 1] == '\n'
  }

  predicate CrCrLfAt(s: string, i: int) {
    0 <= i && i + 2 < |s| && s[i] == '\r' && s[i + 1] == '\r' && s[i + 2] == '\n'
  }

  ghost predicate HasCrLf(s: string) {
    exists i: nat :: CrLfAt(s, i)
  }

  ghost predicate HasCrCrLf(s: string) {
    exists i: nat :: CrCrLfAt(s, i)
  }

  /** Unless a CRLF straddles the seam, pieces are normalised on their own. */
  lemma {:induction false} NormalizeSplits(a: string, b: string)
    requires !(EndsWithCr(a) && StartsWithLf(b))
    ensures Normalize(a + b) == Normalize(a) + Normalize(b)
    decreases |a|
  {
    if a == "" {
      assert a + b == b;
    } else {
      hide Normalize;
      var k := if CrLfAt(a, 0) then 2 else 1;
      var head, tail := a[..k], a[k..];
      NormalizeSplits(tail, b);
      assert a == head + tail && a + b == head + (tail + b);
      NormalizeHead(a, k);
      NormalizeHead(a + b, k);
      assert (a + b)[k..] == tail + b;
      Regroup3(if k == 2 then "\n" else [a[0]], Normalize(tail), Normalize(b));
    }
  }

  lemma NormalizeHead(s: string, k: nat)
    requires s != "" && k == if CrLfAt(s, 0) then 2 else 1
    ensures Normalize(s) == (if k == 2 then "\n" else [s[0]]) + Normalize(s[k..])
  {
  }

  lemma {:induction false} NormalizeKeepsEnd(a: string)
    ensures EndsWithCr(Normalize(a)) <==> EndsWithCr(a)
    ensures Normalize(a) == "" <==> a == ""
    decreases |a|
  {
    if |a| >= 2 && a[0] == '\r' && a[1] == '\n' {
      NormalizeKeepsEnd(a[2..]);
    } else if a != "" {
      NormalizeKeepsEnd(a[1..]);
    }
  }

  /** A CRLF that straddles the seam costs the first piece its CR. */
  lemma NormalizeAtSeam(a: string, b: string)
    requires EndsWithCr(a) && StartsWithLf(b)
    ensures Normalize(a) != ""
    ensures Normalize(a + b) == Normalize(a)[..|Normalize(a)| - 1] + Normalize(b)
  {
    hide Normalize;
    var head, tail := a[..|a| - 1], b[1..];
    NormalizeSmall(tail);
    NormalizeSplits(head, "\r");
    NormalizeSplits(head, "\r\n" + tail);
    assert a == head + "\r" && b == "\n" + tail;
    assert a + b == head + ("\r\n" + tail);
    var n := Normalize(head);
    assert (n + "\r")[..|n + "\r"| - 1] == n;
  }

  lemma NormalizeSmall(b: string)
    ensures Normalize("\r") == "\r"
    ensures Normalize("\r\n") == "\n"
    ensures Normalize("\r\n" + b) == "\n" + Normalize(b)
    ensures Normalize("\n" + b) == "\n" + Normalize(b)
  {
    assert "\r"[1..] == "" && "\r\n"[2..] == "";
    var crlf := "\r\n" + b;
    assert crlf[0] == '\r' && crlf[1] == '\n' && crlf[2..] == b;
    var lf := "\n" + b;
    assert lf[0] == '\n' && lf[1..] == b;
  }

  lemma {:induction false} NothingToNormalize(s: string)
    requires !HasCrLf(s)
    ensures Normalize(s) == s
    decreases |s|
  {
    if s != "" {
      assert !CrLfAt(s, 0);
      forall i: nat ensures !CrLfAt(s[1..], i) {
        assert CrLfAt(s[1..], i) ==> CrLfAt(s, i + 1);
      }
      NothingToNormalize(s[1..]);
    }
  }

  lemma NormalizeKeepsStart(s: string)
    ensures StartsWithLf(Normalize(s)) <==> StartsWithLf(s) || CrLfAt(s, 0)
  {
  }

  /** Only CRCRLF leaves a CRLF behind. */
  lemma {:induction false} NormalizedHasNoCrLf(s: string)
    requires !HasCrCrLf(s)
    ensures !HasCrLf(Normalize(s))
    decreases |s|
  {
    if s != "" {
      var k := if |s| >= 2 && s[0] == '\r' && s[1] == '\n' then 2 else 1;
      forall i: nat ensures !CrCrLfAt(s[k..], i) {
        assert CrCrLfAt(s[k..], i) ==> CrCrLfAt(s, i + k);
      }
      NormalizedHasNoCrLf(s[k..]);
      var t := Normalize(s[k..]);
      assert Normalize(s) == [Normalize(s)[0]] + t;
      NormalizeKeepsStart(s[1..]);
      assert !CrCrLfAt(s, 0);
      assert !CrLfAt(Normalize(s), 0);
      forall i: nat | i > 0 ensures !CrLfAt(Normalize(s), i) {
        assert CrLfAt(Normalize(s), i) ==> CrLfAt(t, i - 1);
      }
    }
  }

  // ---- Splitting in pieces ----------------------------------------------------------------------

  function Joined(blocks: seq<string>): string {
    if blocks == [] then "" else blocks[0] + "\n\n" + Joined(blocks[1..])
  }

  /** A block whose end is the first blank line after its start. */
  predicate Clean(block: string) {
    Boundary(block + "\n").None?
  }

  lemma {:induction false} BoundaryFacts(s: string)
    ensures var r := Boundary(s);
            && (r.None? ==> forall i: nat :: !BlankLineAt(s, i))
            && (r.Some? ==> BlankLineAt(s, r.value) && forall i: nat :: i < r.value ==> !BlankLineAt(s, i))
    decreases |s|
  {
    if |s| >= 2 && !BlankLineAt(s, 0) {
      BoundaryFacts(s[1..]);
      forall i: nat | BlankLineAt(s, i) ensures i > 0 && BlankLineAt(s[1..], i - 1) {
      }
      forall i: nat | BlankLineAt(s[1..], i) ensures BlankLineAt(s, i + 1) {
      }
    }
  }

  lemma BoundaryIsUnique(s: string, k: nat)
    requires BlankLineAt(s, k) && forall i: nat :: i < k ==> !BlankLineAt(s, i)
    ensures Boundary(s) == Some(k)
  {
    BoundaryFacts(s);
  }

  /** Cutting loses nothing, and every cut is at the first blank line. */
  lemma {:induction false} SplitIsFaithful(s: string)
    ensures var c := Split(s);
            && s == Joined(c.blocks) + c.rest
            && (forall i :: 0 <= i < |c.blocks| ==> Clean(c.blocks[i]))
            && Boundary(c.rest).None?
    decreases |s|
  {
    hide Boundary, Joined, Clean;
    match Boundary(s)
    case None =>
      JoinedStep("", []);
    case Some(i) =>
      var head, tail := s[..i], s[i + 2..];
      CutAtBoundary(s, i);
      SplitIsFaithful(tail);
      var more := Split(tail);
      JoinedStep(head, more.blocks);
      Regroup3(head + "\n\n", Joined(more.blocks), more.rest);
  }

  lemma JoinedStep(head: string, more: seq<string>)
    ensures Joined([]) == ""
    ensures Joined([head] + more) == head + "\n\n" + Joined(more)
  {
    assert ([head] + more)[1..] == more;
  }

  lemma CutAtBoundary(s: string, i: nat)
    requires Boundary(s) == Some(i)
    ensures s == s[..i] + "\n\n" + s[i + 2..]
    ensures Clean(s[..i])
  {
    BoundaryFacts(s);
    var b := s[..i] + "\n";
    BoundaryFacts(b);
    forall k: nat ensures !BlankLineAt(b, k) {
      assert BlankLineAt(b, k) ==> BlankLineAt(s, k);
    }
  }

  /** Blocks that were cut off stay cut off, whatever text follows them. */
  lemma {:induction false} SplitAfterBlocks(blocks: seq<string>, z: string)
    requires forall i :: 0 <= i < |blocks| ==> Clean(blocks[i])
    ensures Split(Joined(blocks) + z) == Cut(blocks + Split(z).blocks, Split(z).rest)
    decreases |blocks|
  {
    hide Boundary, Clean, Joined;
    JoinedStep("", []);
    if blocks == [] {
      assert "" + z == z;
      assert blocks + Split(z).blocks == Split(z).blocks;
    } else {
      var b, more := blocks[0], blocks[1..];
      assert blocks == [b] + more;
      var tail := Joined(more) + z;
      JoinedStep(b, more);
      Regroup3(b + "\n\n", Joined(more), z);
      BoundaryAfterClean(b, tail);
      SplitAfterBlocks(more, z);
      assert [b] + (more + Split(z).blocks) == blocks + Split(z).blocks;
    }
  }

  lemma BoundaryAfterClean(b: string, tail: string)
    requires Clean(b)
    ensures var s := b + "\n\n" + tail; Boundary(s) == Some(|b|) && s[..|b|] == b && s[|b| + 2..] == tail
  {
    var s := b + "\n\n" + tail;
    BoundaryFacts(b + "\n");
    assert BlankLineAt(s, |b|);
    forall i: nat | i < |b| ensures !BlankLineAt(s, i) {
      assert BlankLineAt(s, i) ==> BlankLineAt(b + "\n", i);
    }
    BoundaryIsUnique(s, |b|);
  }

  // ---- Chunking does not matter ----------------------------------------------------------------

  /** A cut-up text continues as the whole text would, once more text arrives. */
  lemma Resume(a: string, b: string)
    requires !HasCrCrLf(a)
    ensures var c, whole := Split(Normalize(a)), Split(Normalize(a + b));
            && whole.blocks == c.blocks + Split(Normalize(c.rest + b)).blocks
            && whole.rest == Split(Normalize(c.rest + b)).rest
  {
    var n := Normalize(a);
    NormalizeTwice(a, b);
    var c := Split(n);
    SplitIsFaithful(n);
    var u := Joined(c.blocks);
    JoinedEndsInLf(c.blocks);
    NormalizedHasNoCrLf(a);
    forall i: nat ensures !CrLfAt(u, i) {
      assert CrLfAt(u, i) ==> CrLfAt(n, i);
    }
    NothingToNormalize(u);
    NormalizeSplits(u, c.rest + b);
    Regroup3(u, c.rest, b);
    SplitAfterBlocks(c.blocks, Normalize(c.rest + b));
  }

  lemma {:induction false} JoinedEndsInLf(blocks: seq<string>)
    ensures !EndsWithCr(Joined(blocks))
    ensures var u := Joined(blocks); u != "" ==> |u| >= 2 && u[|u| - 2] == '\n' && u[|u| - 1] == '\n'
  {
    if blocks != [] {
      JoinedEndsInLf(blocks[1..]);
      var h, t := blocks[0] + "\n\n", Joined(blocks[1..]);
      assert t == "" ==> h + t == h;
    }
  }

  lemma NormalizeTwice(a: string, b: string)
    requires !HasCrCrLf(a)
    ensures Normalize(Normalize(a) + b) == Normalize(a + b)
  {
    var n := Normalize(a);
    NormalizedHasNoCrLf(a);
    NothingToNormalize(n);
    NormalizeKeepsEnd(a);
    if EndsWithCr(a) && StartsWithLf(b) {
      NormalizeAtSeam(a, b);
      NormalizeAtSeam(n, b);
    } else {
      NormalizeSplits(a, b);
      NormalizeSplits(n, b);
    }
  }

  /** However the text is cut into reads, the blocks are those of the whole text. */
  lemma {:induction false} ChunkingDoesNotMatter(chunks: seq<string>)
    requires !HasCrCrLf(Concat(chunks))
    ensures Consume(chunks) == Split(Normalize(Concat(chunks)))
    decreases |chunks|
  {
    if chunks != [] {
      var before, last := chunks[..|chunks| - 1], chunks[|chunks| - 1];
      var a := Concat(before);
      forall i: nat ensures !CrCrLfAt(a, i) {
        assert CrCrLfAt(a, i) ==> CrCrLfAt(Concat(chunks), i);
      }
      ChunkingDoesNotMatter(before);
      Resume(a, last);
    }
  }

  function Crs(s: string): nat {
    if s == "" then 0 else (if s[0] == '\r' then 1 else 0) + Crs(s[1..])
  }

  lemma {:induction false} CrsAdd(a: string, b: string)
    ensures Crs(a + b) == Crs(a) + Crs(b)
  {
    if a == "" {
      assert a + b == b;
    } else {
      CrsAdd(a[1..], b);
      assert (a + b)[1..] == a[1..] + b;
    }
  }

  lemma {:induction false} NormalizeLosesCrs(s: string)
    ensures Crs(Normalize(s)) <= Crs(s)
    decreases |s|
  {
    if |s| >= 2 && s[0] == '\r' && s[1] == '\n' {
      NormalizeLosesCrs(s[2..]);
      DropFirst('\n', Normalize(s[2..]));
      assert Crs(s) == 1 + Crs(s[1..]);
      assert s[1..][1..] == s[2..];
      assert Crs(s[1..]) == Crs(s[2..]);
    } else if s != "" {
      NormalizeLosesCrs(s[1..]);
      DropFirst(s[0], Normalize(s[1..]));
    }
  }

  /** The text a cut stands for. */
  function Whole(c: Cut): string {
    Joined(c.blocks) + c.rest
  }

  lemma {:induction false} JoinedAdds(a: seq<string>, b: seq<string>)
    ensures Joined(a + b) == Joined(a) + Joined(b)
  {
    if a == [] {
      assert a + b == b;
    } else {
      assert (a + b)[1..] == a[1..] + b;
      JoinedAdds(a[1..], b);
      Regroup3(a[0] + "\n\n", Joined(a[1..]), Joined(b));
    }
  }

  /** A read that ends just after CRCRLF makes the next one rewrite a CRLF a second time. */
  lemma CrCrLfIsRewrittenTwice(s: string, p: nat)
    requires CrCrLfAt(s, p)
    ensures Concat([s[..p + 3], s[p + 3..]]) == s
    ensures Crs(Whole(Consume([s[..p + 3], s[p + 3..]]))) < Crs(Whole(Split(Normalize(s))))
  {
    hide Normalize, Consume, Concat, Split, Crs, Joined, Clean, Boundary;
    var a, b := s[..p + 3], s[p + 3..];
    assert s == a + b;
    TwoReads(a, b);
    NormalizeCrCrLf(a, p);
    NormalizeSplits(a, b);
    var n := Normalize(a);
    var c := Split(n);
    SplitIsFaithful(n);
    JoinedEndsInLf(c.blocks);
    var u, r := Joined(c.blocks), c.rest;
    assert u != "" ==> n[|u| - 1] == u[|u| - 1] && n[|u| - 2] == u[|u| - 2];
    RewritingAgainLosesCr(r, b);
    var more := Split(Normalize(r + b));
    SplitIsFaithful(Normalize(r + b));
    SplitIsFaithful(Normalize(s));
    CrsAdd(n, Normalize(b));
    CrsAdd(u, r);
    JoinedAdds(c.blocks, more.blocks);
    Regroup3(u, Joined(more.blocks), more.rest);
    CrsAdd(u, Normalize(r + b));
  }

  lemma RewritingAgainLosesCr(r: string, b: string)
    requires |r| >= 2 && r[|r| - 2] == '\r' && r[|r| - 1] == '\n'
    ensures Crs(Normalize(r + b)) < Crs(r) + Crs(Normalize(b))
  {
    hide Normalize, Crs;
    var h := r[..|r| - 2];
    assert r == h + "\r\n";
    Regroup3(h, "\r\n", b);
    NormalizeSplits(h, "\r\n" + b);
    NormalizeSmall(b);
    NormalizeLosesCrs(h);
    CrsAdd(Normalize(h), "\n" + Normalize(b));
    CrsAdd("\n", Normalize(b));
    CrsAdd(h, "\r\n");
    CrsSmall();
  }

  lemma CrsSmall()
    ensures Crs("\n") == 0 && Crs("\r\n") == 1
  {
    assert "\r\n"[1..] == "\n" && "\n"[1..] == "";
  }

  lemma TwoReads(a: string, b: string)
    ensures Concat([a, b]) == a + b
    ensures Consume([a, b]) == (
      var c := Split(Normalize(a)); var more := Split(Normalize(c.rest + b));
      Cut(c.blocks + more.blocks, more.rest))
  {
    assert [a, b][..1] == [a] && [a][..0] == [];
    assert Concat([a]) == "" + a == a;
    assert Consume([]) == Cut([], "") && "" + a == a;
    assert Consume([a]) == Split(Normalize(a)) by {
      var next := Split(Normalize("" + a));
      assert [] + next.blocks == next.blocks;
    }
  }

  lemma NormalizeCrCrLf(a: string, p: nat)
    requires |a| == p + 3 && CrCrLfAt(a, p)
    ensures var n := Normalize(a); |n| >= 2 && n[|n| - 2] == '\r' && n[|n| - 1] == '\n'
  {
    var h := a[..p + 1];
    assert a == h + "\r\n";
    NormalizeSplits(h, "\r\n");
    assert Normalize("\r\n") == "\n" by { assert "\r\n"[2..] == ""; }
    NormalizeKeepsEnd(h);
    assert EndsWithCr(Normalize(h));
  }

  /** The exact condition: reads can be told apart from the result iff the text has CRCRLF. */
  lemma ChunkingMattersIffCrCrLf(s: string)
    ensures (forall chunks: seq<string> :: Concat(chunks) == s ==> Consume(chunks) == Split(Normalize(s)))
       <==> !HasCrCrLf(s)
  {
    hide Concat, Consume, Split, Normalize;
    if !HasCrCrLf(s) {
      forall chunks: seq<string> | Concat(chunks) == s ensures Consume(chunks) == Split(Normalize(s)) {
        ChunkingDoesNotMatter(chunks);
      }
    } else {
      var p: nat :| CrCrLfAt(s, p);
      CrCrLfIsRewrittenTwice(s, p);
      var chunks := [s[..p + 3], s[p + 3..]];
      assert Concat(chunks) == s && Consume(chunks) != Split(Normalize(s));
    }
  }

  // ---- Blocks and events --------------------------------------------------------------------------

  /** The whitespace of String.prototype.trim. */
  predicate JsSpace(c: char) {
    (IsSpace(c) && c != '\U{85}') || c == '\U{FEFF}'
  }

  function TrimStart(s: string): string {
    if s != "" && JsSpace(s[0]) then TrimStart(s[1..]) else s
  }

  function TrimEnd(s: string): string {
    if s != "" && JsSpace(s[|s| - 1]) then TrimEnd(s[..|s| - 1]) else s
  }

  function Trim(s: string): string {
    TrimEnd(TrimStart(s))
  }

  predicate JsTrimmed(s: string) {
    s != "" ==> !JsSpace(s[0]) && !JsSpace(s[|s| - 1])
  }

  /** An event handed to the page: its type, and the text given to JSON.parse. */
  datatype Event = Event(kind: string, data: string)

  /** split("\n"). */
  function Lines(s: string): (r: seq<string>)
    ensures |r| > 0
  {
    match IndexOf(s, '\n')
    case None => [s]
    case Some(i) => [s[..i]] + Lines(s[i + 1..])
  }

  const EVENT := "event:"
  const DATA := "data:"

  /** The type named by the last line that names one. */
  function Kind(lines: seq<string>): string {
    if lines == [] then "message"
    else
      var line := lines[|lines| - 1];
      if HasPrefix(line, EVENT) then Trim(line[6..]) else Kind(lines[..|lines| - 1])
  }

  function Data(lines: seq<string>): seq<string> {
    if lines == [] then []
    else
      var line := lines[|lines| - 1];
      Data(lines[..|lines| - 1]) + (if HasPrefix(line, DATA) then [TrimStart(line[5..])] else [])
  }

  /** What processing a block adds to the page's events: nothing when it has no data line. */
  function EventOf(block: string): seq<Event> {
    var data := Data(Lines(block));
    if data == [] then [] else [Event(Kind(Lines(block)), Join(data, "\n"))]
  }

  function EventsOf(blocks: seq<string>): seq<Event> {
    if blocks == [] then []
    else EventsOf(blocks[..|blocks| - 1]) + EventOf(blocks[|blocks| - 1])
  }

  /** Exactly the spaces at both ends go, for trimStart those at the start. */
  lemma TrimIsTheCore(s: string, front: string, core: string, back: string)
    requires s == front + core + back && JsTrimmed(core)
    requires (forall i :: 0 <= i < |front| ==> JsSpace(front[i])) && (forall i :: 0 <= i < |back| ==> JsSpace(back[i]))
    ensures Trim(s) == core
    ensures core != "" ==> TrimStart(s) == core + back
  {
    hide JsSpace;
    assert s == front + (core + back);
    TrimStartDrops(front, core + back);
    if core == "" {
      assert core + back == back + "";
      TrimStartDrops(back, "");
    } else {
      assert (core + back)[0] == core[0];
      TrimEndDrops(core, back);
    }
  }

  lemma {:induction false} TrimStartDrops(front: string, rest: string)
    requires forall i :: 0 <= i < |front| ==> JsSpace(front[i])
    ensures TrimStart(front + rest) == TrimStart(rest)
  {
    hide JsSpace;
    if front == "" {
      assert front + rest == rest;
    } else {
      TrimStartDrops(front[1..], rest);
      assert (front + rest)[1..] == front[1..] + rest;
    }
  }

  lemma {:induction false} TrimEndDrops(rest: string, back: string)
    requires forall i :: 0 <= i < |back| ==> JsSpace(back[i])
    ensures TrimEnd(rest + back) == TrimEnd(rest)
  {
    hide JsSpace;
    if back == "" {
      assert rest + back == rest;
    } else {
      var n := |back| - 1;
      TrimEndDrops(rest, back[..n]);
      assert (rest + back)[..|rest| + n] == rest + back[..n];
    }
  }

  /** The lines, joined again, are the text, and no line has a line break in it. */
  lemma {:induction false} LinesAreTheText(s: string)
    ensures Join(Lines(s), "\n") == s
    ensures forall i :: 0 <= i < |Lines(s)| ==> '\n' !in Lines(s)[i]
    decreases |s|
  {
    match IndexOf(s, '\n')
    case None =>
    case Some(i) =>
      var more := Lines(s[i + 1..]);
      LinesAreTheText(s[i + 1..]);
      assert Lines(s) == [s[..i]] + more;
      hide Lines;
      assert ([s[..i]] + more)[1..] == more;
      assert s == s[..i] + "\n" + s[i + 1..];
  }

  /** Where the data lines stand. */
  function DataPlaces(lines: seq<string>): seq<nat> {
    if lines == [] then []
    else DataPlaces(lines[..|lines| - 1]) + (if HasPrefix(lines[|lines| - 1], "data:") then [|lines| - 1] else [])
  }

  lemma {:induction false} DataIsOfTheDataLines(lines: seq<string>)
    ensures var at := DataPlaces(lines);
            && |at| == |Data(lines)|
            && (forall k, l :: 0 <= k < l < |at| ==> at[k] < at[l])
            && (forall i :: i in at <==> 0 <= i < |lines| && HasPrefix(lines[i], "data:"))
            && (forall k :: 0 <= k < |at| ==>
                  at[k] < |lines| && HasPrefix(lines[at[k]], "data:") && Data(lines)[k] == TrimStart(lines[at[k]][5..]))
  {
    hide HasPrefix, TrimStart;
    if lines != [] {
      var init, last := lines[..|lines| - 1], lines[|lines| - 1];
      DataIsOfTheDataLines(init);
      assert lines == init + [last];
      PrefixLength(last);
    }
  }

  lemma PrefixLength(line: string)
    ensures HasPrefix(line, "data:") ==> |line| >= 5
    ensures HasPrefix(line, "event:") ==> |line| >= 6
  {
  }

  lemma {:induction false} KindIsOfTheLastEventLine(lines: seq<string>)
    ensures forall i: nat :: i < |lines| && HasPrefix(lines[i], "event:") && (forall j :: i < j < |lines| ==> !HasPrefix(lines[j], "event:")) ==>
              |lines[i]| >= 6 && Kind(lines) == Trim(lines[i][6..])
    ensures (forall i :: 0 <= i < |lines| ==> !HasPrefix(lines[i], "event:")) ==> Kind(lines) == "message"
  {
    hide HasPrefix, Trim;
    if lines != [] {
      KindIsOfTheLastEventLine(lines[..|lines| - 1]);
      PrefixLength(lines[|lines| - 1]);
    }
  }

  /** A block without data is no event; any other is one, of the last type named, with all its data in order. */
  lemma EventIsReadFromTheLines(block: string)
    ensures var lines, e := Lines(block), EventOf(block);
            && (e == [] <==> NoDataLine(lines))
            && (e != [] ==> |e| == 1 && e[0].kind == Kind(lines) && e[0].data == Join(Data(lines), "\n"))
  {
    var lines := Lines(block);
    DataIsOfTheDataLines(lines);
    var at := DataPlaces(lines);
    hide Lines, Kind, Data, HasPrefix, DataPlaces, Join;
    assert at != [] ==> at[0] in at;
    assert !NoDataLine(lines) ==> exists i: nat :: i in at;
  }

  predicate NoDataLine(lines: seq<string>) {
    forall i :: 0 <= i < |lines| ==> !HasPrefix(lines[i], "data:")
  }

  /** The blocks that get processed: an unterminated last one counts unless it is blank. */
  function Processed(c: Cut): seq<string> {
    c.blocks + (if Trim(c.rest) != "" then [c.rest] else [])
  }

  predicate IsFinal(block: string) {
    Kind(Lines(block)) == "final_answer"
  }

  predicate AnyFinal(blocks: seq<string>) {
    exists i :: 0 <= i < |blocks| && IsFinal(blocks[i])
  }

  lemma AnyFinalGrows(blocks: seq<string>, block: string)
    ensures AnyFinal(blocks + [block]) <==> AnyFinal(blocks) || IsFinal(block)
  {
    var more := blocks + [block];
    if i :| 0 <= i < |blocks| && IsFinal(blocks[i]) {
      assert IsFinal(more[i]);
    }
    if IsFinal(block) {
      assert IsFinal(more[|blocks|]);
    }
  }

  lemma NothingProcessed()
    ensures Consume([]) == Cut([], "") && EventsOf([]) == [] && !AnyFinal([])
  {
  }

  lemma ConsumeOneMore(chunks: seq<string>, i: nat)
    requires i < |chunks|
    ensures var c := Consume(chunks[..i]);
            var next := Split(Normalize(c.rest + chunks[i]));
            Consume(chunks[..i + 1]) == Cut(c.blocks + next.blocks, next.rest)
  {
    assert chunks[..i + 1][..i] == chunks[..i];
  }

  lemma SplitOneMore(log: seq<string>, s: string)
    ensures match Boundary(s)
            case None => log + Split(s).blocks == log && Split(s).rest == s
            case Some(i) =>
              var more := Split(s[i + 2..]);
              log + Split(s).blocks == log + [s[..i]] + more.blocks && Split(s).rest == more.rest
  {
    SplitHead(s);
    hide Split, Boundary;
    match Boundary(s)
    case None =>
      assert log + [] == log;
    case Some(i) =>
      var more := Split(s[i + 2..]);
      assert log + ([s[..i]] + more.blocks) == log + [s[..i]] + more.blocks;
  }

  lemma SplitHead(s: string)
    ensures match Boundary(s)
            case None => Split(s) == Cut([], s)
            case Some(i) =>
              var more := Split(s[i + 2..]);
              Split(s) == Cut([s[..i]] + more.blocks, more.rest)
  {
    hide Boundary;
  }

  /** The page: the events received so far. */
  class Client {
    var latestSSEEvents: seq<Event>

    constructor ()
      ensures latestSSEEvents == []
    {
      latestSSEEvents := [];
    }

    method ProcessSSEBlock(block: string) returns (eventType: string)
      modifies this
      ensures eventType == Kind(Lines(block))
      ensures latestSSEEvents == old(latestSSEEvents) + EventOf(block)
    {
      eventType := "message";
      var dataLines: seq<string> := [];
      var lines := Lines(block);
      for i := 0 to |lines|
        invariant eventType == Kind(lines[..i])
        invariant dataLines == Data(lines[..i])
        invariant latestSSEEvents == old(latestSSEEvents)
      {
        assert lines[..i + 1][..i] == lines[..i];
        var line := lines[i];
        if HasPrefix(line, EVENT) {
          eventType := Trim(line[6..]);
        }
        if HasPrefix(line, DATA) {
          dataLines := dataLines + [TrimStart(line[5..])];
        }
      }
      assert lines[..|lines|] == lines;
      if dataLines == [] {
        return;
      }
      latestSSEEvents := latestSSEEvents + [Event(eventType, Join(dataLines, "\n"))];
    }

    method ConsumeSSE(chunks: seq<string>) returns (finalAnswerReceived: bool)
      modifies this
      ensures latestSSEEvents == old(latestSSEEvents) + EventsOf(Processed(Consume(chunks)))
      ensures finalAnswerReceived <==> AnyFinal(Processed(Consume(chunks)))
    {
      hide EventsOf, EventOf, AnyFinal, Consume, Split, Boundary, Kind, Lines, Trim, Normalize;
      var buffer := "";
      finalAnswerReceived := false;
      ghost var log: seq<string> := [];
      NothingProcessed();
      assert chunks[..0] == [];
      for i := 0 to |chunks|
        invariant Consume(chunks[..i]) == Cut(log, buffer)
        invariant latestSSEEvents == old(latestSSEEvents) + EventsOf(log)
        invariant finalAnswerReceived <==> AnyFinal(log)
      {
        ConsumeOneMore(chunks, i);
        ghost var before := log;
        buffer := buffer + chunks[i];
        buffer := Normalize(buffer);
        ghost var cut := Split(buffer);
        var boundary := Boundary(buffer);
        while boundary.Some?
          invariant boundary == Boundary(buffer)
          invariant before + cut.blocks == log + Split(buffer).blocks && cut.rest == Split(buffer).rest
          invariant latestSSEEvents == old(latestSSEEvents) + EventsOf(log)
          invariant finalAnswerReceived <==> AnyFinal(log)
          decreases |buffer|
        {
          SplitOneMore(log, buffer);
          var block := buffer[..boundary.value];
          buffer := buffer[boundary.value + 2..];
          var kind := ProcessSSEBlock(block);
          if kind == "final_answer" {
            finalAnswerReceived := true;
          }
          AnyFinalGrows(log, block);
          EventsGrow(log, block);
          log := log + [block];
          boundary := Boundary(buffer);
        }
        SplitOneMore(log, buffer);
      }
      assert chunks[..|chunks|] == chunks;
      if Trim(buffer) != "" {
        var kind := ProcessSSEBlock(buffer);
        if kind == "final_answer" {
          finalAnswerReceived := true;
        }
        AnyFinalGrows(log, buffer);
        EventsGrow(log, buffer);
      } else {
        assert log + [] == log;
      }
    }
  }

  lemma EventsGrow(blocks: seq<string>, block: string)
    ensures EventsOf(blocks + [block]) == EventsOf(blocks) + EventOf(block)
  {
    assert (blocks + [block])[..|blocks|] == blocks;
  }

  // ---- From the server's writer to the page's events --------------------------------------------

  /** writeSSE (internal/transport/http/handler/sse.go). */
  function WriteSSE(e: Event): string {
    "event: " + e.kind + "\ndata: " + e.data + "\n\n"
  }

  function WriteAll(events: seq<Event>): string {
    if events == [] then "" else WriteSSE(events[0]) + WriteAll(events[1..])
  }

  predicate OneLine(s: string) {
    forall i :: 0 <= i < |s| ==> s[i] != '\n' && s[i] != '\r'
  }

  /** An event type without outer whitespace, and marshalled JSON, which is one line. */
  predicate Sendable(e: Event) {
    && OneLine(e.kind) && JsTrimmed(e.kind)
    && OneLine(e.data) && (e.data != "" ==> !JsSpace(e.data[0]))
  }

  predicate NoCr(s: string) {
    forall i :: 0 <= i < |s| ==> s[i] != '\r'
  }

  function BlockOf(e: Event): string {
    "event: " + e.kind + "\ndata: " + e.data
  }

  function BlocksOf(events: seq<Event>): seq<string> {
    if events == [] then [] else [BlockOf(events[0])] + BlocksOf(events[1..])
  }

  lemma BlockOfIsClean(e: Event)
    requires Sendable(e)
    ensures Clean(BlockOf(e))
    ensures NoCr(WriteSSE(e))
    ensures WriteSSE(e) == BlockOf(e) + "\n\n"
  {
    var l0, l1 := "event: " + e.kind, "data: " + e.data;
    Regroup3(l0, "\ndata: ", e.data);
    assert "\ndata: " == "\n" + "data: ";
    Regroup3("\n", "data: ", e.data);
    Regroup3(l0, "\n", l1);
    assert BlockOf(e) == l0 + "\n" + l1;
    assert OneLine(l0) && OneLine(l1);
    TwoLinesAreClean(l0, l1);
  }

  lemma TwoLinesAreClean(l0: string, l1: string)
    requires OneLine(l0) && OneLine(l1) && l1 != ""
    ensures Clean(l0 + "\n" + l1)
    ensures NoCr(l0 + "\n" + l1 + "\n\n")
  {
    var b := l0 + "\n" + l1 + "\n";
    BoundaryFacts(b);
    assert forall i :: 0 <= i < |l0| ==> b[i] == l0[i];
    assert forall i :: 0 <= i < |l1| ==> b[i + |l0| + 1] == l1[i];
  }

  lemma {:induction false} WriteAllSplits(events: seq<Event>)
    requires forall i :: 0 <= i < |events| ==> Sendable(events[i])
    ensures WriteAll(events) == Joined(BlocksOf(events))
    ensures |BlocksOf(events)| == |events|
    ensures forall i :: 0 <= i < |events| ==> BlocksOf(events)[i] == BlockOf(events[i]) && Clean(BlockOf(events[i]))
    ensures NoCr(WriteAll(events))
  {
    hide BlockOf, WriteSSE, Clean, Sendable;
    if events != [] {
      BlockOfIsClean(events[0]);
      WriteAllSplits(events[1..]);
      JoinedStep(BlockOf(events[0]), BlocksOf(events[1..]));
    }
  }

  /** A written block is read back as the event it was written from. */
  lemma BlockRoundTrip(e: Event)
    requires Sendable(e)
    ensures EventOf(BlockOf(e)) == [e]
    ensures IsFinal(BlockOf(e)) <==> e.kind == "final_answer"
  {
    hide Lines, Trim, TrimStart, Data, Kind, OneLine, JsTrimmed;
    var l0, l1 := "event: " + e.kind, "data: " + e.data;
    WrittenLines(e);
    ReadLines(l0, l1);
    assert l0[6..] == " " + e.kind && l1[5..] == " " + e.data;
    TrimWritten(e.kind);
    TrimStartWritten(e.data);
  }

  lemma WrittenLines(e: Event)
    requires Sendable(e)
    ensures Lines(BlockOf(e)) == ["event: " + e.kind, "data: " + e.data]
  {
    hide Lines;
    var l0, l1 := "event: " + e.kind, "data: " + e.data;
    Regroup3(l0, "\ndata: ", e.data);
    assert "\ndata: " == "\n" + "data: ";
    Regroup3("\n", "data: ", e.data);
    Regroup3(l0, "\n", l1);
    LinesOfTwo(l0, l1);
  }

  lemma ReadLines(l0: string, l1: string)
    requires HasPrefix(l0, "event: ") && HasPrefix(l1, "data: ")
    ensures Kind([l0, l1]) == Trim(l0[6..])
    ensures Data([l0, l1]) == [TrimStart(l1[5..])]
  {
    hide Trim, TrimStart;
    assert [l0, l1][..1] == [l0] && [l0][..0] == [];
    assert l0[0] == 'e' && l1[0] == 'd';
    assert EVENT <= "event: " && DATA <= "data: ";
    assert HasPrefix(l0, EVENT) && HasPrefix(l1, DATA);
    assert Data([l0]) == [];
    assert Kind([l0]) == Trim(l0[6..]);
  }

  lemma TrimStartWritten(s: string)
    requires s != "" ==> !JsSpace(s[0])
    ensures TrimStart(" " + s) == s && TrimStart(s) == s
  {
    assert (" " + s)[1..] == s;
  }

  lemma TrimWritten(s: string)
    requires JsTrimmed(s)
    ensures Trim(" " + s) == s && Trim(s) == s
  {
    TrimStartWritten(s);
  }

  lemma LinesOfTwo(l0: string, l1: string)
    requires OneLine(l0) && OneLine(l1)
    ensures Lines(l0 + "\n" + l1) == [l0, l1]
  {
    var b := l0 + "\n" + l1;
    FirstLf(l0, l1);
    assert b[..|l0|] == l0 && b[|l0| + 1..] == l1;
    assert IndexOf(l1, '\n') == None;
  }

  lemma {:induction false} FirstLf(l0: string, l1: string)
    requires OneLine(l0)
    ensures IndexOf(l0 + "\n" + l1, '\n') == Some(|l0|)
  {
    var b := l0 + "\n" + l1;
    if l0 != "" {
      FirstLf(l0[1..], l1);
      assert b[1..] == l0[1..] + "\n" + l1;
    }
  }

  lemma {:induction false} EventsOfWritten(events: seq<Event>, blocks: seq<string>)
    requires |blocks| == |events|
    requires forall i :: 0 <= i < |events| ==> EventOf(blocks[i]) == [events[i]]
    ensures EventsOf(blocks) == events
  {
    hide EventOf;
    if |blocks| > 0 {
      EventsOfWritten(events[..|events| - 1], blocks[..|blocks| - 1]);
    }
  }

  /**
   Whatever the server writes, and wherever the transport cuts it, the page receives exactly
   the events that were sent, and the reader reports a final answer exactly when one was sent.
   */
  lemma SentEventsArrive(events: seq<Event>, chunks: seq<string>)
    requires forall i :: 0 <= i < |events| ==> Sendable(events[i])
    requires Concat(chunks) == WriteAll(events)
    ensures EventsOf(Processed(Consume(chunks))) == events
    ensures AnyFinal(Processed(Consume(chunks))) <==> exists i :: 0 <= i < |events| && events[i].kind == "final_answer"
  {
    hide Consume, WriteAll, BlocksOf, Split, Normalize, Sendable, EventsOf, EventOf, IsFinal, BlockOf;
    WrittenTextIsItsBlocks(events, chunks);
    var blocks := BlocksOf(events);
    WriteAllSplits(events);
    assert Processed(Cut(blocks, "")) == blocks;
    forall i | 0 <= i < |events|
      ensures EventOf(blocks[i]) == [events[i]]
      ensures IsFinal(blocks[i]) <==> events[i].kind == "final_answer"
    {
      BlockRoundTrip(events[i]);
    }
    EventsOfWritten(events, blocks);
  }

  lemma WrittenTextIsItsBlocks(events: seq<Event>, chunks: seq<string>)
    requires forall i :: 0 <= i < |events| ==> Sendable(events[i])
    requires Concat(chunks) == WriteAll(events)
    ensures Consume(chunks) == Cut(BlocksOf(events), "")
  {
    hide Consume, WriteAll, BlocksOf, Normalize, Concat, Joined, Sendable;
    var s := WriteAll(events);
    WriteAllSplits(events);
    assert forall i: nat :: !CrCrLfAt(s, i) && !CrLfAt(s, i);
    ChunkingDoesNotMatter(chunks);
    NothingToNormalize(s);
    SplitAfterBlocks(BlocksOf(events), "");
    assert s + "" == s;
  }
}
