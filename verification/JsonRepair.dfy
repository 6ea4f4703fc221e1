/**
 The scanner behind RepairJSON (internal/agent/control/controller.go).

 The scanner works on characters and knows nothing of JSON's grammar. `Node` is that
 grammar (sections 2 to 7 of RFC 8259) with whitespace kept and with one comma more
 allowed before each closing bracket; the module shows that on its texts the scanner
 removes exactly those commas.
 */
module JsonRepair {
  import opened Text

  // ---- The scanner --------------------------------------------------------------------

  predicate IsJsonSpace(c: char) {
    c == ' ' || c == '\n' || c == '\r' || c == '\t'
  }

  /** nextNonSpace; NUL when there is none. */
  function NextNonSpace(s: string): char {
    if s == "" then '\0' else if !IsJsonSpace(s[0]) then s[0] else NextNonSpace(s[1..])
  }

  predicate IsClose(c: char) {
    c == '}' || c == ']'
  }

  /** What the scanner writes for the rest of its input. */
  function Scan(s: string, inString: bool, escaped: bool): string
    decreases |s|
  {
    if s == "" then ""
    else if escaped then [s[0]] + Scan(s[1..], inString, false)
    else if s[0] == '\\' && inString then [s[0]] + Scan(s[1..], inString, true)
    else if s[0] == '"' then [s[0]] + Scan(s[1..], !inString, false)
    else if s[0] == ',' && !inString && IsClose(NextNonSpace(s[1..])) then Scan(s[1..], inString, false)
    else [s[0]] + Scan(s[1..], inString, false)
  }

  function WithoutTrailingCommas(s: string): string {
    Scan(s, false, false)
  }

  method FindNextNonSpace(value: string) returns (c: char)
    ensures c == NextNonSpace(value)
  {
    for i := 0 to |value|
      invariant NextNonSpace(value[i..]) == NextNonSpace(value)
    {
      if !IsJsonSpace(value[i]) {
        return value[i];
      }
      assert value[i..][1..] == value[i + 1..];
    }
    c := '\0';
  }

  /** One character of the scanner's work. */
  lemma ScanUnfolds(s: string, inString: bool, escaped: bool)
    requires s != ""
    ensures Scan(s, inString, escaped)
         == if escaped then [s[0]] + Scan(s[1..], inString, false)
            else if s[0] == '\\' && inString then [s[0]] + Scan(s[1..], inString, true)
            else if s[0] == '"' then [s[0]] + Scan(s[1..], !inString, false)
            else if s[0] == ',' && !inString && IsClose(NextNonSpace(s[1..])) then Scan(s[1..], inString, false)
            else [s[0]] + Scan(s[1..], inString, false)
  {
  }

  method RemoveTrailingCommas(content: string) returns (builder: string)
    ensures builder == WithoutTrailingCommas(content)
  {
    builder := "";
    var inString, escaped := false, false;
    var index := 0;
    assert content[0..] == content;
    while index < |content|
      invariant index <= |content|
      invariant builder + Scan(content[index..], inString, escaped) == Scan(content, false, false)
    {
      var current := content[index];
      ScanUnfolds(content[index..], inString, escaped);
      hide Scan, NextNonSpace;
      assert content[index..][0] == current && content[index..][1..] == content[index + 1..];
      index := index + 1;
      ghost var before := builder;
      Regroup3(before, [current], Scan(content[index..], inString, false));
      Regroup3(before, [current], Scan(content[index..], !inString, false));
      Regroup3(before, [current], Scan(content[index..], inString, true));
      if escaped {
        builder := builder + [current];
        escaped := false;
        continue;
      }
      if current == '\\' && inString {
        builder := builder + [current];
        escaped := true;
        continue;
      }
      if current == '"' {
        inString := !inString;
        builder := builder + [current];
        continue;
      }
      if current == ',' && !inString {
        var next := FindNextNonSpace(content[index..]);
        if next == '}' || next == ']' {
          continue;
        }
      }
      builder := builder + [current];
    }
  }

  // ---- The grammar --------------------------------------------------------------------

  /** A container may end in any number of commas: `trailing` holds the blank after each. */
  datatype Node =
    | Keyword(text: string)
    | Number(negative: bool, whole: string, fraction: string, exponent: string)
    | Quoted(raw: string)                                       // between the quotes, still escaped
    | Container(isObject: bool, elements: seq<Element>, pad: string, trailing: seq<string>)

  /** Whitespace, a key if the container is an object, a value, whitespace. */
  datatype Element = Element(before: string, key: Option<Key>, value: Node, after: string)

  datatype Key = Key(raw: string, beforeColon: string, afterColon: string)

  predicate Blank(s: string) {
    forall i :: 0 <= i < |s| ==> IsJsonSpace(s[i])
  }

  predicate Digits(s: string) {
    s != "" && forall i :: 0 <= i < |s| ==> '0' <= s[i] <= '9'
  }

  predicate IsHex(c: char) {
    '0' <= c <= '9' || 'a' <= c <= 'f' || 'A' <= c <= 'F'
  }

  predicate IsEscape(c: char) {
    c == '"' || c == '\\' || c == '/' || c == 'b' || c == 'f' || c == 'n' || c == 'r' || c == 't'
  }

  /** Section 7: unescaped characters and the escapes the grammar lists. */
  predicate StringBody(raw: string)
    decreases |raw|
  {
    if raw == "" then true
    else if raw[0] == '\\' then
      && |raw| >= 2
      && (if raw[1] == 'u' then
            && |raw| >= 6 && IsHex(raw[2]) && IsHex(raw[3]) && IsHex(raw[4]) && IsHex(raw[5])
            && StringBody(raw[6..])
          else IsEscape(raw[1]) && StringBody(raw[2..]))
    else raw[0] != '"' && raw[0] >= ' ' && StringBody(raw[1..])
  }

  ghost predicate WellFormed(n: Node)
    decreases n
  {
    match n
    case Keyword(text) => text == "true" || text == "false" || text == "null"
    case Number(_, whole, fraction, exponent) =>
      && Digits(whole) && (whole[0] == '0' ==> whole == "0")
      && (fraction != "" ==> fraction[0] == '.' && Digits(fraction[1..]))
      && (exponent != "" ==>
            && (exponent[0] == 'e' || exponent[0] == 'E')
            && Digits(if |exponent| > 1 && (exponent[1] == '+' || exponent[1] == '-') then exponent[2..] else exponent[1..]))
    case Quoted(raw) => StringBody(raw)
    case Container(isObject, elements, pad, trailing) =>
      && Blank(pad) && (forall i :: 0 <= i < |trailing| ==> Blank(trailing[i]))
      && forall i :: 0 <= i < |elements| ==> WellFormedElement(isObject, elements[i])
  }

  ghost predicate WellFormedElement(isObject: bool, e: Element)
    decreases e
  {
    && Blank(e.before) && Blank(e.after)
    && e.key.Some? == isObject
    && (e.key.Some? ==> StringBody(e.key.value.raw) && Blank(e.key.value.beforeColon) && Blank(e.key.value.afterColon))
    && WellFormed(e.value)
  }

  /** The text of a node, with all its trailing commas or without the last one of each bracket. */
  function Render(n: Node, commas: bool): string
    decreases n
  {
    match n
    case Keyword(text) => text
    case Number(negative, whole, fraction, exponent) => (if negative then "-" else "") + whole + fraction + exponent
    case Quoted(raw) => "\"" + raw + "\""
    case Container(isObject, elements, pad, trailing) =>
      Open(isObject)
      + (if elements == [] then pad else RenderElements(elements, commas))
      + RenderTrailing(trailing, commas)
      + Close(isObject)
  }

  function RenderElements(elements: seq<Element>, commas: bool): string
    requires elements != []
    decreases elements
  {
    RenderElement(elements[0], commas)
    + (if |elements| == 1 then "" else "," + RenderElements(elements[1..], commas))
  }

  function RenderElement(e: Element, commas: bool): string
    decreases e
  {
    e.before + RenderKey(e.key) + Render(e.value, commas) + e.after
  }

  function RenderKey(key: Option<Key>): string {
    match key
    case None => ""
    case Some(k) => "\"" + k.raw + "\"" + k.beforeColon + ":" + k.afterColon
  }

  function RenderTrailing(trailing: seq<string>, commas: bool): string {
    if trailing == [] then ""
    else if |trailing| == 1 then (if commas then "," else "") + trailing[0]
    else "," + (trailing[0] + RenderTrailing(trailing[1..], commas))
  }

  function Open(isObject: bool): string {
    if isObject then "{" else "["
  }

  function Close(isObject: bool): string {
    if isObject then "}" else "]"
  }

  // ---- What the scanner does to JSON --------------------------------------------------------

  ghost predicate NoTrailing(n: Node)
    decreases n
  {
    n.Container? ==> n.trailing == [] && forall i :: 0 <= i < |n.elements| ==> NoTrailing(n.elements[i].value)
  }

  /** No bracket has two commas or more before it. */
  ghost predicate AtMostOne(n: Node)
    decreases n
  {
    n.Container? ==> |n.trailing| <= 1 && forall i :: 0 <= i < |n.elements| ==> AtMostOne(n.elements[i].value)
  }

  /** Section 2 of RFC 8259: a value of the grammar between two blanks. */
  ghost predicate IsJson(s: string) {
    exists n: Node, before: string, after: string :: IsJsonOf(s, n, before, after)
  }

  ghost predicate IsJsonOf(s: string, n: Node, before: string, after: string) {
    WellFormed(n) && NoTrailing(n) && Blank(before) && Blank(after) && s == before + Render(n, true) + after
  }

  /**
   One pass over any number of trailing commas: the result is the same text, every string and
   every blank included, without exactly the last comma before each closing bracket.
   */
  lemma RepairDropsTheLastCommas(n: Node)
    requires WellFormed(n)
    ensures WithoutTrailingCommas(Render(n, true)) == Render(n, false)
  {
    ScanNode(n, "");
    assert Render(n, true) + "" == Render(n, true);
  }

  /** The repair leaves valid JSON alone. */
  lemma ValidJsonIsUntouched(s: string)
    requires IsJson(s)
    ensures WithoutTrailingCommas(s) == s
  {
    hide Scan, Render, WellFormed, NoTrailing, Blank;
    var n, before, after :| IsJsonOf(s, n, before, after);
    CommasCount(n);
    ScanBetweenBlanks(n, before, after);
    assert before + (Render(n, true) + after) == s;
  }

  /** The text of a node is JSON exactly when it has no trailing comma. */
  lemma IsJsonIffNoTrailing(n: Node)
    requires WellFormed(n)
    ensures IsJson(Render(n, true)) <==> NoTrailing(n)
  {
    hide Render, WellFormed, NoTrailing, Scan, IsJson;
    if NoTrailing(n) {
      CleanTextIsJson(n);
    } else {
      CommasCount(n);
      RepairDropsTheLastCommas(n);
      if IsJson(Render(n, true)) {
        ValidJsonIsUntouched(Render(n, true));
      }
    }
  }

  lemma CleanTextIsJson(n: Node)
    requires WellFormed(n) && NoTrailing(n)
    ensures IsJson(Render(n, true))
  {
    hide Render, WellFormed, NoTrailing;
    assert "" + Render(n, true) + "" == Render(n, true);
    assert IsJsonOf(Render(n, true), n, "", "");
  }

  /** The exact condition: repair makes JSON of a text if and only if no bracket has two trailing commas. */
  lemma RepairedTextIsJsonIff(n: Node)
    requires WellFormed(n)
    ensures IsJson(WithoutTrailingCommas(Render(n, true))) <==> AtMostOne(n)
  {
    RepairDropsTheLastCommas(n);
    StripDropsOne(n);
    IsJsonIffNoTrailing(Strip(n));
  }

  /** Two commas before a bracket: one is left, and with it the text is still no JSON. */
  lemma OnePassOnly()
    ensures WithoutTrailingCommas("[1,,]") == "[1,]"
    ensures !IsJson("[1,,]") && !IsJson("[1,]")
  {
    var one := Number(false, "1", "", "");
    var n := Container(false, [Element("", None, one, "")], "", ["", ""]);
    assert WellFormed(one);
    assert WellFormedElement(false, n.elements[0]);
    OnePassTexts(n);
    IsJsonIffNoTrailing(n);
    RepairDropsTheLastCommas(n);
    RepairedTextIsJsonIff(n);
  }

  lemma OnePassTexts(n: Node)
    requires n == Container(false, [Element("", None, Number(false, "1", "", ""), "")], "", ["", ""])
    ensures Render(n, true) == "[1,,]" && Render(n, false) == "[1,]"
  {
    OneElementText(n.elements[0], true);
    OneElementText(n.elements[0], false);
    TwoTrailingTexts();
    hide RenderElement, RenderTrailing;
    assert RenderElements(n.elements, true) == "1" && RenderElements(n.elements, false) == "1";
    hide RenderElements;
    assert Render(n, true) == "[" + "1" + ",," + "]";
    assert Render(n, false) == "[" + "1" + "," + "]";
  }

  lemma OneElementText(e: Element, commas: bool)
    requires e == Element("", None, Number(false, "1", "", ""), "")
    ensures RenderElement(e, commas) == "1"
  {
    assert Render(e.value, commas) == "1";
  }

  lemma TwoTrailingTexts()
    ensures RenderTrailing(["", ""], true) == ",," && RenderTrailing(["", ""], false) == ","
  {
    assert ["", ""][1..] == [""];
    assert RenderTrailing([""], true) == "," && RenderTrailing([""], false) == "";
  }

  // ---- The scanner on rendered texts --------------------------------------------------------

  /** Characters the scanner copies whatever follows them. */
  predicate Plain(s: string) {
    forall i :: 0 <= i < |s| ==> s[i] != '"' && s[i] != ','
  }

  lemma {:induction false} ScanPlain(s: string, rest: string)
    requires Plain(s)
    ensures Scan(s + rest, false, false) == s + Scan(rest, false, false)
    decreases |s|
  {
    if s == "" {
      assert s + rest == rest;
    } else {
      SplitFirst(s, rest);
      SplitFirst(s, Scan(rest, false, false));
      DropFirst(s[0], s[1..] + rest);
      ScanUnfolds(s + rest, false, false);
      hide Scan;
      ScanPlain(s[1..], rest);
    }
  }

  /** A character the scanner copies inside a string, changing nothing but the escape flag. */
  lemma ScanCopies(c: char, s: string, escaped: bool)
    requires escaped || (c != '"' && c != '\\')
    ensures Scan([c] + s, true, escaped) == [c] + Scan(s, true, false)
  {
    DropFirst(c, s);
    ScanUnfolds([c] + s, true, escaped);
    hide Scan;
  }

  lemma ScanEscape(s: string)
    ensures Scan(['\\'] + s, true, false) == ['\\'] + Scan(s, true, true)
  {
    DropFirst('\\', s);
    ScanUnfolds(['\\'] + s, true, false);
    hide Scan;
  }

  lemma SplitFirst(s: string, rest: string)
    requires s != ""
    ensures s + rest == [s[0]] + (s[1..] + rest)
  {
    assert s == [s[0]] + s[1..];
    Regroup3([s[0]], s[1..], rest);
  }

  /** A well-formed string body leaves the scanner inside the string, not escaped. */
  lemma {:induction false} ScanStringBody(raw: string, rest: string)
    requires StringBody(raw)
    ensures Scan(raw + rest, true, false) == raw + Scan(rest, true, false)
    decreases |raw|
  {
    hide Scan;
    if raw == "" {
      assert raw + rest == rest;
    } else {
      SplitFirst(raw, rest);
      SplitFirst(raw, Scan(rest, true, false));
      if raw[0] != '\\' {
        ScanCopies(raw[0], raw[1..] + rest, false);
        ScanStringBody(raw[1..], rest);
      } else {
        ScanEscape(raw[1..] + rest);
        assert raw == ['\\'] + raw[1..];
        ScanEscapedBody(raw[1..], rest);
      }
    }
  }

  /** The rest of a string body after a backslash. */
  lemma {:induction false} ScanEscapedBody(raw: string, rest: string)
    requires StringBody(['\\'] + raw)
    ensures Scan(raw + rest, true, true) == raw + Scan(rest, true, false)
    decreases |raw|
  {
    EscapedBody(raw);
    hide Scan, StringBody;
    SplitFirst(raw, rest);
    SplitFirst(raw, Scan(rest, true, false));
    ScanCopies(raw[0], raw[1..] + rest, true);
    if raw[0] == 'u' {
      var hex, tail := raw[1..5], raw[5..];
      assert raw[1..] == hex + tail;
      Regroup3(hex, tail, rest);
      Regroup3(hex, tail, Scan(rest, true, false));
      ScanHex(hex, tail + rest);
      ScanStringBody(tail, rest);
    } else {
      ScanStringBody(raw[1..], rest);
    }
  }

  lemma EscapedBody(raw: string)
    requires StringBody(['\\'] + raw)
    ensures raw != ""
    ensures raw[0] == 'u' ==> |raw| >= 5 && StringBody(raw[5..]) && forall i :: 0 <= i < 4 ==> IsHex(raw[1..5][i])
    ensures raw[0] != 'u' ==> StringBody(raw[1..])
  {
    hide StringBody, IsHex;
    BodyOfEscape(['\\'] + raw);
    EscapeIndices(raw);
  }

  lemma EscapeIndices(raw: string)
    ensures var t := ['\\'] + raw;
            && (raw != "" ==> t[1] == raw[0] && t[2..] == raw[1..])
            && (|raw| >= 5 ==>
                  && t[2] == raw[1] && t[3] == raw[2] && t[4] == raw[3] && t[5] == raw[4]
                  && t[6..] == raw[5..] && raw[1..5] == [raw[1], raw[2], raw[3], raw[4]])
  {
  }

  lemma BodyOfEscape(t: string)
    requires t != "" && t[0] == '\\'
    requires StringBody(t)
    ensures |t| >= 2
    ensures t[1] == 'u' ==>
              && |t| >= 6 && IsHex(t[2]) && IsHex(t[3]) && IsHex(t[4]) && IsHex(t[5])
              && StringBody(t[6..])
    ensures t[1] != 'u' ==> StringBody(t[2..])
  {
  }

  lemma {:induction false} ScanHex(s: string, rest: string)
    requires forall i :: 0 <= i < |s| ==> IsHex(s[i])
    ensures Scan(s + rest, true, false) == s + Scan(rest, true, false)
    decreases |s|
  {
    hide Scan;
    if s == "" {
      assert s + rest == rest;
    } else {
      SplitFirst(s, rest);
      SplitFirst(s, Scan(rest, true, false));
      ScanCopies(s[0], s[1..] + rest, false);
      ScanHex(s[1..], rest);
    }
  }

  lemma ScanQuoted(raw: string, rest: string)
    requires StringBody(raw)
    ensures Scan("\"" + raw + "\"" + rest, false, false) == "\"" + raw + "\"" + Scan(rest, false, false)
  {
    hide StringBody;
    var q := ['"'];
    assert q == "\"";
    var u := q + rest;
    Regroup4(q, raw, q, rest);
    Regroup4(q, raw, q, Scan(rest, false, false));
    DropFirst('"', raw + u);
    ScanUnfolds(q + (raw + u), false, false);
    DropFirst('"', rest);
    ScanUnfolds(u, true, false);
    hide Scan;
    ScanStringBody(raw, u);
  }

  lemma {:induction false} NextAfterBlank(space: string, rest: string)
    requires Blank(space)
    ensures NextNonSpace(space + rest) == NextNonSpace(rest)
    decreases |space|
  {
    if space == "" {
      assert space + rest == rest;
    } else {
      assert (space + rest)[1..] == space[1..] + rest;
      NextAfterBlank(space[1..], rest);
    }
  }

  /** The first character of a value tells the scanner that the comma before it stays. */
  lemma RenderStart(n: Node, commas: bool)
    requires WellFormed(n)
    ensures Render(n, commas) != ""
    ensures !IsJsonSpace(Render(n, commas)[0]) && !IsClose(Render(n, commas)[0])
  {
  }

  lemma ElementStart(isObject: bool, e: Element, commas: bool, rest: string)
    requires WellFormedElement(isObject, e)
    ensures !IsClose(NextNonSpace(RenderElement(e, commas) + rest))
  {
    RenderStart(e.value, commas);
    RenderElementParts(e, commas, rest);
    hide Render, RenderElement;
    var value := Render(e.value, commas);
    var tail := RenderKey(e.key) + (value + (e.after + rest));
    NextAfterBlank(e.before, tail);
    KeyOrValueStarts(e.key, value, e.after + rest);
  }

  lemma KeyOrValueStarts(key: Option<Key>, value: string, rest: string)
    requires value != "" && !IsJsonSpace(value[0])
    ensures NextNonSpace(RenderKey(key) + (value + rest)) == if key.None? then value[0] else '"'
  {
    var t := RenderKey(key) + (value + rest);
    assert t[0] == if key.None? then value[0] else '"';
  }

  /** The heart of the repair: one value, whatever comes after it. */
  lemma {:induction false} ScanNode(n: Node, rest: string)
    requires WellFormed(n)
    ensures Scan(Render(n, true) + rest, false, false) == Render(n, false) + Scan(rest, false, false)
    decreases n, 1
  {
    match n
    case Keyword(text) =>
      ScanPlain(text, rest);
    case Number(_, _, _, _) =>
      NumberIsPlain(n);
      assert Render(n, true) == Render(n, false);
      hide Render, Scan;
      ScanPlain(Render(n, true), rest);
    case Quoted(raw) =>
      ScanQuoted(raw, rest);
    case Container(_, _, _, _) =>
      ScanContainer(n, rest);
  }

  lemma NumberIsPlain(n: Node)
    requires n.Number? && WellFormed(n)
    ensures Plain(Render(n, true))
  {
  }

  function RenderBody(n: Node, commas: bool): string
    requires n.Container?
  {
    if n.elements == [] then n.pad else RenderElements(n.elements, commas)
  }

  lemma RenderContainer(n: Node, commas: bool, rest: string)
    requires n.Container?
    ensures Render(n, commas) + rest
         == Open(n.isObject) + (RenderBody(n, commas) + (RenderTrailing(n.trailing, commas) + (Close(n.isObject) + rest)))
  {
    hide RenderElements, RenderTrailing, Open, Close;
    var a, b, c, d := Open(n.isObject), RenderBody(n, commas), RenderTrailing(n.trailing, commas), Close(n.isObject);
    assert Render(n, commas) == a + b + c + d;
    hide Render, RenderBody;
    Regroup5(a, b, c, d, rest);
  }

  lemma {:induction false} ScanContainer(n: Node, rest: string)
    requires n.Container? && WellFormed(n)
    ensures Scan(Render(n, true) + rest, false, false) == Render(n, false) + Scan(rest, false, false)
    decreases n, 0
  {
    RenderContainer(n, true, rest);
    RenderContainer(n, false, Scan(rest, false, false));
    var close := Close(n.isObject) + rest;
    var tail := RenderTrailing(n.trailing, true) + close;
    assert Plain(Open(n.isObject)) && Plain(Close(n.isObject)) && (n.elements == [] ==> Plain(n.pad));
    hide Render, Scan, Open;
    ScanPlain(Open(n.isObject), RenderBody(n, true) + tail);
    if n.elements == [] {
      ScanPlain(n.pad, tail);
    } else {
      ScanElements(n.isObject, n.elements, tail);
    }
    ScanTrailing(n.trailing, n.isObject, rest);
    ScanPlain(Close(n.isObject), rest);
  }

  lemma {:induction false} ScanTrailing(trailing: seq<string>, isObject: bool, rest: string)
    requires forall i :: 0 <= i < |trailing| ==> Blank(trailing[i])
    ensures Scan(RenderTrailing(trailing, true) + (Close(isObject) + rest), false, false)
         == RenderTrailing(trailing, false) + Scan(Close(isObject) + rest, false, false)
  {
    var end := Close(isObject) + rest;
    assert end != "" && IsClose(end[0]);
    hide Close;
    if trailing == [] {
      assert RenderTrailing(trailing, true) + end == end;
      assert RenderTrailing(trailing, false) + Scan(end, false, false) == Scan(end, false, false);
    } else if |trailing| == 1 {
      var space := trailing[0];
      assert RenderTrailing(trailing, true) == "," + space;
      assert RenderTrailing(trailing, false) == space;
      hide RenderTrailing;
      NextAfterBlank(space, end);
      assert NextNonSpace(end) == end[0];
      hide NextNonSpace;
      ScanComma(space, end);
    } else {
      var space, more := trailing[0], trailing[1..];
      var tail := RenderTrailing(more, true) + end;
      MoreCommas(trailing, end);
      ScanTrailing(more, isObject, rest);
      hide RenderTrailing;
      NextAfterBlank(space, tail);
      assert NextNonSpace(tail) == ',';
      hide NextNonSpace;
      ScanComma(space, tail);
      Regroup3(",", space, Scan(tail, false, false));
      Regroup3(",", space + RenderTrailing(more, false), Scan(end, false, false));
      Regroup3(space, RenderTrailing(more, false), Scan(end, false, false));
    }
  }

  /** A comma before a blank stays unless the blank ends at a closing bracket. */
  lemma ScanComma(space: string, rest: string)
    requires Blank(space)
    ensures Scan("," + space + rest, false, false)
         == (if IsClose(NextNonSpace(space + rest)) then "" else ",") + space + Scan(rest, false, false)
  {
    Regroup3(",", space, rest);
    DropFirst(',', space + rest);
    ScanUnfolds([','] + (space + rest), false, false);
    assert [','] == ",";
    hide Scan, NextNonSpace;
    ScanPlain(space, rest);
    Regroup3(",", space, Scan(rest, false, false));
    assert "" + space == space;
  }

  lemma MoreCommas(trailing: seq<string>, end: string)
    requires |trailing| >= 2
    ensures var more := RenderTrailing(trailing[1..], true);
            && RenderTrailing(trailing, true) + end == "," + trailing[0] + (more + end)
            && more != "" && more[0] == ','
            && RenderTrailing(trailing, false) == "," + (trailing[0] + RenderTrailing(trailing[1..], false))
  {
    var more := RenderTrailing(trailing[1..], true);
    assert more[0] == ',';
    assert RenderTrailing(trailing, true) == "," + (trailing[0] + more);
    hide RenderTrailing;
    Regroup3(",", trailing[0], more);
    Regroup3("," + trailing[0], more, end);
  }

  lemma {:induction false} ScanElements(isObject: bool, elements: seq<Element>, rest: string)
    requires elements != []
    requires forall i :: 0 <= i < |elements| ==> WellFormedElement(isObject, elements[i])
    ensures Scan(RenderElements(elements, true) + rest, false, false)
         == RenderElements(elements, false) + Scan(rest, false, false)
    decreases elements
  {
    hide Scan, RenderElement, WellFormedElement;
    var first, cleanFirst := RenderElement(elements[0], true), RenderElement(elements[0], false);
    if |elements| == 1 {
      assert RenderElements(elements, true) == first && RenderElements(elements, false) == cleanFirst;
      ScanElement(isObject, elements[0], rest);
    } else {
      var others, cleanOthers := RenderElements(elements[1..], true), RenderElements(elements[1..], false);
      assert RenderElements(elements, true) == first + ("," + others);
      assert RenderElements(elements, false) == cleanFirst + ("," + cleanOthers);
      ElementsStart(isObject, elements[1..], rest);
      hide RenderElements;
      var t := "," + (others + rest);
      assert first + ("," + others) + rest == first + t;
      ScanElement(isObject, elements[0], t);
      assert t[0] == ',' && t[1..] == others + rest;
      ScanUnfolds(t, false, false);
      ScanElements(isObject, elements[1..], rest);
      var s := Scan(rest, false, false);
      assert cleanFirst + ("," + (cleanOthers + s)) == cleanFirst + ("," + cleanOthers) + s;
    }
  }

  lemma ElementsStart(isObject: bool, elements: seq<Element>, rest: string)
    requires elements != [] && WellFormedElement(isObject, elements[0])
    ensures !IsClose(NextNonSpace(RenderElements(elements, true) + rest))
  {
    var first := RenderElement(elements[0], true);
    var more := if |elements| == 1 then "" else "," + RenderElements(elements[1..], true);
    assert RenderElements(elements, true) == first + more;
    hide RenderElements, RenderElement;
    ElementStart(isObject, elements[0], true, more + rest);
    assert first + more + rest == first + (more + rest);
  }

  lemma {:induction false} ScanElement(isObject: bool, e: Element, rest: string)
    requires WellFormedElement(isObject, e)
    ensures Scan(RenderElement(e, true) + rest, false, false) == RenderElement(e, false) + Scan(rest, false, false)
    decreases e
  {
    RenderElementParts(e, true, rest);
    RenderElementParts(e, false, Scan(rest, false, false));
    hide Scan, Render, RenderKey, RenderElement;
    var end := e.after + rest;
    var tail := Render(e.value, true) + end;
    ScanPlain(e.before, RenderKey(e.key) + tail);
    ScanKey(e.key, tail);
    ScanNode(e.value, end);
    ScanPlain(e.after, rest);
  }

  lemma RenderElementParts(e: Element, commas: bool, rest: string)
    ensures RenderElement(e, commas) + rest
         == e.before + (RenderKey(e.key) + (Render(e.value, commas) + (e.after + rest)))
  {
    hide Render, RenderKey;
    var a, b, c, d := e.before, RenderKey(e.key), Render(e.value, commas), e.after;
    assert RenderElement(e, commas) == a + b + c + d;
    hide RenderElement;
    Regroup5(a, b, c, d, rest);
  }

  lemma ScanKey(key: Option<Key>, rest: string)
    requires key.Some? ==> StringBody(key.value.raw) && Blank(key.value.beforeColon) && Blank(key.value.afterColon)
    ensures Scan(RenderKey(key) + rest, false, false) == RenderKey(key) + Scan(rest, false, false)
  {
    hide Scan;
    match key
    case None =>
      assert RenderKey(key) + rest == rest;
    case Some(k) =>
      hide StringBody;
      var quoted := "\"" + k.raw + "\"";
      var colon := k.beforeColon + ":" + k.afterColon;
      assert RenderKey(key) == quoted + colon;
      assert quoted + colon + rest == quoted + (colon + rest);
      ScanQuoted(k.raw, colon + rest);
      ScanPlain(colon, rest);
      var s := Scan(rest, false, false);
      assert quoted + colon + s == quoted + (colon + s);
  }

  // ---- Texts without trailing commas -----------------------------------------------------

  /** Without its last commas a text is shorter, unless it has no trailing comma at all. */
  lemma {:induction false} CommasCount(n: Node)
    ensures |Render(n, false)| <= |Render(n, true)|
    ensures NoTrailing(n) ==> Render(n, false) == Render(n, true)
    ensures !NoTrailing(n) ==> |Render(n, false)| < |Render(n, true)|
    decreases n
  {
    if n.Container? {
      TrailingCount(n.trailing);
      if n.elements != [] {
        ElementCommasCount(n.elements);
      }
      hide RenderElements, RenderTrailing, NoTrailing;
      NoTrailingContainer(n);
    }
  }

  lemma NoTrailingContainer(n: Node)
    requires n.Container?
    ensures NoTrailing(n) <==> n.trailing == [] && (n.elements == [] || NoneTrailing(n.elements))
  {
  }

  ghost predicate NoneTrailing(elements: seq<Element>) {
    forall i :: 0 <= i < |elements| ==> NoTrailing(elements[i].value)
  }

  lemma {:induction false} TrailingCount(trailing: seq<string>)
    ensures |RenderTrailing(trailing, true)| == |RenderTrailing(trailing, false)| + (if trailing == [] then 0 else 1)
  {
    if |trailing| > 1 {
      TrailingCount(trailing[1..]);
    }
  }

  lemma {:induction false} ElementCommasCount(elements: seq<Element>)
    requires elements != []
    ensures |RenderElements(elements, false)| <= |RenderElements(elements, true)|
    ensures NoneTrailing(elements) ==> RenderElements(elements, false) == RenderElements(elements, true)
    ensures !NoneTrailing(elements) ==> |RenderElements(elements, false)| < |RenderElements(elements, true)|
    decreases elements
  {
    CommasCount(elements[0].value);
    hide Render, RenderKey, NoTrailing;
    if |elements| > 1 {
      ElementCommasCount(elements[1..]);
      assert NoneTrailing(elements) <==> NoTrailing(elements[0].value) && NoneTrailing(elements[1..]) by {
        NoneTrailingSplits(elements);
      }
    }
  }

  lemma NoneTrailingSplits(elements: seq<Element>)
    requires elements != []
    ensures NoneTrailing(elements) <==> NoTrailing(elements[0].value) && NoneTrailing(elements[1..])
  {
    hide NoTrailing;
    if NoTrailing(elements[0].value) && NoneTrailing(elements[1..]) {
      forall i | 0 <= i < |elements| ensures NoTrailing(elements[i].value) {
        assert i > 0 ==> elements[i] == elements[1..][i - 1];
      }
    }
  }

  lemma ScanBetweenBlanks(n: Node, before: string, after: string)
    requires WellFormed(n) && Blank(before) && Blank(after)
    ensures Scan(before + (Render(n, true) + after), false, false) == before + (Render(n, false) + after)
  {
    assert Scan("", false, false) == "";
    hide Scan, Render, WellFormed;
    ScanPlain(before, Render(n, true) + after);
    ScanNode(n, after);
    ScanPlain(after, "");
    assert after + "" == after;
  }

  /** The same value with the last comma of each bracket gone and all blanks kept. */
  function Strip(n: Node): Node
    decreases n
  {
    if !n.Container? then n
    else
      var extra := if |n.trailing| == 1 then n.trailing[0] else "";
      if n.elements == [] then n.(pad := n.pad + extra, trailing := DropLast(n.trailing))
      else n.(elements := StripElements(n.elements, extra), trailing := DropLast(n.trailing))
  }

  /** Without the last comma its blank joins the one before. */
  function DropLast(trailing: seq<string>): seq<string> {
    if |trailing| <= 1 then []
    else if |trailing| == 2 then [trailing[0] + trailing[1]]
    else [trailing[0]] + DropLast(trailing[1..])
  }

  function StripElements(elements: seq<Element>, extra: string): (r: seq<Element>)
    requires elements != []
    ensures |r| == |elements|
    decreases elements
  {
    var first := elements[0].(value := Strip(elements[0].value));
    if |elements| == 1 then [first.(after := first.after + extra)]
    else [first] + StripElements(elements[1..], extra)
  }

  lemma {:induction false} DropLastRenders(trailing: seq<string>)
    requires forall i :: 0 <= i < |trailing| ==> Blank(trailing[i])
    ensures forall i :: 0 <= i < |DropLast(trailing)| ==> Blank(DropLast(trailing)[i])
    ensures DropLast(trailing) == [] <==> |trailing| <= 1
    ensures RenderTrailing(trailing, false)
         == (if |trailing| == 1 then trailing[0] else "") + RenderTrailing(DropLast(trailing), true)
  {
    if |trailing| == 2 {
      var more := trailing[1..];
      assert more == [trailing[1]];
      assert RenderTrailing(more, false) == trailing[1];
      assert RenderTrailing(DropLast(trailing), true) == "," + (trailing[0] + trailing[1]);
    } else if |trailing| > 2 {
      var more := trailing[1..];
      DropLastRenders(more);
      var dropped := DropLast(trailing);
      assert dropped[1..] == DropLast(more) && |dropped| >= 2;
      assert "" + RenderTrailing(DropLast(more), true) == RenderTrailing(DropLast(more), true);
    }
  }

  lemma {:induction false} StripDropsOne(n: Node)
    requires WellFormed(n)
    ensures WellFormed(Strip(n)) && (NoTrailing(Strip(n)) <==> AtMostOne(n))
    ensures Render(Strip(n), true) == Render(n, false)
    decreases n, 1
  {
    if n.Container? {
      StripContainerDropsOne(n);
    }
  }

  lemma {:induction false} StripContainerDropsOne(n: Node)
    requires n.Container? && WellFormed(n)
    ensures WellFormed(Strip(n)) && (NoTrailing(Strip(n)) <==> AtMostOne(n))
    ensures Render(Strip(n), true) == Render(n, false)
    decreases n, 0
  {
    var extra := if |n.trailing| == 1 then n.trailing[0] else "";
    var m := Strip(n);
    DropLastRenders(n.trailing);
    if n.elements == [] {
      EmptyDropsOne(n, m, extra);
    } else {
      StripElementsDropsOne(n.isObject, n.elements, extra);
      FullDropsOne(n, m, extra, StripElements(n.elements, extra));
    }
    assert m.trailing == DropLast(n.trailing) && m.isObject == n.isObject;
    hide Strip, DropLast, RenderTrailing, RenderBody, WellFormed, NoTrailing, AtMostOne, Render;
    SameContainerText(n, m, extra);
  }

  lemma EmptyDropsOne(n: Node, m: Node, extra: string)
    requires n.Container? && WellFormed(n) && n.elements == [] && Blank(extra)
    requires m == n.(pad := n.pad + extra, trailing := DropLast(n.trailing))
    requires forall i :: 0 <= i < |m.trailing| ==> Blank(m.trailing[i])
    requires m.trailing == [] <==> |n.trailing| <= 1
    ensures WellFormed(m) && (NoTrailing(m) <==> AtMostOne(n))
    ensures RenderBody(m, true) == RenderBody(n, false) + extra
  {
    hide DropLast;
  }

  lemma FullDropsOne(n: Node, m: Node, extra: string, stripped: seq<Element>)
    requires n.Container? && WellFormed(n) && n.elements != [] && stripped != []
    requires m == n.(elements := stripped, trailing := DropLast(n.trailing))
    requires forall i :: 0 <= i < |m.trailing| ==> Blank(m.trailing[i])
    requires m.trailing == [] <==> |n.trailing| <= 1
    requires forall i :: 0 <= i < |stripped| ==> WellFormedElement(n.isObject, stripped[i])
    requires NoneTrailing(stripped) <==> EachAtMostOne(n.elements)
    requires RenderElements(stripped, true) == RenderElements(n.elements, false) + extra
    ensures WellFormed(m) && (NoTrailing(m) <==> AtMostOne(n))
    ensures RenderBody(m, true) == RenderBody(n, false) + extra
  {
    hide DropLast, RenderElements, WellFormedElement;
    NoTrailingContainer(m);
    AtMostOneContainer(n);
    hide NoneTrailing, EachAtMostOne, NoTrailing, AtMostOne;
  }

  lemma AtMostOneContainer(n: Node)
    requires n.Container?
    ensures AtMostOne(n) <==> |n.trailing| <= 1 && (n.elements == [] || EachAtMostOne(n.elements))
  {
  }

  lemma SameContainerText(n: Node, m: Node, extra: string)
    requires n.Container? && m.Container? && m.isObject == n.isObject
    requires RenderTrailing(n.trailing, false) == extra + RenderTrailing(m.trailing, true)
    requires RenderBody(m, true) == RenderBody(n, false) + extra
    ensures Render(m, true) == Render(n, false)
  {
    var a, b, c, d := Open(n.isObject), RenderBody(n, false), RenderTrailing(m.trailing, true), Close(n.isObject);
    hide RenderElements, Open, Close, RenderTrailing;
    assert Render(n, false) == a + b + (extra + c) + d;
    assert Render(m, true) == a + (b + extra) + c + d;
    hide Render, RenderBody;
    Regroup3(a, b, extra);
    Regroup3(a + b, extra, c);
  }

  ghost predicate EachAtMostOne(elements: seq<Element>) {
    forall i :: 0 <= i < |elements| ==> AtMostOne(elements[i].value)
  }

  lemma {:induction false} StripElementsDropsOne(isObject: bool, elements: seq<Element>, extra: string)
    requires elements != [] && Blank(extra)
    requires forall i :: 0 <= i < |elements| ==> WellFormedElement(isObject, elements[i])
    ensures var r := StripElements(elements, extra);
            && (forall i :: 0 <= i < |r| ==> WellFormedElement(isObject, r[i]))
            && (NoneTrailing(r) <==> EachAtMostOne(elements))
            && RenderElements(r, true) == RenderElements(elements, false) + extra
    decreases elements
  {
    hide Strip, Render, RenderElement, WellFormed, WellFormedElement, NoTrailing, AtMostOne, NoneTrailing, EachAtMostOne, Blank;
    var e := elements[0];
    ValueIsWellFormed(isObject, e);
    StripDropsOne(e.value);
    var first := e.(value := Strip(e.value));
    StrippedElement(isObject, e, first, extra);
    EachAtMostOneSplits(elements);
    var r := StripElements(elements, extra);
    NoneTrailingSplits(r);
    if |elements| == 1 {
      assert r == [first.(after := first.after + extra)] && r[1..] == [] && elements[1..] == [];
      NoElements();
      hide StripElements;
    } else {
      StripElementsDropsOne(isObject, elements[1..], extra);
      var others := StripElements(elements[1..], extra);
      assert r == [first] + others && r[1..] == others;
      hide StripElements, RenderElements;
      ElementsText(e, first, elements, r, extra);
    }
  }

  lemma ValueIsWellFormed(isObject: bool, e: Element)
    requires WellFormedElement(isObject, e)
    ensures WellFormed(e.value)
  {
  }

  lemma NoElements()
    ensures NoneTrailing([]) && EachAtMostOne([])
  {
  }

  lemma ElementsText(e: Element, first: Element, elements: seq<Element>, r: seq<Element>, extra: string)
    requires |elements| == |r| >= 2 && elements[0] == e && r[0] == first
    requires RenderElement(first, true) == RenderElement(e, false)
    requires RenderElements(r[1..], true) == RenderElements(elements[1..], false) + extra
    ensures RenderElements(r, true) == RenderElements(elements, false) + extra
  {
    hide RenderElement;
    var t, u := RenderElement(e, false), RenderElements(elements[1..], false);
    assert RenderElements(r, true) == t + ("," + (u + extra));
    assert RenderElements(elements, false) == t + ("," + u);
    hide RenderElements;
    Regroup3(t, "," + u, extra);
    Regroup3(",", u, extra);
  }

  lemma EachAtMostOneSplits(elements: seq<Element>)
    requires elements != []
    ensures EachAtMostOne(elements) <==> AtMostOne(elements[0].value) && EachAtMostOne(elements[1..])
  {
    hide AtMostOne;
    if AtMostOne(elements[0].value) && EachAtMostOne(elements[1..]) {
      forall i | 0 <= i < |elements| ensures AtMostOne(elements[i].value) {
        assert i > 0 ==> elements[i] == elements[1..][i - 1];
      }
    }
  }

  lemma StrippedElement(isObject: bool, e: Element, first: Element, extra: string)
    requires WellFormedElement(isObject, e) && Blank(extra)
    requires first == e.(value := Strip(e.value))
    requires WellFormed(first.value) && Render(first.value, true) == Render(e.value, false)
    ensures WellFormedElement(isObject, first) && RenderElement(first, true) == RenderElement(e, false)
    ensures WellFormedElement(isObject, first.(after := first.after + extra))
    ensures RenderElement(first.(after := first.after + extra), true) == RenderElement(e, false) + extra
  {
    hide Strip, Render, WellFormed, StringBody, RenderKey;
    Regroup3(e.before + RenderKey(e.key) + Render(e.value, false), e.after, extra);
  }
}
