/**
 The tool-call fingerprint (internal/agent/control/budget.go): a canonical text for
 the decoded arguments that is meant to identify equivalent calls and only those.
 */
module Fingerprint {
  import opened Text
  import opened Words

  // ---- Values -------------------------------------------------------------------

  /** The characters json.Marshal uses for a float64. A number is identified with that text. */
  predicate NumberText(s: string) {
    && s != ""
    && (s[0] == '-' || IsDigit(s[0]))
    && forall i :: 0 <= i < |s| ==> NumberChar(s[i])
  }

  predicate IsDigit(c: char) {
    '0' <= c <= '9'
  }

  predicate NumberChar(c: char) {
    IsDigit(c) || c == '-' || c == '+' || c == '.' || c == 'e' || c == 'E'
  }

  type Number = s: string | NumberText(s) witness "0"

  /** What json.Unmarshal leaves in an `any`: objects are maps, so members have no order. */
  datatype Json =
    | Null
    | Bool(b: bool)
    | Num(n: Number)
    | Str(s: string)
    | Array(items: seq<Json>)
    | Object(members: map<string, Json>)

  /** The JSON text of the arguments as a tree: members are ordered and keys may repeat. */
  datatype Doc =
    | DNull
    | DBool(b: bool)
    | DNum(n: Number)
    | DStr(s: string)
    | DArray(items: seq<Doc>)
    | DObject(members: seq<Member>)

  datatype Member = Member(key: string, value: Doc)

  /** A later member with the same key replaces an earlier one. */
  function Last(members: seq<Member>, key: string): (r: Doc)
    requires exists m :: m in members && m.key == key
    ensures exists m :: m in members && m.key == key && m.value == r
  {
    var n := |members| - 1;
    if members[n].key == key then members[n].value
    else
      assert forall m :: m in members <==> m in members[..n] || m == members[n];
      Last(members[..n], key)
  }

  lemma {:induction false} LastWins(members: seq<Member>, i: nat)
    requires i < |members| && forall j :: i < j < |members| ==> members[j].key != members[i].key
    ensures members[i] in members && Last(members, members[i].key) == members[i].value
  {
    var n := |members| - 1;
    if i < n {
      LastWins(members[..n], i);
    }
  }

  function Keys(members: seq<Member>): set<string> {
    set m | m in members :: m.key
  }

  function Decode(d: Doc): Json
    decreases d
  {
    match d
    case DNull => Null
    case DBool(b) => Bool(b)
    case DNum(n) => Num(n)
    case DStr(s) => Str(s)
    case DArray(items) => Array(seq(|items|, i requires 0 <= i < |items| => Decode(items[i])))
    case DObject(members) =>
      Object(map k | k in Keys(members) :: Decode(Last(members, k)))
  }

  // ---- Key order ------------------------------------------------------------------

  /** sort.Strings: byte order on UTF-8, which is code-point order. */
  predicate Below(a: string, b: string) {
    if b == "" then false
    else if a == "" then true
    else if a[0] != b[0] then a[0] < b[0]
    else Below(a[1..], b[1..])
  }

  lemma {:induction false} BelowIsTotal(a: string, b: string)
    ensures Below(a, b) || Below(b, a) || a == b
    ensures !(Below(a, b) && Below(b, a))
    ensures !Below(a, a)
  {
    if a != "" && b != "" && a[0] == b[0] {
      BelowIsTotal(a[1..], b[1..]);
      assert a == [a[0]] + a[1..] && b == [b[0]] + b[1..];
    }
    if a != "" {
      BelowIsTotal(a[1..], a[1..]);
    }
  }

  lemma {:induction false} BelowIsTransitive(a: string, b: string, c: string)
    requires Below(a, b) && Below(b, c)
    ensures Below(a, c)
  {
    if a != "" && a[0] == b[0] == c[0] {
      BelowIsTransitive(a[1..], b[1..], c[1..]);
    }
  }

  /** The texts agree up to a place where a ends and b goes on, or has the greater character. */
  predicate DifferAt(a: string, b: string, i: nat) {
    && i <= |a| && i < |b| && a[..i] == b[..i]
    && (i < |a| ==> a[i] < b[i])
  }

  lemma {:induction false} BelowIff(a: string, b: string)
    ensures Below(a, b) <==> exists i: nat :: DifferAt(a, b, i)
  {
    if b != "" && a != "" {
      var c, d := a[1..], b[1..];
      BelowIff(c, d);
      if Below(a, b) && a[0] == b[0] {
        var i: nat :| DifferAt(c, d, i);
        assert a[..i + 1] == [a[0]] + c[..i] && b[..i + 1] == [b[0]] + d[..i];
        assert DifferAt(a, b, i + 1);
      } else if Below(a, b) {
        assert DifferAt(a, b, 0);
      }
      forall i: nat | DifferAt(a, b, i) ensures Below(a, b) {
        if i > 0 {
          assert a[0] == a[..i][0] && b[0] == b[..i][0];
          assert c[..i - 1] == a[..i][1..] && d[..i - 1] == b[..i][1..];
          assert DifferAt(c, d, i - 1);
        }
      }
    } else if b != "" {
      assert DifferAt(a, b, 0);
    }
  }

  predicate IsLeast(k: string, keys: set<string>) {
    k in keys && forall j :: j in keys && j != k ==> Below(k, j)
  }

  lemma {:induction false} LeastExists(keys: set<string>)
    requires keys != {}
    ensures exists k :: IsLeast(k, keys)
    decreases |keys|
  {
    var x :| x in keys;
    if keys == {x} {
      assert IsLeast(x, keys);
    } else {
      var rest := keys - {x};
      assert keys == rest + {x};
      LeastExists(rest);
      var k :| IsLeast(k, rest);
      BelowIsTotal(k, x);
      if Below(k, x) {
        assert IsLeast(k, keys);
      } else {
        forall j | j in keys && j != x ensures Below(x, j) {
          if j != k { BelowIsTransitive(x, k, j); }
        }
        assert IsLeast(x, keys);
      }
    }
  }

  lemma LeastIsUnique(keys: set<string>)
    ensures forall j, k :: IsLeast(j, keys) && IsLeast(k, keys) ==> j == k
  {
    forall j, k | IsLeast(j, keys) && IsLeast(k, keys) ensures j == k {
      BelowIsTotal(j, k);
    }
  }

  predicate Ascending(ks: seq<string>) {
    forall i, j :: 0 <= i < j < |ks| ==> Below(ks[i], ks[j])
  }

  function SortedKeys(keys: set<string>): (ks: seq<string>)
    ensures forall k :: k in ks <==> k in keys
    ensures Ascending(ks)
    decreases |keys|
  {
    if keys == {} then []
    else
      LeastExists(keys);
      LeastIsUnique(keys);
      var k :| IsLeast(k, keys);
      [k] + SortedKeys(keys - {k})
  }

  /** Sorting makes the order in which Go ranges over the map irrelevant. */
  lemma {:induction false} SortedKeysIsTheOnlyOrder(keys: set<string>, ks: seq<string>)
    requires Ascending(ks) && forall k :: k in ks <==> k in keys
    ensures ks == SortedKeys(keys)
    decreases |keys|
  {
    if ks == [] {
      assert forall k :: k in keys ==> k in ks;
      assert keys == {};
    } else {
      assert ks[0] in keys;
      var k := SortedKeys(keys)[0];
      AscendingStartsWithLeast(keys, ks);
      AscendingStartsWithLeast(keys, SortedKeys(keys));
      LeastIsUnique(keys);
      AscendingTail(keys, ks);
      AscendingTail(keys, SortedKeys(keys));
      SortedKeysIsTheOnlyOrder(keys - {k}, ks[1..]);
      SortedKeysIsTheOnlyOrder(keys - {k}, SortedKeys(keys)[1..]);
      assert ks == [k] + ks[1..] && SortedKeys(keys) == [k] + SortedKeys(keys)[1..];
    }
  }

  lemma AscendingStartsWithLeast(keys: set<string>, ks: seq<string>)
    requires keys != {} && Ascending(ks) && forall k :: k in ks <==> k in keys
    ensures ks != [] && IsLeast(ks[0], keys)
  {
    var k :| k in keys;
    assert k in ks;
  }

  lemma AscendingTail(keys: set<string>, ks: seq<string>)
    requires ks != [] && Ascending(ks) && forall k :: k in ks <==> k in keys
    ensures Ascending(ks[1..]) && forall k :: k in ks[1..] <==> k in keys - {ks[0]}
  {
    assert ks == [ks[0]] + ks[1..];
    BelowIsTotal(ks[0], ks[0]);
    forall k | k in ks[1..] ensures Below(ks[0], k) {
      var j :| 0 <= j < |ks[1..]| && ks[1..][j] == k;
      assert ks[j + 1] == k;
    }
  }

  // ---- Printing -------------------------------------------------------------------

  /** strings.Join(strings.Fields(strings.ToLower(s)), " "). */
  function Fold(lower: char -> char, s: string): string {
    Join(Fields(MapText(lower, s)), " ")
  }

  /** Texts fold alike exactly when they hold the same words in lower case, in the same order. */
  lemma FoldsAlikeIff(lower: char -> char, s: string, t: string)
    ensures Fold(lower, s) == Fold(lower, t) <==> WordsOf(MapText(lower, s)) == WordsOf(MapText(lower, t))
  {
    JoinedWordsAlikeIff(MapText(lower, s), MapText(lower, t));
  }

  /** A folded text is single-spaced, and holds the characters that are no space as before. */
  lemma FoldedShape(lower: char -> char, s: string)
    ensures SingleSpaced(Fold(lower, s))
    ensures NonSpaces(Fold(lower, s)) == NonSpaces(MapText(lower, s))
    ensures WordsOf(Fold(lower, s)) == WordsOf(MapText(lower, s))
  {
    var t := MapText(lower, s);
    JoinedFieldsShape(t);
    FieldsAreWords(t);
    WordsArePlain(t, 0);
    JoinedWords(WordsOf(t));
  }

  function HexDigit(n: nat): char
    requires n < 16
  {
    "0123456789abcdef"[n]
  }

  /** How json.Marshal writes one character inside a string literal. */
  function EscapeChar(c: char): string {
    if c == '"' then "\\\""
    else if c == '\\' then "\\\\"
    else if c == '\U{8}' then "\\b"
    else if c == '\U{C}' then "\\f"
    else if c == '\n' then "\\n"
    else if c == '\r' then "\\r"
    else if c == '\t' then "\\t"
    else if c < ' ' || c == '<' || c == '>' || c == '&' then "\\u00" + [HexDigit(c as int / 16 % 16), HexDigit(c as int % 16)]
    else if c == '\U{2028}' then "\\u2028"
    else if c == '\U{2029}' then "\\u2029"
    else [c]
  }

  function Escape(s: string): string {
    if s == "" then "" else EscapeChar(s[0]) + Escape(s[1..])
  }

  /** canonicalJSON. */
  function Canonical(lower: char -> char, v: Json): string
    decreases v
  {
    match v
    case Null => "null"
    case Bool(b) => if b then "true" else "false"
    case Num(n) => n
    case Str(s) => "\"" + Escape(Fold(lower, s)) + "\""
    case Array(items) => "[" + Join(ItemParts(lower, items), ",") + "]"
    case Object(members) => "{" + Join(MemberParts(lower, v, SortedKeys(members.Keys)), ",") + "}"
  }

  function ItemParts(lower: char -> char, items: seq<Json>): (r: seq<string>)
    ensures |r| == |items|
    decreases items
  {
    if items == [] then [] else [Canonical(lower, items[0])] + ItemParts(lower, items[1..])
  }

  function MemberParts(lower: char -> char, v: Json, keys: seq<string>): (r: seq<string>)
    requires v.Object? && forall k :: k in keys ==> k in v.members
    ensures |r| == |keys|
    decreases v, |keys|
  {
    if keys == [] then []
    else [keys[0] + ":" + Canonical(lower, v.members[keys[0]])] + MemberParts(lower, v, keys[1..])
  }

  // ---- Fingerprints ---------------------------------------------------------------

  /** json.Unmarshal and the lower-case table, which are not spelled out here. */
  datatype Codec = Codec(lower: char -> char, parse: string -> Option<Doc>)

  function FoldName(codec: Codec, toolName: string): string {
    MapText(codec.lower, TrimSpace(toolName))
  }

  function ToolCallFingerprint(codec: Codec, toolName: string, arguments: string): string {
    var name := FoldName(codec, toolName);
    if name == "" then ""
    else name + "|" + ArgumentText(codec, arguments)
  }

  /** The canonical text of arguments that parse, the folded text of those that do not. */
  function ArgumentText(codec: Codec, arguments: string): string {
    match codec.parse(arguments)
    case None => Fold(codec.lower, arguments)
    case Some(doc) => Canonical(codec.lower, Decode(doc))
  }

  // ---- Equal values ---------------------------------------------------------------

  /** A value with its string leaves folded: what the fingerprint is meant to identify. */
  function FoldValue(lower: char -> char, v: Json): Json
    decreases v
  {
    match v
    case Null => v
    case Bool(_) => v
    case Num(_) => v
    case Str(s) => Str(Fold(lower, s))
    case Array(items) => Array(seq(|items|, i requires 0 <= i < |items| => FoldValue(lower, items[i])))
    case Object(members) => Object(map k | k in members :: FoldValue(lower, members[k]))
  }

  lemma {:induction false} SameValueSameText(lower: char -> char, v: Json, w: Json)
    requires FoldValue(lower, v) == FoldValue(lower, w)
    ensures Canonical(lower, v) == Canonical(lower, w)
    decreases v
  {
    match v
    case Array(items) =>
      assert |FoldValue(lower, v).items| == |items| && |FoldValue(lower, w).items| == |w.items|;
      forall i | 0 <= i < |items| ensures FoldValue(lower, items[i]) == FoldValue(lower, w.items[i]) {
        assert FoldValue(lower, v).items[i] == FoldValue(lower, w).items[i];
      }
      SameItemsSameParts(lower, items, w.items);
    case Object(members) =>
      assert FoldValue(lower, v).members.Keys == members.Keys;
      assert FoldValue(lower, w).members.Keys == w.members.Keys;
      forall k | k in members ensures Canonical(lower, members[k]) == Canonical(lower, w.members[k]) {
        assert FoldValue(lower, v).members[k] == FoldValue(lower, w).members[k];
        SameValueSameText(lower, members[k], w.members[k]);
      }
      SameMembersSameParts(lower, v, w, SortedKeys(members.Keys));
    case _ =>
  }

  lemma {:induction false} SameItemsSameParts(lower: char -> char, xs: seq<Json>, ys: seq<Json>)
    requires |xs| == |ys|
    requires forall i :: 0 <= i < |xs| ==> FoldValue(lower, xs[i]) == FoldValue(lower, ys[i])
    ensures ItemParts(lower, xs) == ItemParts(lower, ys)
    decreases xs
  {
    if xs != [] {
      SameValueSameText(lower, xs[0], ys[0]);
      SameItemsSameParts(lower, xs[1..], ys[1..]);
    }
  }

  lemma {:induction false} SameMembersSameParts(lower: char -> char, v: Json, w: Json, keys: seq<string>)
    requires v.Object? && w.Object?
    requires forall k :: k in keys ==> k in v.members && k in w.members
    requires forall k :: k in keys ==> Canonical(lower, v.members[k]) == Canonical(lower, w.members[k])
    ensures MemberParts(lower, v, keys) == MemberParts(lower, w, keys)
    decreases v, |keys|
  {
    if keys != [] {
      SameMembersSameParts(lower, v, w, keys[1..]);
    }
  }

  // ---- The printer is unambiguous -----------------------------------------------------

  /** Keys are printed bare, so they must not be able to pass for punctuation. */
  predicate PlainKey(k: string) {
    ':' !in k && (k != "" ==> k[0] != '}')
  }

  ghost predicate PlainKeys(v: Json)
    decreases v
  {
    match v
    case Array(items) => forall i :: 0 <= i < |items| ==> PlainKeys(items[i])
    case Object(members) => forall k :: k in members ==> PlainKey(k) && PlainKeys(members[k])
    case _ => true
  }

  const DELIMITERS := {',', ']', '}'}

  /** What may follow a printed value inside a larger text. */
  predicate Delimited(rest: string) {
    rest != "" ==> rest[0] in DELIMITERS
  }

  lemma FirstChar(lower: char -> char, v: Json)
    ensures Canonical(lower, v) != ""
    ensures Canonical(lower, v)[0] ==
            match v {
              case Null => 'n'
              case Bool(b) => if b then 't' else 'f'
              case Num(n) => n[0]
              case Str(_) => '"'
              case Array(_) => '['
              case Object(_) => '{'
            }
  {
  }

  lemma HexDigitIsInjective(m: nat, n: nat)
    requires m < 16 && n < 16 && HexDigit(m) == HexDigit(n)
    ensures m == n
  {
    assert forall i, j :: 0 <= i < j < 16 ==> "0123456789abcdef"[i] != "0123456789abcdef"[j];
  }

  /** The character an escape stands for. */
  lemma EscapeCharCases(c: char)
    ensures var e := EscapeChar(c);
            || (|e| == 1 && e[0] == c)
            || (|e| == 2 && e[1] == (match c case '\U{8}' => 'b' case '\U{C}' => 'f' case '\n' => 'n'
                                     case '\r' => 'r' case '\t' => 't' case _ => c)
                && (c == '\U{8}' || c == '\U{C}' || c == '\n' || c == '\r' || c == '\t' || c == '"' || c == '\\'))
            || (|e| == 6 && e[2] == '0' && c < '\U{80}'
                && e[4] == HexDigit(c as int / 16 % 16) && e[5] == HexDigit(c as int % 16))
            || (|e| == 6 && e[2] == '2' && (c == '\U{2028}' || c == '\U{2029}')
                && e[5] == (if c == '\U{2028}' then '8' else '9'))
  {
    hide HexDigit;
  }

  /** What JSON writes as it is: no control character, quote or backslash, and nothing HTML or JavaScript might misread. */
  predicate Unescaped(c: char) {
    c >= ' ' && c != '"' && c != '\\' && c != '<' && c != '>' && c != '&' && c != '\U{2028}' && c != '\U{2029}'
  }

  /** A string without such characters is printed as its folded text, between quotes. */
  lemma PlainStringText(lower: char -> char, s: string)
    requires forall i :: 0 <= i < |Fold(lower, s)| ==> Unescaped(Fold(lower, s)[i])
    ensures Canonical(lower, Str(s)) == "\"" + Fold(lower, s) + "\""
  {
    hide Fold;
    PlainEscape(Fold(lower, s));
  }

  lemma {:induction false} PlainEscape(s: string)
    requires forall i :: 0 <= i < |s| ==> Unescaped(s[i])
    ensures Escape(s) == s
  {
    if s != "" {
      PlainEscape(s[1..]);
      assert EscapeChar(s[0]) == [s[0]];
    }
  }

  lemma EscapeCharIsInjective(c: char, d: char)
    requires EscapeChar(c) == EscapeChar(d)
    ensures c == d
  {
    EscapeCharCases(c);
    EscapeCharCases(d);
    hide EscapeChar;
    var e := EscapeChar(c);
    if |e| == 6 && e[2] == '0' {
      HexDigitIsInjective(c as int / 16 % 16, d as int / 16 % 16);
      HexDigitIsInjective(c as int % 16, d as int % 16);
    }
  }

  /** The first character, and the second of an escape, fix the length of the escape. */
  lemma EscapeCharLength(c: char)
    ensures var e := EscapeChar(c);
            && |e| == (if e[0] != '\\' then 1 else if e[1] == 'u' then 6 else 2)
            && e[0] != '"'
  {
  }

  lemma EscapeCharIsPrefixFree(c: char, d: char, x: string, y: string)
    requires EscapeChar(c) + x == EscapeChar(d) + y
    ensures c == d && x == y
  {
    EscapeCharLength(c);
    EscapeCharLength(d);
    hide EscapeChar;
    var e, f := EscapeChar(c), EscapeChar(d);
    var l := e + x;
    assert l[0] == e[0] && l[0] == f[0];
    assert |e| > 1 && |f| > 1 ==> l[1] == e[1] && l[1] == f[1];
    assert e == l[..|e|] && f == l[..|f|];
    assert x == l[|e|..] && y == l[|f|..];
    EscapeCharIsInjective(c, d);
  }

  lemma {:induction false} EscapeIsUnambiguous(s: string, t: string, r: string, q: string)
    requires Escape(s) + "\"" + r == Escape(t) + "\"" + q
    ensures s == t && r == q
    decreases |s|
  {
    hide EscapeChar;
    EscapeHead(s, r);
    EscapeHead(t, q);
    if s != "" && t != "" {
      var x, y := Escape(s[1..]) + "\"" + r, Escape(t[1..]) + "\"" + q;
      EscapeCharIsPrefixFree(s[0], t[0], x, y);
      EscapeIsUnambiguous(s[1..], t[1..], r, q);
      assert s == [s[0]] + s[1..] && t == [t[0]] + t[1..];
    } else {
      assert s == "" && t == "";
      var l := "\"" + r;
      assert l == "\"" + q;
      assert r == l[1..] && q == l[1..];
    }
  }

  lemma EscapeHead(s: string, r: string)
    ensures s == "" ==> Escape(s) + "\"" + r == "\"" + r
    ensures s != "" ==> Escape(s) + "\"" + r == EscapeChar(s[0]) + (Escape(s[1..]) + "\"" + r)
    ensures (Escape(s) + "\"" + r)[0] == '"' <==> s == ""
  {
    hide EscapeChar;
    if s != "" {
      EscapeCharLength(s[0]);
      var e := EscapeChar(s[0]);
      assert (e + (Escape(s[1..]) + "\"" + r))[0] == e[0];
    }
  }

  /** Texts of ordinary characters are separated by the first character that is not. */
  lemma {:induction false} TokensSplit(a: string, b: string, r: string, q: string, stop: set<char>)
    requires a + r == b + q
    requires forall i :: 0 <= i < |a| ==> a[i] !in stop
    requires forall i :: 0 <= i < |b| ==> b[i] !in stop
    requires r != "" ==> r[0] in stop
    requires q != "" ==> q[0] in stop
    ensures a == b && r == q
    decreases |a|
  {
    var l := a + r;
    assert (a == "" ==> l == r) && (b == "" ==> l == q);
    assert (a != "" ==> l[0] == a[0]) && (b != "" ==> l[0] == b[0]);
    if a != "" && b != "" {
      assert a[1..] + r == l[1..] && b[1..] + q == l[1..];
      TokensSplit(a[1..], b[1..], r, q, stop);
      assert a == [a[0]] + a[1..] && b == [b[0]] + b[1..];
    }
  }

  /** The values that are printed as one token. */
  predicate IsToken(v: Json) {
    v.Null? || v.Bool? || v.Num?
  }

  lemma FirstCharFixesKind(lower: char -> char, v: Json, w: Json)
    requires Canonical(lower, v)[0] == Canonical(lower, w)[0]
    ensures IsToken(v) <==> IsToken(w)
    ensures v.Str? <==> w.Str?
    ensures v.Array? <==> w.Array?
    ensures v.Object? <==> w.Object?
  {
    FirstCharOfKind(lower, v);
    FirstCharOfKind(lower, w);
    hide Canonical;
  }

  lemma FirstCharOfKind(lower: char -> char, v: Json)
    ensures v.Str? <==> Canonical(lower, v)[0] == '"'
    ensures v.Array? <==> Canonical(lower, v)[0] == '['
    ensures v.Object? <==> Canonical(lower, v)[0] == '{'
  {
    FirstChar(lower, v);
    hide Canonical;
  }

  lemma TokenText(lower: char -> char, v: Json)
    requires IsToken(v)
    ensures forall i :: 0 <= i < |Canonical(lower, v)| ==> Canonical(lower, v)[i] !in DELIMITERS
  {
  }

  lemma TokensAreUnambiguous(lower: char -> char, v: Json, w: Json, r: string, q: string)
    requires IsToken(v) && IsToken(w) && Delimited(r) && Delimited(q)
    requires Canonical(lower, v) + r == Canonical(lower, w) + q
    ensures v == w && r == q
  {
    TokenText(lower, v);
    TokenText(lower, w);
    TokensSplit(Canonical(lower, v), Canonical(lower, w), r, q, DELIMITERS);
    FirstChar(lower, v);
    FirstChar(lower, w);
  }

  lemma StringsAreUnambiguous(lower: char -> char, v: Json, w: Json, r: string, q: string)
    requires v.Str? && w.Str?
    requires Canonical(lower, v) + r == Canonical(lower, w) + q
    ensures FoldValue(lower, v) == FoldValue(lower, w) && r == q
  {
    hide Escape;
    var x, y := Fold(lower, v.s), Fold(lower, w.s);
    hide Fold;
    Unwrap("\"", Escape(x), "\"", r);
    Unwrap("\"", Escape(y), "\"", q);
    EscapeIsUnambiguous(x, y, r, q);
  }

  lemma Unwrap(open: string, body: string, close: string, rest: string)
    requires |open| == 1
    ensures (open + body + close + rest)[1..] == body + close + rest
  {
  }

  /**
   The printer is unambiguous: two printed values that stand at the start of the same
   text are the same value up to folding, and what follows them is the same.
   */
  lemma {:induction false} PrintingIsUnambiguous(lower: char -> char, v: Json, w: Json, r: string, q: string)
    requires PlainKeys(v) && PlainKeys(w) && Delimited(r) && Delimited(q)
    requires Canonical(lower, v) + r == Canonical(lower, w) + q
    ensures FoldValue(lower, v) == FoldValue(lower, w) && r == q
    decreases v, 1, 0
  {
    SameFirstChar(lower, v, w, r, q);
    FirstCharFixesKind(lower, v, w);
    match v
    case Str(_) =>
      StringsAreUnambiguous(lower, v, w, r, q);
    case Array(items) =>
      hide Join, ItemParts;
      Unwrap("[", Join(ItemParts(lower, items), ","), "]", r);
      Unwrap("[", Join(ItemParts(lower, w.items), ","), "]", q);
      ItemsAreUnambiguous(lower, items, w.items, r, q);
      assert FoldValue(lower, v).items == FoldValue(lower, w).items;
    case Object(members) =>
      hide Join, MemberParts, SortedKeys;
      var j, k := SortedKeys(members.Keys), SortedKeys(w.members.Keys);
      Unwrap("{", Join(MemberParts(lower, v, j), ","), "}", r);
      Unwrap("{", Join(MemberParts(lower, w, k), ","), "}", q);
      MembersAreUnambiguous(lower, v, w, j, k, r, q);
      SameFoldedMembers(lower, v, w);
    case _ =>
      TokensAreUnambiguous(lower, v, w, r, q);
  }

  lemma SameFirstChar(lower: char -> char, v: Json, w: Json, r: string, q: string)
    requires Canonical(lower, v) + r == Canonical(lower, w) + q
    ensures Canonical(lower, v) != "" && Canonical(lower, w) != ""
    ensures Canonical(lower, v)[0] == Canonical(lower, w)[0]
  {
    FirstChar(lower, v);
    FirstChar(lower, w);
    hide Canonical;
    var l := Canonical(lower, v) + r;
    assert l[0] == Canonical(lower, v)[0] && l[0] == Canonical(lower, w)[0];
  }

  lemma SameFoldedMembers(lower: char -> char, v: Json, w: Json)
    requires v.Object? && w.Object?
    requires SortedKeys(v.members.Keys) == SortedKeys(w.members.Keys)
    requires forall x :: x in SortedKeys(v.members.Keys) ==>
               x in v.members && x in w.members && FoldValue(lower, v.members[x]) == FoldValue(lower, w.members[x])
    ensures FoldValue(lower, v) == FoldValue(lower, w)
  {
    SameSortedKeys(v.members.Keys, w.members.Keys);
    forall x | x in v.members ensures FoldValue(lower, v.members[x]) == FoldValue(lower, w.members[x]) {
      assert x in SortedKeys(v.members.Keys);
    }
    hide SortedKeys;
    FoldedMembers(lower, v);
    FoldedMembers(lower, w);
    hide FoldValue;
    SameMap(FoldValue(lower, v).members, FoldValue(lower, w).members);
  }

  lemma SameMap<V>(m: map<string, V>, n: map<string, V>)
    requires m.Keys == n.Keys && forall k :: k in m.Keys ==> m[k] == n[k]
    ensures m == n
  {
  }

  lemma SameSortedKeys(j: set<string>, k: set<string>)
    requires SortedKeys(j) == SortedKeys(k)
    ensures j == k
  {
    assert forall x :: x in j <==> x in SortedKeys(j);
    assert forall x :: x in k <==> x in SortedKeys(k);
  }

  lemma FoldedMembers(lower: char -> char, v: Json)
    requires v.Object?
    ensures FoldValue(lower, v).Object? && FoldValue(lower, v).members.Keys == v.members.Keys
    ensures forall x :: x in v.members ==> FoldValue(lower, v).members[x] == FoldValue(lower, v.members[x])
  {
  }

  lemma {:induction false} ItemsAreUnambiguous(lower: char -> char, xs: seq<Json>, ys: seq<Json>, r: string, q: string)
    requires forall i :: 0 <= i < |xs| ==> PlainKeys(xs[i])
    requires forall i :: 0 <= i < |ys| ==> PlainKeys(ys[i])
    requires Join(ItemParts(lower, xs), ",") + "]" + r == Join(ItemParts(lower, ys), ",") + "]" + q
    ensures |xs| == |ys| && r == q
    ensures forall i :: 0 <= i < |xs| ==> FoldValue(lower, xs[i]) == FoldValue(lower, ys[i])
    decreases xs, 0, 0
  {
    var x := ItemsTail(lower, xs, r);
    var y := ItemsTail(lower, ys, q);
    hide Join, ItemParts, Canonical, FoldValue, PlainKeys;
    if xs != [] && ys != [] {
      PrintingIsUnambiguous(lower, xs[0], ys[0], x, y);
      assert |xs| == 1 <==> x[0] == ']';
      assert |ys| == 1 <==> y[0] == ']';
      if |xs| > 1 {
        ItemsAreUnambiguous(lower, xs[1..], ys[1..], r, q);
        assert forall i :: 1 <= i < |xs| ==> xs[i] == xs[1..][i - 1] && ys[i] == ys[1..][i - 1];
      }
    }
  }

  /** Joined parts are the first part and what follows it. */
  lemma JoinTail(parts: seq<string>, close: char, r: string) returns (x: string)
    requires parts != []
    ensures Join(parts, ",") + [close] + r == parts[0] + x
    ensures |parts| == 1 ==> x != "" && x[0] == close && x[1..] == r
    ensures |parts| > 1 ==> x != "" && x[0] == ',' && x[1..] == Join(parts[1..], ",") + [close] + r
  {
    if |parts| == 1 {
      x := [close] + r;
      assert Join(parts, ",") + [close] + r == parts[0] + x;
    } else {
      var rest := Join(parts[1..], ",");
      assert Join(parts, ",") == parts[0] + "," + rest;
      hide Join;
      x := "," + (rest + [close] + r);
      assert parts[0] + "," + rest + [close] + r == parts[0] + x;
    }
  }

  /** The text of an array's items is empty, or one item and what follows it. */
  lemma ItemsTail(lower: char -> char, xs: seq<Json>, r: string) returns (x: string)
    ensures var l := Join(ItemParts(lower, xs), ",") + "]" + r;
            && l != "" && (xs == [] <==> l[0] == ']')
            && (xs == [] ==> l[1..] == r)
            && (xs != [] ==> l == Canonical(lower, xs[0]) + x)
    ensures xs != [] ==> Delimited(x) && x != ""
    ensures |xs| == 1 ==> x[0] == ']' && x[1..] == r
    ensures |xs| > 1 ==> x[0] == ',' && x[1..] == Join(ItemParts(lower, xs[1..]), ",") + "]" + r
  {
    if xs == [] {
      x := "";
    } else {
      FirstChar(lower, xs[0]);
      var c := Canonical(lower, xs[0]);
      hide Canonical;
      var parts := ItemParts(lower, xs);
      assert parts[0] == c && parts[1..] == ItemParts(lower, xs[1..]);
      hide ItemParts;
      x := JoinTail(parts, ']', r);
      hide Join;
      assert (c + x)[0] == c[0];
    }
  }

  lemma {:induction false} MembersAreUnambiguous(
      lower: char -> char, v: Json, w: Json, j: seq<string>, k: seq<string>, r: string, q: string)
    requires v.Object? && w.Object? && PlainKeys(v) && PlainKeys(w)
    requires forall x :: x in j ==> x in v.members
    requires forall x :: x in k ==> x in w.members
    requires Join(MemberParts(lower, v, j), ",") + "}" + r == Join(MemberParts(lower, w, k), ",") + "}" + q
    ensures j == k && r == q
    ensures forall x :: x in j ==> FoldValue(lower, v.members[x]) == FoldValue(lower, w.members[x])
    decreases v, 0, |j|
  {
    var x := MembersTail(lower, v, j, r);
    var y := MembersTail(lower, w, k, q);
    hide Join, MemberParts, Canonical, FoldValue, PlainKeys;
    if j != [] && k != [] {
      FirstMembersAgree(lower, v, w, j[0], k[0], x, y);
      assert |j| == 1 <==> x[0] == '}';
      assert |k| == 1 <==> y[0] == '}';
      if |j| > 1 {
        MembersAreUnambiguous(lower, v, w, j[1..], k[1..], r, q);
      }
      assert j == [j[0]] + j[1..] && k == [k[0]] + k[1..];
    }
  }

  lemma {:induction false} FirstMembersAgree(lower: char -> char, v: Json, w: Json, j: string, k: string, x: string, y: string)
    requires v.Object? && w.Object? && PlainKeys(v) && PlainKeys(w)
    requires j in v.members && k in w.members && Delimited(x) && Delimited(y)
    requires j + (":" + (Canonical(lower, v.members[j]) + x)) == k + (":" + (Canonical(lower, w.members[k]) + y))
    ensures j == k && x == y && FoldValue(lower, v.members[j]) == FoldValue(lower, w.members[k])
    decreases v, 0, 0
  {
    MembersPlain(v, j);
    MembersPlain(w, k);
    hide Canonical, FoldValue, PlainKeys;
    SplitAtColon(j, k, Canonical(lower, v.members[j]) + x, Canonical(lower, w.members[k]) + y);
    PrintingIsUnambiguous(lower, v.members[j], w.members[k], x, y);
  }

  lemma MembersPlain(v: Json, key: string)
    requires v.Object? && key in v.members && PlainKeys(v)
    ensures PlainKey(key) && PlainKeys(v.members[key])
  {
  }

  lemma SplitAtColon(a: string, b: string, x: string, y: string)
    requires PlainKey(a) && PlainKey(b)
    requires a + (":" + x) == b + (":" + y)
    ensures a == b && x == y
  {
    TokensSplit(a, b, ":" + x, ":" + y, {':'});
    assert (":" + x)[1..] == x && (":" + y)[1..] == y;
  }

  /** The text of an object's members is empty, or one member and what follows it. */
  lemma MembersTail(lower: char -> char, v: Json, j: seq<string>, r: string) returns (x: string)
    requires v.Object? && PlainKeys(v) && forall k :: k in j ==> k in v.members
    ensures var l := Join(MemberParts(lower, v, j), ",") + "}" + r;
            && l != "" && (j == [] <==> l[0] == '}')
            && (j == [] ==> l[1..] == r)
            && (j != [] ==> l == j[0] + (":" + (Canonical(lower, v.members[j[0]]) + x)))
    ensures j != [] ==> Delimited(x) && x != ""
    ensures |j| == 1 ==> x[0] == '}' && x[1..] == r
    ensures |j| > 1 ==> x[0] == ',' && x[1..] == Join(MemberParts(lower, v, j[1..]), ",") + "}" + r
  {
    if j == [] {
      x := "";
    } else {
      MembersPlain(v, j[0]);
      hide Canonical, PlainKeys;
      var c := Canonical(lower, v.members[j[0]]);
      var parts := MemberParts(lower, v, j);
      assert parts[0] == j[0] + ":" + c && parts[1..] == MemberParts(lower, v, j[1..]);
      hide MemberParts;
      x := JoinTail(parts, '}', r);
      hide Join;
      MemberHead(j[0], c, x);
    }
  }

  lemma MemberHead(key: string, c: string, x: string)
    ensures key + ":" + c + x == key + (":" + (c + x))
    ensures (key + ":" + c + x)[0] == if key == "" then ':' else key[0]
  {
  }

  // ---- Equivalent calls -----------------------------------------------------------

  /**
   Two argument texts mean the same: objects agree on which keys they have and on the
   value of each, in whatever order the members stand; strings hold the same words in lower
   case. Names of keys and letters outside strings have no such freedom.
   */
  ghost predicate Equivalent(lower: char -> char, d: Doc, e: Doc)
    decreases d
  {
    match d
    case DStr(s) => e.DStr? && WordsOf(MapText(lower, s)) == WordsOf(MapText(lower, e.s))
    case DArray(items) =>
      && e.DArray? && |items| == |e.items|
      && forall i :: 0 <= i < |items| ==> Equivalent(lower, items[i], e.items[i])
    case DObject(members) =>
      && e.DObject? && Keys(members) == Keys(e.members)
      && forall k :: k in Keys(members) ==> Equivalent(lower, Last(members, k), Last(e.members, k))
    case _ => d == e
  }

  function Meaning(lower: char -> char, d: Doc): Json {
    FoldValue(lower, Decode(d))
  }

  lemma MeaningOfArray(lower: char -> char, d: Doc)
    requires d.DArray?
    ensures var v := Meaning(lower, d);
            && v.Array? && |v.items| == |d.items|
            && forall i :: 0 <= i < |d.items| ==> v.items[i] == Meaning(lower, d.items[i])
  {
  }

  lemma MeaningOfObject(lower: char -> char, d: Doc)
    requires d.DObject?
    ensures var v := Meaning(lower, d);
            && v.Object? && v.members.Keys == Keys(d.members)
            && forall k :: k in Keys(d.members) ==> v.members[k] == Meaning(lower, Last(d.members, k))
  {
    var w := Decode(d);
    assert w.members.Keys == Keys(d.members);
    assert forall k :: k in Keys(d.members) ==> w.members[k] == Decode(Last(d.members, k));
    assert FoldValue(lower, w).members.Keys == w.members.Keys;
  }

  /** Equivalence of texts is equality of the decoded values up to folding. */
  lemma {:induction false} EquivalentIffSameMeaning(lower: char -> char, d: Doc, e: Doc)
    ensures Equivalent(lower, d, e) <==> Meaning(lower, d) == Meaning(lower, e)
    decreases d
  {
    hide Equivalent, Meaning;
    if d.DArray? && e.DArray? {
      forall i | 0 <= i < |d.items| && i < |e.items|
        ensures Equivalent(lower, d.items[i], e.items[i]) <==> Meaning(lower, d.items[i]) == Meaning(lower, e.items[i])
      {
        EquivalentIffSameMeaning(lower, d.items[i], e.items[i]);
      }
      EquivalentArrays(lower, d, e);
    } else if d.DObject? && e.DObject? {
      forall k | k in Keys(d.members) && k in Keys(e.members)
        ensures Equivalent(lower, Last(d.members, k), Last(e.members, k))
           <==> Meaning(lower, Last(d.members, k)) == Meaning(lower, Last(e.members, k))
      {
        EquivalentIffSameMeaning(lower, Last(d.members, k), Last(e.members, k));
      }
      EquivalentObjects(lower, d, e);
    } else {
      EquivalentLeaves(lower, d, e);
    }
  }

  lemma EquivalentLeaves(lower: char -> char, d: Doc, e: Doc)
    requires !(d.DArray? && e.DArray?) && !(d.DObject? && e.DObject?)
    ensures Equivalent(lower, d, e) <==> Meaning(lower, d) == Meaning(lower, e)
  {
    if d.DStr? && e.DStr? {
      FoldsAlikeIff(lower, d.s, e.s);
    }
    hide Fold, WordsOf;
  }

  lemma EquivalentArrays(lower: char -> char, d: Doc, e: Doc)
    requires d.DArray? && e.DArray?
    requires forall i :: 0 <= i < |d.items| && i < |e.items| ==>
               (Equivalent(lower, d.items[i], e.items[i]) <==> Meaning(lower, d.items[i]) == Meaning(lower, e.items[i]))
    ensures Equivalent(lower, d, e) <==> Meaning(lower, d) == Meaning(lower, e)
  {
    MeaningOfArray(lower, d);
    MeaningOfArray(lower, e);
    hide Meaning;
    var xs, ys := Meaning(lower, d).items, Meaning(lower, e).items;
    assert Meaning(lower, d) == Meaning(lower, e) <==> xs == ys;
  }

  lemma EquivalentObjects(lower: char -> char, d: Doc, e: Doc)
    requires d.DObject? && e.DObject?
    requires forall k :: k in Keys(d.members) && k in Keys(e.members) ==>
               (Equivalent(lower, Last(d.members, k), Last(e.members, k))
                <==> Meaning(lower, Last(d.members, k)) == Meaning(lower, Last(e.members, k)))
    ensures Equivalent(lower, d, e) <==> Meaning(lower, d) == Meaning(lower, e)
  {
    MeaningOfObject(lower, d);
    MeaningOfObject(lower, e);
    hide Meaning, Last, Keys;
    var xs, ys := Meaning(lower, d).members, Meaning(lower, e).members;
    assert Meaning(lower, d) == Meaning(lower, e) <==> xs == ys;
    if Equivalent(lower, d, e) {
      SameMap(xs, ys);
    }
  }

  lemma {:induction false} EquivalentToItself(lower: char -> char, d: Doc)
    ensures Equivalent(lower, d, d)
  {
    EquivalentIffSameMeaning(lower, d, d);
  }

  /** Writing the members of an object in another order does not change what it means. */
  lemma MemberOrderDoesNotMatter(lower: char -> char, ms: seq<Member>, ns: seq<Member>)
    requires multiset(ms) == multiset(ns)
    requires forall m, n :: m in ms && n in ms && m.key == n.key ==> m == n
    ensures Equivalent(lower, DObject(ms), DObject(ns))
  {
    assert forall m :: m in ms <==> m in multiset(ms);
    assert forall m :: m in ns <==> m in multiset(ns);
    assert Keys(ms) == Keys(ns);
    forall k | k in Keys(ms) ensures Equivalent(lower, Last(ms, k), Last(ns, k)) {
      assert Last(ms, k) == Last(ns, k);
      EquivalentToItself(lower, Last(ms, k));
    }
  }

  /** Of members with one key only the last counts. */
  lemma EarlierMembersOfAKeyDoNotMatter(lower: char -> char, ms: seq<Member>, i: nat, j: nat)
    requires i < j < |ms| && ms[i].key == ms[j].key
    ensures Equivalent(lower, DObject(ms), DObject(ms[..i] + ms[i + 1..]))
  {
    var ns := ms[..i] + ms[i + 1..];
    assert ms == ms[..i] + [ms[i]] + ms[i + 1..];
    assert ms[j] == ns[j - 1];
    assert Keys(ms) == Keys(ns);
    forall k | k in Keys(ms) ensures Equivalent(lower, Last(ms, k), Last(ns, k)) {
      LastWithout(ms, i, k);
      EquivalentToItself(lower, Last(ms, k));
    }
  }

  lemma {:induction false} LastWithout(ms: seq<Member>, i: nat, key: string)
    requires i < |ms| && exists j :: i < j < |ms| && ms[j].key == ms[i].key
    requires key in Keys(ms)
    ensures key in Keys(ms[..i] + ms[i + 1..]) && Last(ms, key) == Last(ms[..i] + ms[i + 1..], key)
  {
    var ns := ms[..i] + ms[i + 1..];
    var p := LastPlace(ms, key);
    var q := if p < i then p else p - 1;
    assert p != i;
    assert ns[q] == ms[p] && ns[q] in ns;
    forall j | q < j < |ns| ensures ns[j].key != key {
      assert ns[j] == ms[if j < i then j else j + 1];
    }
    LastWins(ms, p);
    LastWins(ns, q);
  }

  lemma {:induction false} LastPlace(ms: seq<Member>, key: string) returns (p: nat)
    requires key in Keys(ms)
    ensures p < |ms| && ms[p].key == key && forall j :: p < j < |ms| ==> ms[j].key != key
  {
    var n := |ms| - 1;
    if ms[n].key == key {
      p := n;
    } else {
      assert ms == ms[..n] + [ms[n]];
      p := LastPlace(ms[..n], key);
    }
  }

  /** The stable half: equivalent calls always share their fingerprint. */
  lemma EquivalentCallsShareFingerprint(codec: Codec, toolName: string, arguments: string,
                                        otherTool: string, otherArguments: string)
    requires codec.parse(arguments).Some? && codec.parse(otherArguments).Some?
    requires MapText(codec.lower, TrimSpace(toolName)) == MapText(codec.lower, TrimSpace(otherTool))
    requires Equivalent(codec.lower, codec.parse(arguments).value, codec.parse(otherArguments).value)
    ensures ToolCallFingerprint(codec, toolName, arguments) == ToolCallFingerprint(codec, otherTool, otherArguments)
  {
    var d, e := codec.parse(arguments).value, codec.parse(otherArguments).value;
    EquivalentIffSameMeaning(codec.lower, d, e);
    SameValueSameText(codec.lower, Decode(d), Decode(e));
  }

  /** One tool name goes on, past a bar, into the arguments of the other call. */
  predicate BarCollision(codec: Codec, toolName: string, arguments: string, otherTool: string, otherArguments: string) {
    var name, otherName := MapText(codec.lower, TrimSpace(toolName)), MapText(codec.lower, TrimSpace(otherTool));
    var text, otherText := ArgumentText(codec, arguments), ArgumentText(codec, otherArguments);
    && name != "" && otherName != ""
    && (RunsOver(name, text, otherName, otherText, '|') || RunsOver(otherName, otherText, name, text, '|'))
  }

  /** Exactly when two calls share their fingerprint, whatever their names and arguments. */
  lemma EqualFingerprintsIff(codec: Codec, toolName: string, arguments: string, otherTool: string, otherArguments: string)
    ensures var name, otherName := MapText(codec.lower, TrimSpace(toolName)), MapText(codec.lower, TrimSpace(otherTool));
            ToolCallFingerprint(codec, toolName, arguments) == ToolCallFingerprint(codec, otherTool, otherArguments)
            <==> (name == otherName
                  && (name == "" || ArgumentText(codec, arguments) == ArgumentText(codec, otherArguments)))
                 || BarCollision(codec, toolName, arguments, otherTool, otherArguments)
    ensures '|' !in MapText(codec.lower, TrimSpace(toolName)) && '|' !in MapText(codec.lower, TrimSpace(otherTool)) ==>
              !BarCollision(codec, toolName, arguments, otherTool, otherArguments)
  {
    hide ArgumentText, TrimSpace, MapText;
    JoinedEqualIff(FoldName(codec, toolName), ArgumentText(codec, arguments),
                   FoldName(codec, otherTool), ArgumentText(codec, otherArguments), '|');
    assert ['|'] == "|";
  }

  /**
   Both halves, for arguments whose keys are plain: the calls are equivalent, or one name runs
   over into the other call's arguments, which takes a bar in it.
   */
  lemma EqualFingerprintsIffEquivalentCalls(codec: Codec, toolName: string, arguments: string,
                                            otherTool: string, otherArguments: string)
    requires codec.parse(arguments).Some? && codec.parse(otherArguments).Some?
    requires PlainKeys(Decode(codec.parse(arguments).value)) && PlainKeys(Decode(codec.parse(otherArguments).value))
    ensures var name, otherName := MapText(codec.lower, TrimSpace(toolName)), MapText(codec.lower, TrimSpace(otherTool));
            ToolCallFingerprint(codec, toolName, arguments) == ToolCallFingerprint(codec, otherTool, otherArguments)
            <==> (name == otherName
                  && (name == "" || Equivalent(codec.lower, codec.parse(arguments).value, codec.parse(otherArguments).value)))
                 || BarCollision(codec, toolName, arguments, otherTool, otherArguments)
  {
    EqualFingerprintsIff(codec, toolName, arguments, otherTool, otherArguments);
    var d, e := codec.parse(arguments).value, codec.parse(otherArguments).value;
    EquivalentIffSameMeaning(codec.lower, d, e);
    SameTextIffSameValue(codec.lower, Decode(d), Decode(e));
    assert Meaning(codec.lower, d) == FoldValue(codec.lower, Decode(d));
    assert Meaning(codec.lower, e) == FoldValue(codec.lower, Decode(e));
    hide Canonical, FoldValue, MapText, TrimSpace, Equivalent, BarCollision, ToolCallFingerprint, Decode, PlainKeys, Meaning;
  }

  /** Two values with plain keys print alike exactly when they fold to the same value. */
  lemma SameTextIffSameValue(lower: char -> char, v: Json, w: Json)
    requires PlainKeys(v) && PlainKeys(w)
    ensures Canonical(lower, v) == Canonical(lower, w) <==> FoldValue(lower, v) == FoldValue(lower, w)
  {
    hide Canonical;
    var x, y := Canonical(lower, v), Canonical(lower, w);
    if FoldValue(lower, v) == FoldValue(lower, w) {
      SameValueSameText(lower, v, w);
    }
    if x == y {
      assert x + "" == x && y + "" == y;
      PrintingIsUnambiguous(lower, v, w, "", "");
    }
  }

  /** Arguments that do not parse are identified by their folded text. */
  lemma EqualFingerprintsOfUnparsedCalls(codec: Codec, toolName: string, arguments: string,
                                         otherTool: string, otherArguments: string)
    requires codec.parse(arguments).None? && codec.parse(otherArguments).None?
    ensures var name, otherName := MapText(codec.lower, TrimSpace(toolName)), MapText(codec.lower, TrimSpace(otherTool));
            ToolCallFingerprint(codec, toolName, arguments) == ToolCallFingerprint(codec, otherTool, otherArguments)
            <==> (name == otherName
                  && (name == "" || WordsOf(MapText(codec.lower, arguments)) == WordsOf(MapText(codec.lower, otherArguments))))
                 || BarCollision(codec, toolName, arguments, otherTool, otherArguments)
  {
    EqualFingerprintsIff(codec, toolName, arguments, otherTool, otherArguments);
    FoldsAlikeIff(codec.lower, arguments, otherArguments);
    hide MapText, TrimSpace, Fold, WordsOf, ToolCallFingerprint, BarCollision;
  }

  /**
   Two calls of one tool that differ in the text of one member share their fingerprint exactly
   when the two texts hold the same words in lower case.
   */
  lemma OneTextApart(codec: Codec, toolName: string, arguments: string, otherArguments: string,
                     key: string, s: string, t: string)
    requires MapText(codec.lower, TrimSpace(toolName)) != "" && PlainKey(key)
    requires codec.parse(arguments) == Some(DObject([Member(key, DStr(s))]))
    requires codec.parse(otherArguments) == Some(DObject([Member(key, DStr(t))]))
    ensures ToolCallFingerprint(codec, toolName, arguments) == ToolCallFingerprint(codec, toolName, otherArguments)
            <==> WordsOf(MapText(codec.lower, s)) == WordsOf(MapText(codec.lower, t))
  {
    var d, e := DObject([Member(key, DStr(s))]), DObject([Member(key, DStr(t))]);
    TextMember(codec.lower, key, s);
    TextMember(codec.lower, key, t);
    EqualFingerprintsIff(codec, toolName, arguments, toolName, otherArguments);
    SameTextIffSameValue(codec.lower, Decode(d), Decode(e));
    FoldsAlikeIff(codec.lower, s, t);
    var x, y := FoldValue(codec.lower, Decode(d)), FoldValue(codec.lower, Decode(e));
    hide Canonical, Decode, FoldValue, Fold, WordsOf, TrimSpace, MapText;
    assert x == y ==> x.members[key] == y.members[key];
  }

  lemma TextMember(lower: char -> char, key: string, s: string)
    requires PlainKey(key)
    ensures var v := Decode(DObject([Member(key, DStr(s))]));
            PlainKeys(v) && FoldValue(lower, v) == Object(map[key := Str(Fold(lower, s))])
  {
    assert Keys([Member(key, DStr(s))]) == {key};
    var v := Decode(DObject([Member(key, DStr(s))]));
    assert Decode(DStr(s)) == Str(s) && v.members[key] == Str(s);
    assert v.members == map[key := Str(s)];
    hide Fold;
    assert FoldValue(lower, v).members == map[key := FoldValue(lower, Str(s))];
  }

  // ---- Where the conditions are needed ----------------------------------------------

  lemma OneMemberText(lower: char -> char, key: string, n: Number)
    ensures Canonical(lower, Object(map[key := Num(n)])) == "{" + key + ":" + n + "}"
  {
    var v := Object(map[key := Num(n)]);
    BelowIsTotal(key, key);
    SortedKeysIsTheOnlyOrder(v.members.Keys, [key]);
    assert MemberParts(lower, v, []) == [];
    assert MemberParts(lower, v, [key]) == [key + ":" + n];
  }

  lemma TwoMembersText(lower: char -> char, j: string, m: Number, k: string, n: Number)
    requires Below(j, k)
    ensures Canonical(lower, Object(map[j := Num(m), k := Num(n)])) == "{" + (j + ":" + m + "," + (k + ":" + n)) + "}"
  {
    var v := Object(map[j := Num(m), k := Num(n)]);
    BelowIsTotal(j, k);
    SortedKeysIsTheOnlyOrder(v.members.Keys, [j, k]);
    hide SortedKeys;
    assert [j, k][1..] == [k] && [k][1..] == [];
    assert MemberParts(lower, v, [k]) == [k + ":" + n];
    assert MemberParts(lower, v, [j, k]) == [j + ":" + m, k + ":" + n];
    hide MemberParts;
    var parts := [j + ":" + m, k + ":" + n];
    assert parts[1..] == [k + ":" + n];
    assert Join(parts, ",") == j + ":" + m + "," + (k + ":" + n);
  }

  /**
   A key with a colon in it can imitate two members: {"a":1,"b":2} prints like
   {"a:1,b":2}, and so does every other object of two numbers.
   */
  lemma BareKeysCollide(lower: char -> char, j: string, m: Number, k: string, n: Number)
    requires Below(j, k)
    ensures var v := Object(map[j := Num(m), k := Num(n)]);
            var w := Object(map[j + ":" + m + "," + k := Num(n)]);
            && Canonical(lower, v) == Canonical(lower, w)
            && FoldValue(lower, v) != FoldValue(lower, w)
  {
    var c := j + ":" + m + "," + k;
    var v := Object(map[j := Num(m), k := Num(n)]);
    var w := Object(map[c := Num(n)]);
    TwoMembersText(lower, j, m, k, n);
    OneMemberText(lower, c, n);
    FoldValueKeepsKeys(lower, v);
    FoldValueKeepsKeys(lower, w);
    hide Canonical, FoldValue;
    Regroup(j, m, k, n);
    assert j in v.members && j !in w.members by { assert |c| > |j|; }
  }

  /**
   A key that starts with a closing brace can imitate the end of an object, colon or not:
   [{"},{x":1}] prints like [{},{"x":1}].
   */
  lemma BraceKeysCollide(lower: char -> char, k: string, n: Number)
    ensures var c := "},{" + k;
            var v, w := Array([Object(map[c := Num(n)])]), Array([Object(map[]), Object(map[k := Num(n)])]);
            && (':' !in k ==> ':' !in c)
            && Canonical(lower, v) == Canonical(lower, w)
            && FoldValue(lower, v) != FoldValue(lower, w)
  {
    var c := "},{" + k;
    var one, two := Object(map[c := Num(n)]), Object(map[k := Num(n)]);
    var none := Object(map[]);
    var v, w := Array([one]), Array([none, two]);
    OneMemberText(lower, c, n);
    OneMemberText(lower, k, n);
    NoMemberText(lower);
    ArrayTexts(lower, one, none, two);
    assert |FoldValue(lower, v).items| == 1 && |FoldValue(lower, w).items| == 2;
    hide Canonical, FoldValue;
    assert "[" + ("{" + c + ":" + n + "}") + "]" == "[" + ("{}" + "," + ("{" + k + ":" + n + "}")) + "]";
  }

  lemma NoMemberText(lower: char -> char)
    ensures Canonical(lower, Object(map[])) == "{}"
  {
    var v := Object(map[]);
    SortedKeysIsTheOnlyOrder(v.members.Keys, []);
    assert MemberParts(lower, v, []) == [];
  }

  lemma ArrayTexts(lower: char -> char, one: Json, none: Json, two: Json)
    ensures Canonical(lower, Array([one])) == "[" + Canonical(lower, one) + "]"
    ensures Canonical(lower, Array([none, two])) == "[" + (Canonical(lower, none) + "," + Canonical(lower, two)) + "]"
  {
    var a, b, c := Canonical(lower, one), Canonical(lower, none), Canonical(lower, two);
    assert ItemParts(lower, [one]) == [a] && ItemParts(lower, [none, two]) == [b, c];
    assert [b, c][1..] == [c];
    assert Join([b, c], ",") == b + "," + c;
  }

  lemma Regroup(j: string, m: string, k: string, n: string)
    ensures "{" + (j + ":" + m + "," + (k + ":" + n)) + "}" == "{" + (j + ":" + m + "," + k) + ":" + n + "}"
  {
    assert j + ":" + m + "," + (k + ":" + n) == j + ":" + m + "," + k + ":" + n;
  }

  lemma FoldValueKeepsKeys(lower: char -> char, v: Json)
    requires v.Object?
    ensures FoldValue(lower, v).Object? && FoldValue(lower, v).members.Keys == v.members.Keys
  {
  }

  /** A tool name with '|' in it can take over the start of another call's arguments. */
  lemma PipedNamesCollide(codec: Codec, toolName: string, otherTool: string, arguments: string, otherArguments: string,
                          j: string, k: string, n: Number)
    requires FoldName(codec, toolName) != ""
    requires FoldName(codec, otherTool) == FoldName(codec, toolName) + "|{" + j
    requires codec.parse(arguments) == Some(DObject([Member(j + "|{" + k, DNum(n))]))
    requires codec.parse(otherArguments) == Some(DObject([Member(k, DNum(n))]))
    ensures ToolCallFingerprint(codec, toolName, arguments) == ToolCallFingerprint(codec, otherTool, otherArguments)
  {
    DecodeOneMember(j + "|{" + k, n);
    DecodeOneMember(k, n);
    OneMemberText(codec.lower, j + "|{" + k, n);
    OneMemberText(codec.lower, k, n);
    hide Canonical, Decode, FoldName;
    var t := FoldName(codec, toolName);
    assert t + "|" + ("{" + (j + "|{" + k) + ":" + n + "}") == t + "|{" + j + "|" + ("{" + k + ":" + n + "}");
  }

  lemma DecodeOneMember(key: string, n: Number)
    ensures Decode(DObject([Member(key, DNum(n))])) == Object(map[key := Num(n)])
  {
    assert Keys([Member(key, DNum(n))]) == {key};
  }

  /** A text that is not JSON can share the fingerprint of one that is: {a:1} and {"a":1}. */
  lemma UnparsedTextCollides(codec: Codec, toolName: string, arguments: string, otherArguments: string,
                             k: string, n: Number)
    requires FoldName(codec, toolName) != ""
    requires codec.parse(arguments) == Some(DObject([Member(k, DNum(n))]))
    requires codec.parse(otherArguments) == None && MapText(codec.lower, otherArguments) == "{" + k + ":" + n + "}"
    requires NoSpaces(k)
    ensures ToolCallFingerprint(codec, toolName, arguments) == ToolCallFingerprint(codec, toolName, otherArguments)
  {
    DecodeOneMember(k, n);
    OneMemberText(codec.lower, k, n);
    var text := "{" + k + ":" + n + "}";
    NoSpaceInMember(k, n);
    hide Canonical, Decode, FoldName, IsSpace, MapText;
    WordIsItsOnlyField(text);
    assert Fold(codec.lower, otherArguments) == text;
  }

  lemma NoSpaceInMember(k: string, n: Number)
    requires NoSpaces(k)
    ensures var text := "{" + k + ":" + n + "}";
            text != "" && NoSpaces(text)
  {
    assert NoSpaces("{") && NoSpaces(":") && NoSpaces("}") && NoSpaces(n) && NoSpaces(k);
    hide IsSpace, NoSpaces;
    NoSpacesJoined("{", k);
    NoSpacesJoined("{" + k, ":");
    NoSpacesJoined("{" + k + ":", n);
    NoSpacesJoined("{" + k + ":" + n, "}");
  }

  predicate NoSpaces(s: string) {
    forall i :: 0 <= i < |s| ==> !IsSpace(s[i])
  }

  lemma NoSpacesJoined(a: string, b: string)
    requires NoSpaces(a) && NoSpaces(b)
    ensures NoSpaces(a + b)
  {
    hide IsSpace;
  }

  lemma WordIsItsOnlyField(s: string)
    requires s != "" && NoSpaces(s)
    ensures Join(Fields(s), " ") == s
  {
    WholeWord(s);
    assert TrimLeft(s) == s;
    assert s[..|s|] == s && s[|s|..] == "";
    assert Fields("") == [];
    assert Fields(s) == [s] + Fields("");
    hide Fields;
    assert [s] + [] == [s];
  }

  lemma WholeWord(s: string)
    requires NoSpaces(s)
    ensures WordLength(s) == |s|
  {
    if s != "" {
      WholeWord(s[1..]);
    }
  }
}
