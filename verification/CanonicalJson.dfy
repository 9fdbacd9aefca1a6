/**
 The canonical JSON rendering every ACOP digest is taken over, and a parser that undoes it.
 The parser is not in the program: it is the independent meaning the printer is proved against.
 */
module CanonicalJson {
  import opened Base
  import Orders

  /** Characters a JSON number token can hold, with the three tokens Python adds: NaN and the infinities. */
  predicate IsDigit(c: char) { '0' <= c <= '9' }

  predicate TokenStart(c: char) { IsDigit(c) || c == '-' || c == 'N' || c == 'I' }

  predicate TokenChar(c: char) {
    TokenStart(c) || c == '+' || c == '.' || c == 'e' || c == 'E'
    || c == 'a' || c == 'n' || c == 'f' || c == 'i' || c == 't' || c == 'y'
  }

  predicate IsToken(s: string) {
    s != [] && TokenStart(s[0]) && forall i :: 0 <= i < |s| ==> TokenChar(s[i])
  }
  type NumToken = s: string | IsToken(s) witness "0"

  /** What a rendering denotes: RFC 8259 values, objects being finite maps. Numbers are their tokens. */
  datatype Json =
    | Null
    | Bool(b: bool)
    | Number(token: NumToken)
    | Text(s: string)
    | Array(elements: seq<Json>)
    | Object(members: map<string, Json>)

  /** The Python values handed to the printer. A dict lists its items in insertion order. */
  datatype Py =
    | PNone
    | PBool(b: bool)
    | PInt(n: int)
    | PFloat(repr: NumToken)
    | PStr(s: string)
    | PList(elements: seq<Py>)
    | PDict(items: seq<Item>)
    | PUuid(text: string)
    | PSet(strings: set<string>)

  datatype Item = Item(key: string, value: Py)

  // ---- Decimal integers ----

  function Digit(n: nat): (c: char)
    requires n < 10
    ensures IsDigit(c) && DigitValue(c) == n
  {
    '0' + n as char
  }

  function DigitValue(c: char): nat {
    if '0' <= c <= '9' then c as int - '0' as int else 0
  }

  function Decimal(n: nat): (s: string)
    ensures s != [] && forall i :: 0 <= i < |s| ==> IsDigit(s[i])
  {
    if n < 10 then [Digit(n)] else Decimal(n / 10) + [Digit(n % 10)]
  }

  /** int.__repr__. */
  function IntToken(n: int): NumToken {
    if n < 0 then "-" + Decimal(-n) else Decimal(n)
  }

  function DecimalValue(s: string): nat {
    if s == [] then 0 else 10 * DecimalValue(s[..|s| - 1]) + DigitValue(s[|s| - 1])
  }

  lemma {:induction false} DecimalRoundTrip(n: nat)
    ensures DecimalValue(Decimal(n)) == n
  {
    if n >= 10 {
      DecimalRoundTrip(n / 10);
      var s := Decimal(n);
      assert s[..|s| - 1] == Decimal(n / 10);
    } else {
      assert Decimal(n)[..0] == [];
    }
  }

  lemma IntTokenInjective(a: int, b: int)
    requires IntToken(a) == IntToken(b)
    ensures a == b
  {
    DecimalRoundTrip(if a < 0 then -a else a);
    DecimalRoundTrip(if b < 0 then -b else b);
    assert a < 0 <==> IntToken(a)[0] == '-';
    assert b < 0 <==> IntToken(b)[0] == '-';
    if a < 0 {
      assert IntToken(a)[1..] == Decimal(-a) && IntToken(b)[1..] == Decimal(-b);
    }
  }

  // ---- The printer ----

  function HexDigit(n: nat): (c: char)
    requires n < 16
  {
    if n < 10 then '0' + n as char else 'a' + (n - 10) as char
  }

  /** One character inside a string literal: ensure_ascii is off, so only what JSON forbids is escaped. */
  function EscapeChar(c: char): (s: string)
    ensures s != [] && s[0] != '\"'
  {
    if c == '\"' then "\\\""
    else if c == '\\' then "\\\\"
    else if c == '\n' then "\\n"
    else if c == '\r' then "\\r"
    else if c == '\t' then "\\t"
    else if c == 12 as char then "\\f"
    else if c == 8 as char then "\\b"
    else if c < ' ' then ['\\', 'u', '0', '0', HexDigit(c as int / 16), HexDigit(c as int % 16)]
    else [c]
  }

  function Escape(s: string): string {
    if s == [] then [] else EscapeChar(s[0]) + Escape(s[1..])
  }

  function Quote(s: string): string { "\"" + Escape(s) + "\"" }

  /** json.dumps with sort_keys, tight separators, ensure_ascii off and the fallback encoder. */
  function Print(p: Py): string
    decreases p, 0
  {
    match p
    case PNone => "null"
    case PBool(b) => if b then "true" else "false"
    case PInt(n) => IntToken(n)
    case PFloat(repr) => repr
    case PStr(s) => Quote(s)
    case PList(elements) => "[" + PrintElements(elements)
    case PDict(items) =>
      var texts := Rendered(items);
      "{" + PrintMembers(Orders.SortedStrings(texts.Keys), texts)
    case PUuid(text) => Quote(text)
    case PSet(strings) =>
      "[" + PrintStrings(Orders.SortedStrings(strings))
  }

  /** List elements with their separators, up to and including the closing bracket. */
  function PrintElements(vs: seq<Py>): string
    decreases vs, 1
  {
    if vs == [] then "]"
    else Print(vs[0]) + (if |vs| == 1 then "]" else "," + PrintElements(vs[1..]))
  }

  /** The text of each value of a dict. A key holds its last value. */
  function Rendered(items: seq<Item>): map<string, string>
    decreases items, 1
  {
    if items == [] then map[]
    else
      var last := |items| - 1;
      Rendered(items[..last])[items[last].key := Print(items[last].value)]
  }

  function PrintMembers(keys: seq<string>, texts: map<string, string>): string
    requires forall k :: k in keys ==> k in texts
  {
    if keys == [] then "}"
    else
      var more := if |keys| == 1 then "}" else "," + PrintMembers(keys[1..], texts);
      Quote(keys[0]) + (":" + (texts[keys[0]] + more))
  }

  function PrintStrings(ss: seq<string>): string {
    if ss == [] then "]"
    else Quote(ss[0]) + (if |ss| == 1 then "]" else "," + PrintStrings(ss[1..]))
  }

  // ---- What a value means, whatever order its dicts were built in ----

  function Denote(p: Py): Json
    decreases p, 0
  {
    match p
    case PNone => Null
    case PBool(b) => Bool(b)
    case PInt(n) => Number(IntToken(n))
    case PFloat(repr) => Number(repr)
    case PStr(s) => Text(s)
    case PList(elements) => Array(DenoteElements(elements))
    case PDict(items) => Object(DenoteItems(items))
    case PUuid(text) => Text(text)
    case PSet(strings) => SortedList(strings)
  }

  function DenoteElements(vs: seq<Py>): (js: seq<Json>)
    ensures |js| == |vs|
    decreases vs, 1
  {
    if vs == [] then [] else [Denote(vs[0])] + DenoteElements(vs[1..])
  }

  function DenoteItems(items: seq<Item>): map<string, Json>
    decreases items, 1
  {
    if items == [] then map[]
    else
      var last := |items| - 1;
      DenoteItems(items[..last])[items[last].key := Denote(items[last].value)]
  }

  function Texts(ss: seq<string>): (js: seq<Json>)
    ensures |js| == |ss|
    ensures forall i :: 0 <= i < |ss| ==> js[i] == Text(ss[i])
  {
    if ss == [] then [] else [Text(ss[0])] + Texts(ss[1..])
  }

  // ---- The canonical text ----

  /** The one text of a denoted value: what makes the text independent of how its dicts were built. */
  function CanonicalText(j: Json): string
    decreases j, 2
  {
    match j
    case Null => "null"
    case Bool(b) => if b then "true" else "false"
    case Number(token) => token
    case Text(s) => Quote(s)
    case Array(elements) => "[" + CanonicalElements(elements)
    case Object(members) => "{" + PrintMembers(Orders.SortedStrings(members.Keys), MemberTexts(j))
  }

  function MemberTexts(j: Json): (texts: map<string, string>)
    requires j.Object?
    ensures texts.Keys == j.members.Keys
    decreases j, 0
  {
    map k | k in j.members :: CanonicalText(j.members[k])
  }

  function CanonicalElements(js: seq<Json>): string
    decreases js, 1
  {
    if js == [] then "]"
    else CanonicalText(js[0]) + (if |js| == 1 then "]" else "," + CanonicalElements(js[1..]))
  }

  /** Printing a value prints what it denotes: the text does not depend on how its dicts were built. */
  lemma {:induction false} PrintIsCanonical(p: Py)
    ensures Print(p) == CanonicalText(Denote(p))
    decreases p, 0
  {
    match p
    case PList(elements) => ElementsCanonical(elements);
    case PSet(strings) => SetCanonical(strings);
    case PDict(items) => DictCanonical(items);
    case _ =>
  }

  lemma SetCanonical(strings: set<string>)
    ensures Print(PSet(strings)) == CanonicalText(Denote(PSet(strings)))
  {
    StringsCanonical(Orders.SortedStrings(strings));
  }

  lemma {:induction false} DictCanonical(items: seq<Item>)
    ensures Print(PDict(items)) == CanonicalText(Denote(PDict(items)))
    decreases items, 2
  {
    ItemsCanonical(items);
  }

  lemma {:induction false} ElementsCanonical(vs: seq<Py>)
    ensures PrintElements(vs) == CanonicalElements(DenoteElements(vs))
    decreases vs, 1
  {
    if vs != [] {
      PrintIsCanonical(vs[0]);
      ElementsCanonical(vs[1..]);
      assert DenoteElements(vs)[1..] == DenoteElements(vs[1..]);
    }
  }

  lemma {:induction false} StringsCanonical(ss: seq<string>)
    ensures PrintStrings(ss) == CanonicalElements(Texts(ss))
  {
    if ss != [] {
      StringsCanonical(ss[1..]);
      assert Texts(ss)[1..] == Texts(ss[1..]);
    }
  }

  lemma {:induction false} ItemsCanonical(items: seq<Item>)
    ensures Rendered(items) == MemberTexts(Object(DenoteItems(items)))
    decreases items, 1
  {
    if items != [] {
      var last := |items| - 1;
      ItemsCanonical(items[..last]);
      PrintIsCanonical(items[last].value);
    }
  }

  // ---- How the text is laid out ----

  /** ",".join. */
  function Commas(parts: seq<string>): string {
    if parts == [] then "" else if |parts| == 1 then parts[0] else parts[0] + "," + Commas(parts[1..])
  }

  function MemberParts(m: map<string, Json>, keys: seq<string>): seq<string>
    requires forall k :: k in keys ==> k in m
  {
    if keys == [] then [] else [Quote(keys[0]) + ":" + CanonicalText(m[keys[0]])] + MemberParts(m, keys[1..])
  }

  function ElementParts(js: seq<Json>): seq<string> {
    if js == [] then [] else [CanonicalText(js[0])] + ElementParts(js[1..])
  }

  /** One more part in front: its own text, and after a comma the rest, before what closes the list. */
  lemma CommasStep(head: string, tail: seq<string>, close: string)
    ensures Commas([head] + tail) + close == head + (if tail == [] then close else "," + (Commas(tail) + close))
  {
    var parts := [head] + tail;
    assert parts[1..] == tail;
    if tail != [] {
      Regroup(head, ",", Commas(tail));
      Regroup(head, "," + Commas(tail), close);
      Regroup(",", Commas(tail), close);
    }
  }

  lemma {:induction false} MembersJoined(m: map<string, Json>, keys: seq<string>)
    requires forall k :: k in keys ==> k in m
    ensures PrintMembers(keys, MemberTexts(Object(m))) == Commas(MemberParts(m, keys)) + "}"
  {
    if keys != [] {
      var key, text, tail := Quote(keys[0]), CanonicalText(m[keys[0]]), MemberParts(m, keys[1..]);
      MembersJoined(m, keys[1..]);
      CommasStep(key + ":" + text, tail, "}");
      assert tail == [] <==> |keys| == 1;
      MemberGrouped(key, text, if |keys| == 1 then "}" else "," + (Commas(tail) + "}"));
    }
  }

  lemma MemberGrouped(key: string, text: string, more: string)
    ensures key + (":" + (text + more)) == (key + ":" + text) + more
  {
    Regroup(key + ":", text, more);
    Regroup(key, ":", text + more);
  }

  lemma {:induction false} ElementsJoined(js: seq<Json>)
    ensures CanonicalElements(js) == Commas(ElementParts(js)) + "]"
  {
    if js != [] {
      ElementsJoined(js[1..]);
      CommasStep(CanonicalText(js[0]), ElementParts(js[1..]), "]");
      assert ElementParts(js[1..]) == [] <==> |js| == 1;
    }
  }

  /** The text of an object is its members, each a quoted key, a colon and the text of its value, joined by commas with
      nothing between, the keys ascending by code point and each there once; the text of a list is its elements, in order. */
  lemma LaidOutExactly(m: map<string, Json>, js: seq<Json>) returns (keys: seq<string>)
    ensures Orders.Ascending(Orders.StringLess, keys) && forall k :: k in keys <==> k in m
    ensures CanonicalText(Object(m)) == "{" + (Commas(MemberParts(m, keys)) + "}")
    ensures CanonicalText(Array(js)) == "[" + (Commas(ElementParts(js)) + "]")
  {
    keys := Orders.SortedStrings(m.Keys);
    Orders.SortedStringsAscend(m.Keys);
    MembersJoined(m, keys);
    ElementsJoined(js);
  }

  // ---- The parser ----

  datatype Parsed<+T> = Fail | Ok(value: T, rest: string)

  function HexValue(c: char): Option<nat> {
    if '0' <= c <= '9' then Some(c as int - '0' as int)
    else if 'a' <= c <= 'f' then Some(10 + c as int - 'a' as int)
    else None
  }

  /** A string literal after its opening quote. */
  function ParseString(s: string): (r: Parsed<string>)
    ensures r.Ok? ==> |r.rest| < |s|
  {
    if s == [] then Fail
    else if s[0] == '\"' then Ok([], s[1..])
    else if s[0] != '\\' then Prepend(s[0], ParseString(s[1..]))
    else if |s| < 2 then Fail
    else match s[1]
      case '\"' => Prepend('\"', ParseString(s[2..]))
      case '\\' => Prepend('\\', ParseString(s[2..]))
      case 'n' => Prepend('\n', ParseString(s[2..]))
      case 'r' => Prepend('\r', ParseString(s[2..]))
      case 't' => Prepend('\t', ParseString(s[2..]))
      case 'f' => Prepend(12 as char, ParseString(s[2..]))
      case 'b' => Prepend(8 as char, ParseString(s[2..]))
      case 'u' =>
        if |s| < 6 || s[2] != '0' || s[3] != '0' then Fail
        else
          var hi, lo := HexValue(s[4]), HexValue(s[5]);
          if hi.None? || lo.None? then Fail
          else Prepend((16 * hi.value + lo.value) as char, ParseString(s[6..]))
      case _ => Fail
  }

  function Prepend(c: char, r: Parsed<string>): Parsed<string> {
    match r
    case Fail => Fail
    case Ok(t, rest) => Ok([c] + t, rest)
  }

  /** How many leading characters belong to a number token. */
  function TokenLength(s: string): (n: nat)
    ensures n <= |s|
    ensures forall i :: 0 <= i < n ==> TokenChar(s[i])
  {
    if s == [] || !TokenChar(s[0]) then 0 else 1 + TokenLength(s[1..])
  }

  function Keyword(word: string, j: Json, s: string): (r: Parsed<Json>)
    requires word != []
    ensures r.Ok? ==> |r.rest| < |s|
  {
    if |word| <= |s| && s[..|word|] == word then Ok(j, s[|word|..]) else Fail
  }

  function ParseValue(s: string): (r: Parsed<Json>)
    ensures r.Ok? ==> |r.rest| < |s|
    decreases |s|, 0
  {
    if s == [] then Fail
    else if s[0] == '\"' then
      var t := ParseString(s[1..]);
      if t.Ok? then Ok(Text(t.value), t.rest) else Fail
    else if s[0] == '[' then
      var es := ParseElements(s[1..]);
      if es.Ok? then Ok(Array(es.value), es.rest) else Fail
    else if s[0] == '{' then
      var ms := ParseMembers(s[1..]);
      if ms.Ok? then Ok(Object(ms.value), ms.rest) else Fail
    else if s[0] == 'n' then Keyword("null", Null, s)
    else if s[0] == 't' then Keyword("true", Bool(true), s)
    else if s[0] == 'f' then Keyword("false", Bool(false), s)
    else if TokenStart(s[0]) then
      var n := TokenLength(s);
      Ok(Number(s[..n]), s[n..])
    else Fail
  }

  function ParseElements(s: string): (r: Parsed<seq<Json>>)
    ensures r.Ok? ==> |r.rest| < |s|
    decreases |s|, 1
  {
    if s != [] && s[0] == ']' then Ok([], s[1..])
    else
      var v := ParseValue(s);
      if v.Fail? || v.rest == [] then Fail
      else if v.rest[0] == ']' then Ok([v.value], v.rest[1..])
      else if v.rest[0] != ',' then Fail
      else
        var tail := ParseElements(v.rest[1..]);
        if tail.Ok? then Ok([v.value] + tail.value, tail.rest) else Fail
  }

  function ParseMembers(s: string): (r: Parsed<map<string, Json>>)
    ensures r.Ok? ==> |r.rest| < |s|
    decreases |s|, 1
  {
    if s == [] then Fail
    else if s[0] == '}' then Ok(map[], s[1..])
    else if s[0] != '\"' then Fail
    else
      var k := ParseString(s[1..]);
      if k.Fail? || k.rest == [] || k.rest[0] != ':' then Fail
      else
        var v := ParseValue(k.rest[1..]);
        if v.Fail? || v.rest == [] then Fail
        else if v.rest[0] == '}' then Ok(map[k.value := v.value], v.rest[1..])
        else if v.rest[0] != ',' then Fail
        else
          var tail := ParseMembers(v.rest[1..]);
          if tail.Ok? then Ok(map[k.value := v.value] + tail.value, tail.rest) else Fail
  }

  // ---- Round trip ----

  lemma ShortEscapeRoundTrip(c: char, rest: string)
    requires c == '\"' || c == '\\' || c == '\n' || c == '\r' || c == '\t' || c == 12 as char || c == 8 as char
    ensures ParseString(EscapeChar(c) + rest) == Prepend(c, ParseString(rest))
  {
    assert (EscapeChar(c) + rest)[2..] == rest;
  }

  lemma HexRoundTrip(n: nat)
    requires n < 16
    ensures HexValue(HexDigit(n)) == Some(n)
  {
  }

  lemma UnicodeStep(s: string, hi: nat, lo: nat)
    requires |s| >= 6 && s[0] == '\\' && s[1] == 'u' && s[2] == '0' && s[3] == '0'
    requires HexValue(s[4]) == Some(hi) && HexValue(s[5]) == Some(lo) && hi < 16 && lo < 16
    ensures ParseString(s) == Prepend((16 * hi + lo) as char, ParseString(s[6..]))
  {
  }

  lemma ControlEscapeRoundTrip(c: char, rest: string)
    requires c < ' ' && |EscapeChar(c)| == 6
    ensures ParseString(EscapeChar(c) + rest) == Prepend(c, ParseString(rest))
  {
    var hi, lo := c as int / 16, c as int % 16;
    HexRoundTrip(hi);
    HexRoundTrip(lo);
    var s := ['\\', 'u', '0', '0', HexDigit(hi), HexDigit(lo)] + rest;
    assert s[6..] == rest;
    UnicodeStep(s, hi, lo);
    assert (16 * hi + lo) as char == c;
  }

  lemma EscapeCharRoundTrip(c: char, rest: string)
    ensures ParseString(EscapeChar(c) + rest) == Prepend(c, ParseString(rest))
  {
    if |EscapeChar(c)| == 2 {
      ShortEscapeRoundTrip(c, rest);
    } else if |EscapeChar(c)| == 6 {
      ControlEscapeRoundTrip(c, rest);
    } else {
      assert (EscapeChar(c) + rest)[1..] == rest;
    }
  }

  lemma {:induction false} StringRoundTrip(t: string, rest: string)
    ensures ParseString(Escape(t) + "\"" + rest) == Ok(t, rest)
  {
    var s := Escape(t) + "\"" + rest;
    if t == [] {
      assert s == "\"" + rest && s[1..] == rest;
    } else {
      var tail := Escape(t[1..]) + "\"" + rest;
      assert s == EscapeChar(t[0]) + tail;
      EscapeCharRoundTrip(t[0], tail);
      StringRoundTrip(t[1..], rest);
      assert t == [t[0]] + t[1..];
    }
  }

  /** What may follow a value: a number token must not run on. */
  predicate Ends(rest: string) { rest == [] || !TokenChar(rest[0]) }

  lemma {:induction false} TokenRoundTrip(token: string, rest: string)
    requires forall i :: 0 <= i < |token| ==> TokenChar(token[i])
    requires Ends(rest)
    ensures TokenLength(token + rest) == |token|
  {
    if token != [] {
      assert (token + rest)[1..] == token[1..] + rest;
      TokenRoundTrip(token[1..], rest);
    } else {
      assert token + rest == rest;
    }
  }

  lemma NumberRoundTrip(token: NumToken, rest: string)
    requires Ends(rest)
    ensures ParseValue(token + rest) == Ok(Number(token), rest)
  {
    var s := token + rest;
    TokenRoundTrip(token, rest);
    assert s[0] == token[0];
    assert s[..|token|] == token && s[|token|..] == rest;
  }

  lemma Regroup(a: string, b: string, c: string)
    ensures (a + b) + c == a + (b + c)
  {
  }

  lemma Opening(mark: string, body: string, rest: string)
    requires |mark| == 1
    ensures ((mark + body) + rest)[0] == mark[0]
    ensures ((mark + body) + rest)[1..] == body + rest
  {
  }

  lemma QuoteTail(t: string, rest: string)
    ensures (Quote(t) + rest)[0] == '\"' && (Quote(t) + rest)[1..] == Escape(t) + "\"" + rest
  {
  }

  lemma QuoteRoundTrip(t: string, rest: string)
    ensures ParseValue(Quote(t) + rest) == Ok(Text(t), rest)
  {
    QuoteTail(t, rest);
    StringRoundTrip(t, rest);
  }

  lemma ElementsLast(s: string, v: Json, after: string)
    requires s != [] && s[0] != ']' && ParseValue(s) == Ok(v, after) && after != [] && after[0] == ']'
    ensures ParseElements(s) == Ok([v], after[1..])
  {
  }

  lemma ElementsMore(s: string, v: Json, after: string, vs: seq<Json>, rest: string)
    requires s != [] && s[0] != ']' && ParseValue(s) == Ok(v, after) && after != [] && after[0] == ','
    requires ParseElements(after[1..]) == Ok(vs, rest)
    ensures ParseElements(s) == Ok([v] + vs, rest)
  {
  }

  lemma MembersLast(s: string, k: string, v: Json, colon: string, after: string)
    requires s != [] && s[0] == '\"' && ParseString(s[1..]) == Ok(k, colon)
    requires colon != [] && colon[0] == ':' && ParseValue(colon[1..]) == Ok(v, after)
    requires after != [] && after[0] == '}'
    ensures ParseMembers(s) == Ok(map[k := v], after[1..])
  {
  }

  lemma MembersMore(s: string, k: string, v: Json, colon: string, after: string,
                    ms: map<string, Json>, rest: string)
    requires s != [] && s[0] == '\"' && ParseString(s[1..]) == Ok(k, colon)
    requires colon != [] && colon[0] == ':' && ParseValue(colon[1..]) == Ok(v, after)
    requires after != [] && after[0] == ',' && ParseMembers(after[1..]) == Ok(ms, rest)
    ensures ParseMembers(s) == Ok(map[k := v] + ms, rest)
  {
  }

  lemma ArrayStep(s: string, es: seq<Json>, rest: string)
    requires s != [] && s[0] == '[' && ParseElements(s[1..]) == Ok(es, rest)
    ensures ParseValue(s) == Ok(Array(es), rest)
  {
  }

  lemma ObjectStep(s: string, ms: map<string, Json>, rest: string)
    requires s != [] && s[0] == '{' && ParseMembers(s[1..]) == Ok(ms, rest)
    ensures ParseValue(s) == Ok(Object(ms), rest)
  {
  }

  lemma KeywordRoundTrip(rest: string)
    ensures ParseValue("null" + rest) == Ok(Null, rest)
    ensures ParseValue("true" + rest) == Ok(Bool(true), rest)
    ensures ParseValue("false" + rest) == Ok(Bool(false), rest)
  {
    assert ("null" + rest)[..4] == "null" && ("null" + rest)[4..] == rest;
    assert ("true" + rest)[..4] == "true" && ("true" + rest)[4..] == rest;
    assert ("false" + rest)[..5] == "false" && ("false" + rest)[5..] == rest;
  }

  lemma ScalarRoundTrip(j: Json, rest: string)
    requires Ends(rest) && !j.Array? && !j.Object?
    ensures ParseValue(CanonicalText(j) + rest) == Ok(j, rest)
  {
    match j
    case Null => KeywordRoundTrip(rest);
    case Bool(b) => KeywordRoundTrip(rest);
    case Number(token) => NumberRoundTrip(token, rest);
    case Text(t) => QuoteRoundTrip(t, rest);
  }

  /** Parsing the canonical text of a value gives back the value and leaves the rest of the text. */
  lemma {:induction false} RoundTrip(j: Json, rest: string)
    requires Ends(rest)
    ensures ParseValue(CanonicalText(j) + rest) == Ok(j, rest)
    decreases j, 2
  {
    match j
    case Array(elements) => ArrayRoundTrip(elements, rest);
    case Object(members) => ObjectRoundTrip(members, rest);
    case _ => ScalarRoundTrip(j, rest);
  }

  lemma {:induction false} ArrayRoundTrip(js: seq<Json>, rest: string)
    ensures ParseValue(CanonicalText(Array(js)) + rest) == Ok(Array(js), rest)
    decreases js, 2
  {
    Opening("[", CanonicalElements(js), rest);
    ElementsRoundTrip(js, rest);
    ArrayStep(CanonicalText(Array(js)) + rest, js, rest);
  }

  lemma {:induction false} ElementsRoundTrip(js: seq<Json>, rest: string)
    ensures ParseElements(CanonicalElements(js) + rest) == Ok(js, rest)
    decreases js, 1
  {
    var s := CanonicalElements(js) + rest;
    if js == [] {
      assert s[1..] == rest;
    } else {
      var more := if |js| == 1 then "]" else "," + CanonicalElements(js[1..]);
      var after := more + rest;
      Regroup(CanonicalText(js[0]), more, rest);
      RoundTrip(js[0], after);
      TextOpens(js[0], after);
      if |js| == 1 {
        Opening("]", "", rest);
        ElementsLast(s, js[0], after);
        assert "" + rest == rest;
        assert js == [js[0]];
      } else {
        Opening(",", CanonicalElements(js[1..]), rest);
        ElementsRoundTrip(js[1..], rest);
        ElementsMore(s, js[0], after, js[1..], rest);
        assert js == [js[0]] + js[1..];
      }
    }
  }

  /** No value starts like the end of a list or of an object. */
  lemma TextOpens(j: Json, rest: string)
    ensures CanonicalText(j) != [] && (CanonicalText(j) + rest)[0] !in "]},:"
  {
  }

  lemma {:induction false} ObjectRoundTrip(m: map<string, Json>, rest: string)
    ensures ParseValue(CanonicalText(Object(m)) + rest) == Ok(Object(m), rest)
    decreases Object(m), 1
  {
    var keys := Orders.SortedStrings(m.Keys);
    Opening("{", PrintMembers(keys, MemberTexts(Object(m))), rest);
    MembersRoundTrip(m, keys, rest);
    RestrictAll(m, keys);
    ObjectStep(CanonicalText(Object(m)) + rest, m, rest);
  }

  function Restrict(m: map<string, Json>, keys: seq<string>): map<string, Json>
    requires forall k :: k in keys ==> k in m
  {
    map k | k in keys :: m[k]
  }

  lemma RestrictAll(m: map<string, Json>, keys: seq<string>)
    requires forall k :: k in keys <==> k in m.Keys
    ensures Restrict(m, keys) == m
  {
  }

  lemma RestrictStep(m: map<string, Json>, keys: seq<string>)
    requires keys != [] && forall k :: k in keys ==> k in m
    ensures |keys| == 1 ==> Restrict(m, keys) == map[keys[0] := m[keys[0]]]
    ensures Restrict(m, keys) == map[keys[0] := m[keys[0]]] + Restrict(m, keys[1..])
  {
    assert forall k :: k in keys <==> k == keys[0] || k in keys[1..];
  }

  /** A member opens with its key; its value and what follows come after the colon. */
  lemma MemberHead(k: string, text: string, more: string, rest: string)
    ensures var s := Quote(k) + (":" + (text + more)) + rest;
      s[0] == '\"' && ParseString(s[1..]) == Ok(k, ":" + (text + (more + rest)))
    ensures (":" + (text + (more + rest)))[1..] == text + (more + rest)
  {
    Regroup(Quote(k), ":" + (text + more), rest);
    Regroup(":", text + more, rest);
    Regroup(text, more, rest);
    QuoteTail(k, ":" + (text + (more + rest)));
    StringRoundTrip(k, ":" + (text + (more + rest)));
  }

  lemma {:induction false} MembersRoundTrip(m: map<string, Json>, keys: seq<string>, rest: string)
    requires forall k :: k in keys ==> k in m
    ensures ParseMembers(PrintMembers(keys, MemberTexts(Object(m))) + rest) == Ok(Restrict(m, keys), rest)
    decreases Object(m), 0, |keys|
  {
    var texts := MemberTexts(Object(m));
    var s := PrintMembers(keys, texts) + rest;
    if keys == [] {
      assert s[1..] == rest;
    } else {
      var k := keys[0];
      RestrictStep(m, keys);
      var more := if |keys| == 1 then "}" else "," + PrintMembers(keys[1..], texts);
      var after := more + rest;
      var colon := ":" + (texts[k] + after);
      MemberHead(k, texts[k], more, rest);
      RoundTrip(m[k], after);
      if |keys| == 1 {
        Opening("}", "", rest);
        MembersLast(s, k, m[k], colon, after);
        assert "" + rest == rest;
      } else {
        Opening(",", PrintMembers(keys[1..], texts), rest);
        MembersRoundTrip(m, keys[1..], rest);
        MembersMore(s, k, m[k], colon, after, Restrict(m, keys[1..]), rest);
      }
    }
  }

  // ---- Main results ----

  /** A whole text parsed: nothing may follow the value. */
  function Parse(s: string): Option<Json> {
    var r := ParseValue(s);
    if r.Ok? && r.rest == [] then Some(r.value) else None
  }

  lemma ParseUndoesText(j: Json)
    ensures Parse(CanonicalText(j)) == Some(j)
  {
    RoundTrip(j, []);
    assert CanonicalText(j) + [] == CanonicalText(j);
  }

  /** The parser undoes the printer. */
  lemma ParseUndoesPrint(p: Py)
    ensures Parse(Print(p)) == Some(Denote(p))
  {
    PrintIsCanonical(p);
    ParseUndoesText(Denote(p));
  }

  /** Equal canonical text holds exactly when the values denote the same JSON value. */
  lemma CanonicalTextIsInjective(a: Py, b: Py)
    ensures Print(a) == Print(b) <==> Denote(a) == Denote(b)
  {
    ParseUndoesPrint(a);
    ParseUndoesPrint(b);
    PrintIsCanonical(a);
    PrintIsCanonical(b);
  }

  ghost predicate DistinctKeys(items: seq<Item>) {
    forall i, j :: 0 <= i < j < |items| ==> items[i].key != items[j].key
  }

  lemma {:induction false} ItemIsMember(items: seq<Item>, i: nat)
    requires DistinctKeys(items) && i < |items|
    ensures items[i].key in DenoteItems(items)
    ensures DenoteItems(items)[items[i].key] == Denote(items[i].value)
  {
    var last := |items| - 1;
    if i < last {
      ItemIsMember(items[..last], i);
    }
  }

  lemma {:induction false} MemberHasItem(items: seq<Item>, k: string) returns (i: nat)
    requires k in DenoteItems(items)
    ensures i < |items| && items[i].key == k
  {
    var last := |items| - 1;
    if items[last].key == k {
      i := last;
    } else {
      i := MemberHasItem(items[..last], k);
    }
  }

  lemma MembersCarryOver(xs: seq<Item>, ys: seq<Item>, k: string)
    requires DistinctKeys(xs) && DistinctKeys(ys) && k in DenoteItems(xs)
    requires forall i :: 0 <= i < |xs| ==> xs[i] in ys
    ensures k in DenoteItems(ys) && DenoteItems(ys)[k] == DenoteItems(xs)[k]
  {
    var i := MemberHasItem(xs, k);
    ItemIsMember(xs, i);
    var j :| 0 <= j < |ys| && ys[j] == xs[i];
    ItemIsMember(ys, j);
  }

  /** A dict prints the same text whatever order its items were inserted in. */
  lemma InsertionOrderIsInvisible(xs: seq<Item>, ys: seq<Item>)
    requires DistinctKeys(xs) && DistinctKeys(ys)
    requires forall x :: x in xs <==> x in ys
    ensures Print(PDict(xs)) == Print(PDict(ys))
  {
    forall k | k in DenoteItems(xs) ensures k in DenoteItems(ys) && DenoteItems(ys)[k] == DenoteItems(xs)[k] {
      MembersCarryOver(xs, ys, k);
    }
    forall k | k in DenoteItems(ys) ensures k in DenoteItems(xs) {
      MembersCarryOver(ys, xs, k);
    }
    assert DenoteItems(xs) == DenoteItems(ys);
    CanonicalTextIsInjective(PDict(xs), PDict(ys));
  }

  /** sorted(...) of a set of strings, as a JSON list. */
  function SortedList(s: set<string>): Json {
    Array(Texts(Orders.SortedStrings(s)))
  }

  /** Sets survive being sorted into lists: the lists are equal exactly when the sets are. */
  lemma SortedListIsInjective(a: set<string>, b: set<string>)
    ensures SortedList(a) == SortedList(b) <==> a == b
  {
    var sa, sb := Orders.SortedStrings(a), Orders.SortedStrings(b);
    if Texts(sa) == Texts(sb) {
      forall i | 0 <= i < |sa| ensures sa[i] == sb[i] {
        assert Texts(sa)[i] == Text(sa[i]);
        assert Texts(sb)[i] == Text(sb[i]);
      }
      assert sa == sb;
      Orders.StringOrder();
      Orders.SortedInjective(Orders.StringLess, a, b);
    }
  }

  // ---- Digests ----

  /** SHA-256 stands in as a function on texts; what the platform assumes of it is that it never collides. */
  ghost predicate CollisionFree(h: string -> string) {
    forall x, y :: h(x) == h(y) ==> x == y
  }

  /** The digest of a value is taken over its canonical rendering. */
  function DigestOf(h: string -> string, j: Json): string { h(CanonicalText(j)) }

  lemma DigestIsOverThePrintedText(h: string -> string, p: Py)
    ensures DigestOf(h, Denote(p)) == h(Print(p))
  {
    PrintIsCanonical(p);
  }

  lemma DigestBinds(h: string -> string, a: Json, b: Json)
    requires CollisionFree(h)
    ensures DigestOf(h, a) == DigestOf(h, b) <==> a == b
  {
    ParseUndoesText(a);
    ParseUndoesText(b);
  }
}
