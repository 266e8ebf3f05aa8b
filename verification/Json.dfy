/**
  JavaScript values, the text `JSON.stringify` gives them, and a parser that reads the text
  back.  `canonicalJson` (CanonicalJson.dfy) and the authenticated data of an encrypted artifact
  (Envelope.dfy) are both built on this printer.

  Text is a sequence of UTF-16 code units, as in JavaScript.  A number is represented by the
  text the number printer gives it, so 0 and -0, which print alike, are one value here.
 */
module Json {
  newtype Unit = u: int | 0 <= u < 0x1_0000
  type Text = seq<Unit>

  datatype Entry<T> = Entry(key: Text, value: T)

  datatype Value =
    | Undefined
    | Null
    | NotFinite                        // NaN and the infinities, which print as null
    | Bool(b: bool)
    | Number(token: Text)
    | Str(s: Text)
    | Arr(items: seq<Value>)
    | Obj(fields: seq<Entry<Value>>)   // own properties, in the order Object.entries lists them

  const QUOTE: Unit := 0x22
  const BACKSLASH: Unit := 0x5C
  const COMMA: Unit := 0x2C
  const COLON: Unit := 0x3A
  const OPEN_BRACKET: Unit := 0x5B
  const CLOSE_BRACKET: Unit := 0x5D
  const OPEN_BRACE: Unit := 0x7B
  const CLOSE_BRACE: Unit := 0x7D
  const LOWER_U: Unit := 0x75

  const UNDEFINED: Text := [0x75, 0x6E, 0x64, 0x65, 0x66, 0x69, 0x6E, 0x65, 0x64]
  const NULL: Text := [0x6E, 0x75, 0x6C, 0x6C]
  const TRUE: Text := [0x74, 0x72, 0x75, 0x65]
  const FALSE: Text := [0x66, 0x61, 0x6C, 0x73, 0x65]

  predicate Digit(u: Unit) { 0x30 <= u <= 0x39 }

  /** Code units that can occur in a printed number: digits, `+`, `-`, `.` and `e`. */
  predicate NumberUnit(u: Unit) { Digit(u) || u == 0x2B || u == 0x2D || u == 0x2E || u == 0x65 }

  predicate NumberToken(t: Text) {
    t != [] && (Digit(t[0]) || t[0] == 0x2D) && forall i | 0 <= i < |t| :: NumberUnit(t[i])
  }

  /** No non-finite number anywhere: the values that survive printing unchanged. */
  predicate Finite(v: Value) {
    match v
    case NotFinite => false
    case Arr(items) => forall i | 0 <= i < |items| :: Finite(items[i])
    case Obj(fields) => forall i | 0 <= i < |fields| :: Finite(fields[i].value)
    case _ => true
  }

  /** Every number carries text that the number printer could have produced. */
  predicate Numeric(v: Value) {
    match v
    case Number(token) => NumberToken(token)
    case Arr(items) => forall i | 0 <= i < |items| :: Numeric(items[i])
    case Obj(fields) => forall i | 0 <= i < |fields| :: Numeric(fields[i].value)
    case _ => true
  }

  predicate DistinctKeys<T>(fields: seq<Entry<T>>) {
    forall i, j | 0 <= i < j < |fields| :: fields[i].key != fields[j].key
  }

  /** What every JavaScript value satisfies: printable numbers and one property per key. */
  predicate Valid(v: Value) {
    match v
    case Number(token) => NumberToken(token)
    case Arr(items) => forall i | 0 <= i < |items| :: Valid(items[i])
    case Obj(fields) => DistinctKeys(fields) && forall i | 0 <= i < |fields| :: Valid(fields[i].value)
    case _ => true
  }

  // ---------------------------------------------------------------- string literals

  predicate HighSurrogate(u: Unit) { 0xD800 <= u < 0xDC00 }
  predicate LowSurrogate(u: Unit) { 0xDC00 <= u < 0xE000 }

  function HexUnit(d: Unit): Unit
    requires d < 16
  {
    if d < 10 then 0x30 + d else 0x57 + d
  }

  function HexEscape(u: Unit): Text {
    [BACKSLASH, LOWER_U, HexUnit(u / 16 / 16 / 16), HexUnit(u / 16 / 16 % 16), HexUnit(u / 16 % 16), HexUnit(u % 16)]
  }

  /** One code unit that is not half of a surrogate pair, as JSON.stringify writes it. */
  function EscapeUnit(u: Unit): Text {
    if u == QUOTE || u == BACKSLASH then [BACKSLASH, u]
    else if u == 0x08 then [BACKSLASH, 0x62]
    else if u == 0x09 then [BACKSLASH, 0x74]
    else if u == 0x0A then [BACKSLASH, 0x6E]
    else if u == 0x0C then [BACKSLASH, 0x66]
    else if u == 0x0D then [BACKSLASH, 0x72]
    else if u < 0x20 || HighSurrogate(u) || LowSurrogate(u) then HexEscape(u)
    else [u]
  }

  /** Surrogate pairs are copied; a surrogate on its own is escaped. */
  function Escape(s: Text): Text {
    if s == [] then []
    else if |s| >= 2 && HighSurrogate(s[0]) && LowSurrogate(s[1]) then s[..2] + Escape(s[2..])
    else EscapeUnit(s[0]) + Escape(s[1..])
  }

  function Quote(s: Text): Text { [QUOTE] + Escape(s) + [QUOTE] }

  // ---------------------------------------------------------------- JSON.stringify

  function Literal(v: Value): Text
    requires !v.Arr? && !v.Obj?
  {
    match v
    case Undefined => UNDEFINED
    case Null => NULL
    case NotFinite => NULL
    case Bool(b) => if b then TRUE else FALSE
    case Number(token) => token
    case Str(s) => Quote(s)
  }

  /** Properties in insertion order. */
  function Print(v: Value): Text
    decreases v, 1
  {
    match v
    case Arr(items) => [OPEN_BRACKET] + PrintItems(items) + [CLOSE_BRACKET]
    case Obj(fields) => [OPEN_BRACE] + PrintFields(fields) + [CLOSE_BRACE]
    case _ => Literal(v)
  }

  function PrintItems(items: seq<Value>): Text
    decreases items, 0
  {
    if items == [] then []
    else Print(items[0]) + (if |items| == 1 then [] else [COMMA] + PrintItems(items[1..]))
  }

  function PrintFields(fields: seq<Entry<Value>>): Text
    decreases fields, 0
  {
    if fields == [] then []
    else
      Quote(fields[0].key) + [COLON] + Print(fields[0].value)
      + (if |fields| == 1 then [] else [COMMA] + PrintFields(fields[1..]))
  }

  // ---------------------------------------------------------------- the parser

  datatype Parsed<+T> = Fail | Parsed(value: T, rest: Text)

  function UnhexUnit(u: Unit): (d: int)
    ensures -1 <= d < 16
  {
    if 0x30 <= u <= 0x39 then u as int - 0x30 else if 0x61 <= u <= 0x66 then u as int - 0x57 else -1
  }

  /** The code unit written by the escape at the start of `t`, and the length of that escape. */
  function EscapeAt(t: Text): (r: Parsed<Unit>)
    ensures r.Parsed? ==> |t| - 6 <= |r.rest| < |t|
  {
    if |t| < 2 || t[0] != BACKSLASH then Fail
    else if t[1] == QUOTE || t[1] == BACKSLASH || t[1] == 0x2F then Parsed(t[1], t[2..])
    else if t[1] == 0x62 then Parsed(0x08, t[2..])
    else if t[1] == 0x74 then Parsed(0x09, t[2..])
    else if t[1] == 0x6E then Parsed(0x0A, t[2..])
    else if t[1] == 0x66 then Parsed(0x0C, t[2..])
    else if t[1] == 0x72 then Parsed(0x0D, t[2..])
    else if t[1] == LOWER_U && |t| >= 6 then
      var a, b, c, d := UnhexUnit(t[2]), UnhexUnit(t[3]), UnhexUnit(t[4]), UnhexUnit(t[5]);
      if a < 0 || b < 0 || c < 0 || d < 0 then Fail else Parsed(Unhex(a, b, c, d), t[6..])
    else Fail
  }

  function Unhex(a: int, b: int, c: int, d: int): Unit
    requires 0 <= a < 16 && 0 <= b < 16 && 0 <= c < 16 && 0 <= d < 16
  {
    (a * 0x1000 + b * 0x100 + c * 0x10 + d) as Unit
  }

  /** The body of a string literal, up to and including its closing quote (RFC 8259, section 7). */
  function ParseString(t: Text): (r: Parsed<Text>)
    ensures r.Parsed? ==> |r.rest| < |t|
  {
    if t == [] then Fail
    else if t[0] == QUOTE then Parsed([], t[1..])
    else if t[0] != BACKSLASH then Prepend(t[0], ParseString(t[1..]))
    else
      var escape := EscapeAt(t);
      if escape.Fail? then Fail else Prepend(escape.value, ParseString(escape.rest))
  }

  function Prepend(u: Unit, r: Parsed<Text>): (q: Parsed<Text>)
    ensures q.Parsed? <==> r.Parsed?
    ensures q.Parsed? ==> q.rest == r.rest
  {
    if r.Fail? then Fail else Parsed([u] + r.value, r.rest)
  }

  /** The longest prefix of number units. */
  function NumberPrefix(t: Text): (n: nat)
    ensures n <= |t|
  {
    if t == [] || !NumberUnit(t[0]) then 0 else 1 + NumberPrefix(t[1..])
  }

  function ParseLiteral(t: Text, word: Text, v: Value): (r: Parsed<Value>)
    requires word != []
    ensures r.Parsed? ==> |r.rest| < |t|
  {
    if word <= t then Parsed(v, t[|word|..]) else Fail
  }

  function ParseValue(t: Text): (r: Parsed<Value>)
    ensures r.Parsed? ==> |r.rest| < |t|
    decreases |t|, 0
  {
    if t == [] then Fail
    else if t[0] == LOWER_U then ParseLiteral(t, UNDEFINED, Undefined)
    else if t[0] == 0x6E then ParseLiteral(t, NULL, Null)
    else if t[0] == 0x74 then ParseLiteral(t, TRUE, Bool(true))
    else if t[0] == 0x66 then ParseLiteral(t, FALSE, Bool(false))
    else if t[0] == QUOTE then
      var s := ParseString(t[1..]);
      if s.Fail? then Fail else Parsed(Str(s.value), s.rest)
    else if t[0] == OPEN_BRACKET then
      if |t| > 1 && t[1] == CLOSE_BRACKET then Parsed(Arr([]), t[2..])
      else
        var items := ParseItems(t[1..]);
        if items.Fail? then Fail else Parsed(Arr(items.value), items.rest)
    else if t[0] == OPEN_BRACE then
      if |t| > 1 && t[1] == CLOSE_BRACE then Parsed(Obj([]), t[2..])
      else
        var fields := ParseFields(t[1..]);
        if fields.Fail? then Fail else Parsed(Obj(fields.value), fields.rest)
    else if Digit(t[0]) || t[0] == 0x2D then
      Parsed(Number(t[..NumberPrefix(t)]), t[NumberPrefix(t)..])
    else Fail
  }

  /** One or more items, up to and including the closing bracket. */
  function ParseItems(t: Text): (r: Parsed<seq<Value>>)
    ensures r.Parsed? ==> |r.rest| < |t|
    decreases |t|, 1
  {
    var head := ParseValue(t);
    if head.Fail? || head.rest == [] then Fail
    else if head.rest[0] == CLOSE_BRACKET then Parsed([head.value], head.rest[1..])
    else if head.rest[0] != COMMA then Fail
    else
      var tail := ParseItems(head.rest[1..]);
      if tail.Fail? then Fail else Parsed([head.value] + tail.value, tail.rest)
  }

  /** One or more properties, up to and including the closing brace. */
  function ParseFields(t: Text): (r: Parsed<seq<Entry<Value>>>)
    ensures r.Parsed? ==> |r.rest| < |t|
    decreases |t|, 1
  {
    if t == [] || t[0] != QUOTE then Fail else
    var key := ParseString(t[1..]);
    if key.Fail? || key.rest == [] || key.rest[0] != COLON then Fail else
    var head := ParseValue(key.rest[1..]);
    if head.Fail? || head.rest == [] then Fail
    else if head.rest[0] == CLOSE_BRACE then Parsed([Entry(key.value, head.value)], head.rest[1..])
    else if head.rest[0] != COMMA then Fail
    else
      var tail := ParseFields(head.rest[1..]);
      if tail.Fail? then Fail else Parsed([Entry(key.value, head.value)] + tail.value, tail.rest)
  }

  // ---------------------------------------------------------------- printing then parsing

  lemma HexDigit(d: Unit)
    requires d < 16
    ensures UnhexUnit(HexUnit(d)) == d as int
  {
  }

  lemma HexDigits(u: Unit)
    ensures Unhex((u / 16 / 16 / 16) as int, (u / 16 / 16 % 16) as int, (u / 16 % 16) as int, (u % 16) as int) == u
  {
    var a, b, c := u as int / 16, u as int / 16 / 16, u as int / 16 / 16 / 16;
    assert u as int == 16 * a + u as int % 16 && a == 16 * b + a % 16 && b == 16 * c + b % 16;
  }

  lemma EscapeAtHex(u: Unit, t: Text)
    ensures EscapeAt(HexEscape(u) + t) == Parsed(u, t)
  {
    HexDigits(u);
    HexDigit(u / 16 / 16 / 16);
    HexDigit(u / 16 / 16 % 16);
    HexDigit(u / 16 % 16);
    HexDigit(u % 16);
    assert (HexEscape(u) + t)[6..] == t;
  }

  lemma EscapeUnitParses(u: Unit, t: Text)
    ensures ParseString(EscapeUnit(u) + t) == Prepend(u, ParseString(t))
  {
    var e := EscapeUnit(u) + t;
    if EscapeUnit(u) == HexEscape(u) {
      EscapeAtHex(u, t);
    } else if |EscapeUnit(u)| == 2 {
      assert e[2..] == t;
      assert EscapeAt(e) == Parsed(u, t);
    } else {
      assert e[1..] == t;
    }
  }

  lemma SurrogatePairParses(high: Unit, low: Unit, t: Text)
    requires HighSurrogate(high) && LowSurrogate(low)
    ensures ParseString([high, low] + t) == Prepend(high, Prepend(low, ParseString(t)))
  {
    var e := [high, low] + t;
    assert e[1..][0] == low && e[1..][1..] == t;
    assert ParseString(e[1..]) == Prepend(low, ParseString(t));
  }

  lemma Concat(a: Text, b: Text, c: Text)
    ensures (a + b) + c == a + (b + c)
  {
  }

  lemma {:induction false} StringRoundTrip(s: Text, rest: Text)
    ensures ParseString(Escape(s) + ([QUOTE] + rest)) == Parsed(s, rest)
  {
    var end := [QUOTE] + rest;
    if s == [] {
      assert Escape(s) + end == end;
      assert end[1..] == rest;
    } else if |s| >= 2 && HighSurrogate(s[0]) && LowSurrogate(s[1]) {
      StringRoundTrip(s[2..], rest);
      SurrogatePairParses(s[0], s[1], Escape(s[2..]) + end);
      Concat([s[0], s[1]], Escape(s[2..]), end);
      PairSplit(s);
    } else {
      StringRoundTrip(s[1..], rest);
      EscapeUnitParses(s[0], Escape(s[1..]) + end);
      Concat(EscapeUnit(s[0]), Escape(s[1..]), end);
      assert s == [s[0]] + s[1..];
    }
  }

  lemma PairSplit(s: Text)
    requires |s| >= 2
    ensures s[..2] == [s[0], s[1]] && s == [s[0]] + ([s[1]] + s[2..])
  {
  }

  lemma {:induction false} NumberPrefixOf(token: Text, rest: Text)
    requires forall i | 0 <= i < |token| :: NumberUnit(token[i])
    requires Boundary(rest)
    ensures NumberPrefix(token + rest) == |token|
  {
    if token == [] {
      assert token + rest == rest;
    } else {
      NumberPrefixOf(token[1..], rest);
      assert (token + rest)[1..] == token[1..] + rest;
    }
  }

  /** Text that cannot lengthen a number printed just before it. */
  predicate Boundary(rest: Text) { rest == [] || !NumberUnit(rest[0]) }

  lemma PrintStarts(v: Value)
    requires Numeric(v)
    ensures Print(v) != [] && Print(v)[0] != CLOSE_BRACKET && Print(v)[0] != CLOSE_BRACE
  {
  }

  lemma LiteralRoundTrip(v: Value, rest: Text)
    requires v.Undefined? || v.Null? || v.Bool?
    ensures ParseValue(Literal(v) + rest) == Parsed(v, rest)
  {
    var t := Literal(v) + rest;
    assert t[|Literal(v)|..] == rest;
    assert Literal(v) <= t;
  }

  lemma NumberRoundTrip(token: Text, rest: Text)
    requires NumberToken(token) && Boundary(rest)
    ensures ParseValue(token + rest) == Parsed(Number(token), rest)
  {
    NumberPrefixOf(token, rest);
    assert (token + rest)[..|token|] == token && (token + rest)[|token|..] == rest;
  }

  lemma QuotedRoundTrip(s: Text, rest: Text)
    ensures Quote(s) + rest == [QUOTE] + (Escape(s) + ([QUOTE] + rest))
    ensures (Quote(s) + rest)[1..] == Escape(s) + ([QUOTE] + rest)
    ensures ParseString((Quote(s) + rest)[1..]) == Parsed(s, rest)
  {
    StringRoundTrip(s, rest);
    assert Quote(s) + rest == [QUOTE] + (Escape(s) + ([QUOTE] + rest));
  }

  lemma StringValueRoundTrip(s: Text, rest: Text)
    ensures ParseValue(Quote(s) + rest) == Parsed(Str(s), rest)
  {
    QuotedRoundTrip(s, rest);
    assert (Quote(s) + rest)[0] == QUOTE;
  }

  lemma ArrayStep(t: Text, items: seq<Value>, rest: Text)
    requires t != [] && t[0] != CLOSE_BRACKET && ParseItems(t) == Parsed(items, rest)
    ensures ParseValue([OPEN_BRACKET] + t) == Parsed(Arr(items), rest)
  {
    assert ([OPEN_BRACKET] + t)[1..] == t;
  }

  lemma ObjectStep(t: Text, fields: seq<Entry<Value>>, rest: Text)
    requires t != [] && t[0] != CLOSE_BRACE && ParseFields(t) == Parsed(fields, rest)
    ensures ParseValue([OPEN_BRACE] + t) == Parsed(Obj(fields), rest)
  {
    assert ([OPEN_BRACE] + t)[1..] == t;
  }

  lemma EmptyContainers(rest: Text)
    ensures ParseValue([OPEN_BRACKET, CLOSE_BRACKET] + rest) == Parsed(Arr([]), rest)
    ensures ParseValue([OPEN_BRACE, CLOSE_BRACE] + rest) == Parsed(Obj([]), rest)
  {
    assert ([OPEN_BRACKET, CLOSE_BRACKET] + rest)[2..] == rest;
    assert ([OPEN_BRACE, CLOSE_BRACE] + rest)[2..] == rest;
  }

  /** Whatever follows it, printed text parses back to the value it was printed from. */
  lemma {:induction false} RoundTrip(v: Value, rest: Text)
    requires Finite(v) && Numeric(v)
    requires Boundary(rest)
    ensures ParseValue(Print(v) + rest) == Parsed(v, rest)
    decreases v, 1
  {
    match v {
      case Arr(items) => ArrayRoundTrip(items, rest);
      case Obj(fields) => ObjectRoundTrip(fields, rest);
      case Number(token) => NumberRoundTrip(token, rest);
      case Str(s) => StringValueRoundTrip(s, rest);
      case NotFinite =>
      case _ => LiteralRoundTrip(v, rest);
    }
  }

  lemma {:induction false} ArrayRoundTrip(items: seq<Value>, rest: Text)
    requires forall i | 0 <= i < |items| :: Finite(items[i]) && Numeric(items[i])
    ensures ParseValue(Print(Arr(items)) + rest) == Parsed(Arr(items), rest)
    decreases items, 1
  {
    if items == [] {
      EmptyContainers(rest);
      assert Print(Arr(items)) == [OPEN_BRACKET, CLOSE_BRACKET];
    } else {
      var body := PrintItems(items);
      ItemsRoundTrip(items, rest);
      PrintStarts(items[0]);
      ArrayStep(body + ([CLOSE_BRACKET] + rest), items, rest);
      Wrap(OPEN_BRACKET, body, CLOSE_BRACKET, rest);
    }
  }

  lemma Wrap(open: Unit, body: Text, close: Unit, rest: Text)
    ensures ([open] + body + [close]) + rest == [open] + (body + ([close] + rest))
  {
  }

  lemma {:induction false} ObjectRoundTrip(fields: seq<Entry<Value>>, rest: Text)
    requires forall i | 0 <= i < |fields| :: Finite(fields[i].value) && Numeric(fields[i].value)
    ensures ParseValue(Print(Obj(fields)) + rest) == Parsed(Obj(fields), rest)
    decreases fields, 1
  {
    if fields == [] {
      EmptyContainers(rest);
      assert Print(Obj(fields)) == [OPEN_BRACE, CLOSE_BRACE];
    } else {
      var body := PrintFields(fields);
      FieldsRoundTrip(fields, rest);
      FieldsStart(fields);
      ObjectStep(body + ([CLOSE_BRACE] + rest), fields, rest);
      Wrap(OPEN_BRACE, body, CLOSE_BRACE, rest);
    }
  }

  lemma FieldsStart(fields: seq<Entry<Value>>)
    requires fields != []
    ensures PrintFields(fields) != [] && PrintFields(fields)[0] == QUOTE
  {
  }

  lemma LastItem(t: Text, head: Value, rest: Text)
    requires ParseValue(t) == Parsed(head, [CLOSE_BRACKET] + rest)
    ensures ParseItems(t) == Parsed([head], rest)
  {
    assert ([CLOSE_BRACKET] + rest)[1..] == rest;
  }

  lemma NextItem(t: Text, head: Value, more: Text, tail: seq<Value>, rest: Text)
    requires ParseValue(t) == Parsed(head, [COMMA] + more) && ParseItems(more) == Parsed(tail, rest)
    ensures ParseItems(t) == Parsed([head] + tail, rest)
  {
    assert ([COMMA] + more)[1..] == more;
  }

  lemma {:induction false} ItemsRoundTrip(items: seq<Value>, rest: Text)
    requires items != []
    requires forall i | 0 <= i < |items| :: Finite(items[i]) && Numeric(items[i])
    ensures ParseItems(PrintItems(items) + ([CLOSE_BRACKET] + rest)) == Parsed(items, rest)
    decreases items, 0
  {
    var close := [CLOSE_BRACKET] + rest;
    if |items| == 1 {
      RoundTrip(items[0], close);
      LastItem(Print(items[0]) + close, items[0], rest);
      assert PrintItems(items) == Print(items[0]);
      assert items == [items[0]];
    } else {
      var tail := PrintItems(items[1..]);
      RoundTrip(items[0], [COMMA] + (tail + close));
      ItemsRoundTrip(items[1..], rest);
      NextItem(Print(items[0]) + ([COMMA] + (tail + close)), items[0], tail + close, items[1..], rest);
      Concat(Print(items[0]), [COMMA] + tail, close);
      Concat([COMMA], tail, close);
      assert [items[0]] + items[1..] == items;
    }
  }

  lemma LastField(key: Text, after: Text, head: Value, rest: Text)
    requires ParseValue(after) == Parsed(head, [CLOSE_BRACE] + rest)
    ensures ParseFields(Quote(key) + ([COLON] + after)) == Parsed([Entry(key, head)], rest)
  {
    QuotedRoundTrip(key, [COLON] + after);
    assert ([COLON] + after)[1..] == after && ([CLOSE_BRACE] + rest)[1..] == rest;
  }

  lemma NextField(key: Text, after: Text, head: Value, more: Text, tail: seq<Entry<Value>>, rest: Text)
    requires ParseValue(after) == Parsed(head, [COMMA] + more) && ParseFields(more) == Parsed(tail, rest)
    ensures ParseFields(Quote(key) + ([COLON] + after)) == Parsed([Entry(key, head)] + tail, rest)
  {
    QuotedRoundTrip(key, [COLON] + after);
    assert ([COLON] + after)[1..] == after && ([COMMA] + more)[1..] == more;
  }

  lemma {:induction false} FieldsRoundTrip(fields: seq<Entry<Value>>, rest: Text)
    requires fields != []
    requires forall i | 0 <= i < |fields| :: Finite(fields[i].value) && Numeric(fields[i].value)
    ensures ParseFields(PrintFields(fields) + ([CLOSE_BRACE] + rest)) == Parsed(fields, rest)
    decreases fields, 0
  {
    var key, value := fields[0].key, fields[0].value;
    var close := [CLOSE_BRACE] + rest;
    if |fields| == 1 {
      RoundTrip(value, close);
      LastField(key, Print(value) + close, value, rest);
      FieldText(Quote(key), Print(value), [], close);
      assert Print(value) + [] == Print(value);
      assert [] + close == close;
      assert fields == [Entry(key, value)];
    } else {
      var tail := PrintFields(fields[1..]);
      RoundTrip(value, [COMMA] + (tail + close));
      FieldsRoundTrip(fields[1..], rest);
      NextField(key, Print(value) + ([COMMA] + (tail + close)), value, tail + close, fields[1..], rest);
      FieldText(Quote(key), Print(value), [COMMA] + tail, close);
      Concat([COMMA], tail, close);
      assert fields == [Entry(key, value)] + fields[1..];
    }
  }

  lemma FieldText(key: Text, value: Text, more: Text, close: Text)
    ensures (key + [COLON] + value + more) + close == key + ([COLON] + (value + (more + close)))
  {
  }

  /** The printer loses nothing. */
  lemma PrintInjective(u: Value, v: Value)
    requires Finite(u) && Numeric(u) && Finite(v) && Numeric(v)
    requires Print(u) == Print(v)
    ensures u == v
  {
    RoundTrip(u, []);
    RoundTrip(v, []);
    assert Print(u) + [] == Print(u) && Print(v) + [] == Print(v);
  }

  // ---------------------------------------------------------------- spelling

  predicate Spelled(t: Text, s: string) { |t| == |s| && forall i | 0 <= i < |t| :: t[i] as int == s[i] as int }

  lemma LiteralsSpelled()
    ensures Spelled(Print(Undefined), "undefined") && Spelled(Print(Null), "null") && Spelled(Print(NotFinite), "null")
    ensures Spelled(Print(Bool(true)), "true") && Spelled(Print(Bool(false)), "false")
  {
  }

  lemma ArraysSpelled(v: Value, w: Value)
    ensures Spelled(Print(Arr([])), "[]") && Print(Arr([v, w])) == [0x5B] + (Print(v) + ([0x2C] + Print(w))) + [0x5D]
  {
    assert [v, w][1..] == [w];
    assert PrintItems([w]) == Print(w);
    assert PrintItems([v, w]) == Print(v) + ([0x2C] + Print(w));
  }

  lemma ObjectsSpelled(key: Text, v: Value)
    ensures Spelled(Print(Obj([])), "{}") && Quote([]) == [0x22, 0x22]
    ensures Print(Obj([Entry(key, v)])) == [0x7B] + Quote(key) + [0x3A] + Print(v) + [0x7D]
  {
    assert PrintFields([Entry(key, v)]) == Quote(key) + [0x3A] + Print(v);
  }

  lemma EscapesSpelled()
    ensures EscapeUnit(0x22) == [0x5C, 0x22] && EscapeUnit(0x5C) == [0x5C, 0x5C] && EscapeUnit(0x2F) == [0x2F]
    ensures EscapeUnit(0x08) == [0x5C, 0x62] && EscapeUnit(0x09) == [0x5C, 0x74] && EscapeUnit(0x0A) == [0x5C, 0x6E]
    ensures EscapeUnit(0x0C) == [0x5C, 0x66] && EscapeUnit(0x0D) == [0x5C, 0x72]
  {
  }

  /** 001f, d83d and dfec, as the hexadecimal digits are written. */
  lemma HexEscapesSpelled()
    ensures EscapeUnit(0x1F) == [0x5C, 0x75, 0x30, 0x30, 0x31, 0x66]
    ensures EscapeUnit(0xD83D) == [0x5C, 0x75, 0x64, 0x38, 0x33, 0x64]
    ensures EscapeUnit(0xDFEC) == [0x5C, 0x75, 0x64, 0x66, 0x65, 0x63]
  {
  }

  /** A pair of surrogates in order is copied, any other two are escaped one by one. */
  lemma SurrogatesSpelled(h: Unit, l: Unit)
    requires 0xD800 <= h <= 0xDFFF && 0xD800 <= l <= 0xDFFF
    ensures Escape([h, l]) == if h <= 0xDBFF && l >= 0xDC00 then [h, l] else HexEscape(h) + HexEscape(l)
  {
    assert [h, l][1..] == [l] && [h, l][2..] == [] && [l][1..] == [];
    assert Escape([l]) == HexEscape(l) + [];
  }

  lemma OthersCopied(u: Unit)
    requires 0x7F <= u < 0xD800 || 0xE000 <= u
    ensures Escape([u]) == [u]
  {
  }
}
