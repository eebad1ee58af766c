// canonicalJson: the printed form that content hashes are taken of.
module CanonicalJson {
  // Two values print equally exactly when they are equal with the keys of an object taken as a set.

  import opened Sequences
  import opened Sorting
  import opened JsStrings

  // A JavaScript value that JSON can hold. An object lists its properties in insertion order; a finite
  // number is identified with its Number::toString text.
  datatype Json =
    | JNull
    | JBool(b: bool)
    | JNumber(numeral: JsString)
    | JString(s: JsString)
    | JArray(items: seq<Json>)
    | JObject(fields: seq<Field>)
  datatype Field = Field(key: JsString, value: Json)

  // Code units of the characters used below.
  const QUOTE: CodeUnit := 0x22
  const COMMA: CodeUnit := 0x2C
  const COLON: CodeUnit := 0x3A
  const OPEN_BRACKET: CodeUnit := 0x5B
  const BACKSLASH: CodeUnit := 0x5C
  const CLOSE_BRACKET: CodeUnit := 0x5D
  const LOWER_U: CodeUnit := 0x75
  const OPEN_BRACE: CodeUnit := 0x7B
  const CLOSE_BRACE: CodeUnit := 0x7D

  function NullText(): JsString { [0x6E, 0x75, 0x6C, 0x6C] }
  function TrueText(): JsString { [0x74, 0x72, 0x75, 0x65] }
  function FalseText(): JsString { [0x66, 0x61, 0x6C, 0x73, 0x65] }

  predicate Digit(c: CodeUnit) { 0x30 <= c <= 0x39 }

  // 0-9 + - . e
  predicate NumeralUnit(c: CodeUnit) {
    Digit(c) || c == 0x2B || c == 0x2D || c == 0x2E || c == 0x65
  }

  predicate Numeral(s: JsString) {
    s != [] && (Digit(s[0]) || s[0] == 0x2D) && forall i :: 0 <= i < |s| ==> NumeralUnit(s[i])
  }

  function Keys(fields: seq<Field>): (keys: seq<JsString>)
    ensures |keys| == |fields| && forall i :: 0 <= i < |fields| ==> keys[i] == fields[i].key
  {
    Map((f: Field) => f.key, fields)
  }

  ghost predicate WellFormed(v: Json) {
    match v
    case JNumber(numeral) => Numeral(numeral)
    case JArray(items) => forall i :: 0 <= i < |items| ==> WellFormed(items[i])
    case JObject(fields) => Distinct(Keys(fields)) && forall i :: 0 <= i < |fields| ==> WellFormed(fields[i].value)
    case _ => true
  }

  // ---------------------------------------------------------------- printing strings

  predicate HighSurrogate(c: CodeUnit) { 0xD800 <= c < 0xDC00 }
  predicate LowSurrogate(c: CodeUnit) { 0xDC00 <= c < 0xE000 }

  function HexDigit(d: int): CodeUnit
    requires 0 <= d < 16
  {
    if d < 10 then 0x30 + d else 0x61 + d - 10
  }

  // UnicodeEscape: four lower-case hexadecimal digits
  function UnicodeEscape(c: CodeUnit): JsString {
    [BACKSLASH, LOWER_U, HexDigit(c / 4096), HexDigit(c / 256 % 16), HexDigit(c / 16 % 16), HexDigit(c % 16)]
  }

  function QuoteUnit(c: CodeUnit): JsString {
    if c == 0x08 then [BACKSLASH, 0x62]
    else if c == 0x09 then [BACKSLASH, 0x74]
    else if c == 0x0A then [BACKSLASH, 0x6E]
    else if c == 0x0C then [BACKSLASH, 0x66]
    else if c == 0x0D then [BACKSLASH, 0x72]
    else if c == QUOTE || c == BACKSLASH then [BACKSLASH, c]
    else if c < 0x20 || HighSurrogate(c) || LowSurrogate(c) then UnicodeEscape(c)
    else [c]
  }

  // A surrogate pair is printed as it is, a lone surrogate is escaped.
  function QuoteBody(s: JsString): JsString {
    if s == [] then []
    else if |s| >= 2 && HighSurrogate(s[0]) && LowSurrogate(s[1]) then s[..2] + QuoteBody(s[2..])
    else QuoteUnit(s[0]) + QuoteBody(s[1..])
  }

  // JSON.stringify of a string.
  function Quote(s: JsString): JsString {
    [QUOTE] + QuoteBody(s) + [QUOTE]
  }

  // ---------------------------------------------------------------- printing values

  function FieldLe(): (Field, Field) -> bool {
    (a: Field, b: Field) => StringLe(a.key, b.key)
  }

  function SortedFields(fields: seq<Field>): seq<Field> {
    Sort(fields, FieldLe())
  }

  function Size(v: Json): nat {
    match v
    case JArray(items) => 1 + SizeAll(items)
    case JObject(fields) => 1 + SizeFields(fields)
    case _ => 1
  }

  function SizeAll(items: seq<Json>): nat {
    if items == [] then 0 else Size(items[0]) + SizeAll(items[1..])
  }

  function SizeFields(fields: seq<Field>): nat {
    if fields == [] then 0 else Size(fields[0].value) + SizeFields(fields[1..])
  }

  lemma {:induction false} ItemSmaller(items: seq<Json>, i: nat)
    requires i < |items|
    ensures Size(items[i]) <= SizeAll(items)
  {
    if i > 0 {
      ItemSmaller(items[1..], i - 1);
    }
  }

  lemma {:induction false} FieldSmaller(fields: seq<Field>, i: nat)
    requires i < |fields|
    ensures Size(fields[i].value) <= SizeFields(fields)
  {
    if i > 0 {
      FieldSmaller(fields[1..], i - 1);
    }
  }

  lemma SortedFieldsSmaller(fields: seq<Field>)
    ensures forall i :: 0 <= i < |SortedFields(fields)| ==> Size(SortedFields(fields)[i].value) <= SizeFields(fields)
  {
    SortMembers(fields, FieldLe());
    var sorted := SortedFields(fields);
    forall i | 0 <= i < |sorted|
      ensures Size(sorted[i].value) <= SizeFields(fields)
    {
      assert sorted[i] in fields;
      var j :| 0 <= j < |fields| && fields[j] == sorted[i];
      FieldSmaller(fields, j);
    }
  }

  // parts.join(",")
  function Join(parts: seq<JsString>): JsString {
    if parts == [] then []
    else if |parts| == 1 then parts[0]
    else parts[0] + [COMMA] + Join(parts[1..])
  }

  function Canonical(v: Json): JsString
    decreases Size(v), 1, 0
  {
    match v
    case JNull => NullText()
    case JBool(b) => if b then TrueText() else FalseText()
    case JNumber(numeral) => numeral
    case JString(s) => Quote(s)
    case JArray(items) =>
      assert forall i :: 0 <= i < |items| ==> Size(items[i]) <= SizeAll(items) by {
        forall i | 0 <= i < |items| ensures Size(items[i]) <= SizeAll(items) { ItemSmaller(items, i); }
      }
      [OPEN_BRACKET] + Join(ItemTexts(items, SizeAll(items))) + [CLOSE_BRACKET]
    case JObject(fields) =>
      SortedFieldsSmaller(fields);
      [OPEN_BRACE] + Join(FieldTexts(SortedFields(fields), SizeFields(fields))) + [CLOSE_BRACE]
  }

  function ItemTexts(items: seq<Json>, bound: nat): (texts: seq<JsString>)
    requires forall i :: 0 <= i < |items| ==> Size(items[i]) <= bound
    ensures |texts| == |items|
    decreases bound, 2, |items|
  {
    if items == [] then [] else [Canonical(items[0])] + ItemTexts(items[1..], bound)
  }

  function FieldText(f: Field): JsString
    decreases Size(f.value), 1, 1
  {
    Quote(f.key) + [COLON] + Canonical(f.value)
  }

  function FieldTexts(fields: seq<Field>, bound: nat): (texts: seq<JsString>)
    requires forall i :: 0 <= i < |fields| ==> Size(fields[i].value) <= bound
    ensures |texts| == |fields|
    decreases bound, 2, |fields|
  {
    if fields == [] then [] else [FieldText(fields[0])] + FieldTexts(fields[1..], bound)
  }

  // ---------------------------------------------------------------- what a value denotes

  // The value with its objects as maps, so that key order is gone.
  datatype Value =
    | VNull
    | VBool(b: bool)
    | VNumber(numeral: JsString)
    | VString(s: JsString)
    | VArray(items: seq<Value>)
    | VObject(fields: map<JsString, Value>)

  function Denote(v: Json): Value {
    match v
    case JNull => VNull
    case JBool(b) => VBool(b)
    case JNumber(numeral) => VNumber(numeral)
    case JString(s) => VString(s)
    case JArray(items) => VArray(DenoteAll(items))
    case JObject(fields) => VObject(DenoteFields(fields))
  }

  function DenoteAll(items: seq<Json>): (values: seq<Value>)
    ensures |values| == |items|
  {
    if items == [] then [] else [Denote(items[0])] + DenoteAll(items[1..])
  }

  function DenoteFields(fields: seq<Field>): map<JsString, Value> {
    if fields == [] then map[] else DenoteFields(fields[1..])[fields[0].key := Denote(fields[0].value)]
  }

  lemma {:induction false} FieldLookup(fields: seq<Field>)
    requires Distinct(Keys(fields))
    ensures forall k :: k in DenoteFields(fields) <==> k in Keys(fields)
    ensures forall i :: 0 <= i < |fields| ==> DenoteFields(fields)[fields[i].key] == Denote(fields[i].value)
  {
    if fields != [] {
      assert Keys(fields)[1..] == Keys(fields[1..]);
      assert Keys(fields) == [fields[0].key] + Keys(fields[1..]);
      FieldLookup(fields[1..]);
      forall i | 0 < i < |fields|
        ensures DenoteFields(fields)[fields[i].key] == Denote(fields[i].value)
      {
        assert fields[1..][i - 1] == fields[i];
        assert Keys(fields)[0] != Keys(fields)[i];
      }
    }
  }

  // ---------------------------------------------------------------- strings are unambiguous

  function HexOf(c: CodeUnit): int {
    if Digit(c) then c - 0x30 else if 0x61 <= c <= 0x66 then c - 0x61 + 10 else -1
  }

  function Unescaped(c: CodeUnit): CodeUnit {
    if c == 0x62 then 0x08 else if c == 0x74 then 0x09 else if c == 0x6E then 0x0A else if c == 0x66 then 0x0C
    else if c == 0x72 then 0x0D else c
  }

  // Reads a printed string from behind its opening quote; the second part is what follows it.
  function ReadString(s: JsString): Option<(JsString, JsString)> {
    if s == [] then None
    else if s[0] == QUOTE then Some(([], s[1..]))
    else if s[0] != BACKSLASH then Before(s[0], ReadString(s[1..]))
    else if |s| >= 6 && s[1] == LOWER_U then
      var code := HexOf(s[2]) * 4096 + HexOf(s[3]) * 256 + HexOf(s[4]) * 16 + HexOf(s[5]);
      if 0 <= code < 0x10000 then Before(code, ReadString(s[6..])) else None
    else if |s| >= 2 then Before(Unescaped(s[1]), ReadString(s[2..]))
    else None
  }

  function Before(c: CodeUnit, read: Option<(JsString, JsString)>): Option<(JsString, JsString)> {
    match read case None => None case Some((s, rest)) => Some(([c] + s, rest))
  }

  lemma ReadUnit(c: CodeUnit, rest: JsString)
    ensures ReadString(QuoteUnit(c) + rest) == Before(c, ReadString(rest))
  {
    UnitParts(QuoteUnit(c), rest);
    if |QuoteUnit(c)| == 6 {
      HexRoundTrip(c);
    }
  }

  lemma UnitParts(unit: JsString, rest: JsString)
    ensures (unit + rest)[|unit|..] == rest
    ensures forall i :: 0 <= i < |unit| ==> (unit + rest)[i] == unit[i]
  {
  }

  lemma HexRoundTrip(c: CodeUnit)
    ensures var e := UnicodeEscape(c); HexOf(e[2]) * 4096 + HexOf(e[3]) * 256 + HexOf(e[4]) * 16 + HexOf(e[5]) == c
  {
    assert forall d :: 0 <= d < 16 ==> HexOf(HexDigit(d)) == d;
    assert c == c / 16 * 16 + c % 16;
    assert c / 16 == c / 16 / 16 * 16 + c / 16 % 16;
    assert c / 16 / 16 == c / 256 && c / 256 == c / 256 / 16 * 16 + c / 256 % 16;
    assert c / 256 / 16 == c / 4096;
  }

  lemma ReadPair(high: CodeUnit, low: CodeUnit, rest: JsString)
    requires HighSurrogate(high) && LowSurrogate(low)
    ensures ReadString([high, low] + rest) == Before(high, Before(low, ReadString(rest)))
  {
    var s := [high, low] + rest;
    assert s[1..] == [low] + rest && s[1..][1..] == rest;
  }

  lemma {:induction false} ReadBack(s: JsString, rest: JsString)
    ensures ReadString(QuoteBody(s) + ([QUOTE] + rest)) == Some((s, rest))
  {
    var tail := [QUOTE] + rest;
    if s == [] {
      assert QuoteBody(s) + tail == tail && tail[1..] == rest;
    } else if |s| >= 2 && HighSurrogate(s[0]) && LowSurrogate(s[1]) {
      ReadBack(s[2..], rest);
      QuotePair(s, tail);
      ReadPair(s[0], s[1], QuoteBody(s[2..]) + tail);
      assert s == [s[0]] + ([s[1]] + s[2..]);
    } else {
      ReadBack(s[1..], rest);
      QuoteOne(s, tail);
      ReadUnit(s[0], QuoteBody(s[1..]) + tail);
      assert s == [s[0]] + s[1..];
    }
  }

  lemma QuotePair(s: JsString, tail: JsString)
    requires |s| >= 2 && HighSurrogate(s[0]) && LowSurrogate(s[1])
    ensures QuoteBody(s) + tail == [s[0], s[1]] + (QuoteBody(s[2..]) + tail)
  {
    assert s[..2] == [s[0], s[1]];
    Associate(s[..2], QuoteBody(s[2..]), tail);
  }

  lemma QuoteOne(s: JsString, tail: JsString)
    requires s != [] && !(|s| >= 2 && HighSurrogate(s[0]) && LowSurrogate(s[1]))
    ensures QuoteBody(s) + tail == QuoteUnit(s[0]) + (QuoteBody(s[1..]) + tail)
  {
    Associate(QuoteUnit(s[0]), QuoteBody(s[1..]), tail);
  }

  lemma Associate(a: JsString, b: JsString, c: JsString)
    ensures (a + b) + c == a + (b + c)
  {
  }

  lemma QuoteUnambiguous(a: JsString, x: JsString, b: JsString, y: JsString)
    requires Quote(a) + x == Quote(b) + y
    ensures a == b && x == y
  {
    ReadBack(a, x);
    ReadBack(b, y);
    Enclosed(QuoteBody(a), x);
    Enclosed(QuoteBody(b), y);
  }

  lemma Enclosed(body: JsString, rest: JsString)
    ensures ([QUOTE] + body + [QUOTE] + rest)[1..] == body + ([QUOTE] + rest)
  {
  }

  // ---------------------------------------------------------------- values are unambiguous

  // What may stand behind a value inside a printed text.
  predicate Delimited(x: JsString) {
    x == [] || x[0] == COMMA || x[0] == CLOSE_BRACKET || x[0] == CLOSE_BRACE
  }

  function Kind(c: CodeUnit): nat {
    if c == 0x6E then 1 else if c == 0x74 then 2 else if c == 0x66 then 3 else if Digit(c) || c == 0x2D then 4
    else if c == QUOTE then 5 else if c == OPEN_BRACKET then 6 else if c == OPEN_BRACE then 7 else 0
  }

  function KindOf(v: Json): nat {
    match v
    case JNull => 1 case JBool(b) => if b then 2 else 3 case JNumber(_) => 4 case JString(_) => 5 case JArray(_) => 6 case JObject(_) => 7
  }

  lemma FirstUnit(v: Json)
    requires WellFormed(v)
    ensures Canonical(v) != [] && Kind(Canonical(v)[0]) == KindOf(v)
  {
  }

  // The parts behind the first one, each with its comma, and the closing bracket.
  function ListTail(texts: seq<JsString>, close: CodeUnit): JsString {
    if texts == [] then [close] else [COMMA] + texts[0] + ListTail(texts[1..], close)
  }

  function ListText(texts: seq<JsString>, close: CodeUnit): JsString {
    if texts == [] then [close] else texts[0] + ListTail(texts[1..], close)
  }

  lemma {:induction false} JoinIsList(texts: seq<JsString>, close: CodeUnit)
    ensures Join(texts) + [close] == ListText(texts, close)
  {
    if |texts| > 1 {
      JoinIsList(texts[1..], close);
      calc {
        Join(texts) + [close];
        texts[0] + [COMMA] + (Join(texts[1..]) + [close]);
        texts[0] + ([COMMA] + texts[1] + ListTail(texts[1..][1..], close));
        ListText(texts, close);
      }
    }
  }

  lemma {:induction false} NumeralUnambiguous(a: JsString, x: JsString, b: JsString, y: JsString)
    requires forall i :: 0 <= i < |a| ==> NumeralUnit(a[i])
    requires forall i :: 0 <= i < |b| ==> NumeralUnit(b[i])
    requires Delimited(x) && Delimited(y) && a + x == b + y
    ensures a == b && x == y
  {
    var s, t := a + x, b + y;
    assert a == [] ==> s == x;
    assert b == [] ==> t == y;
    assert a != [] ==> s[0] == a[0] && s[1..] == a[1..] + x && a == [a[0]] + a[1..];
    assert b != [] ==> t[0] == b[0] && t[1..] == b[1..] + y && b == [b[0]] + b[1..];
    if a != [] && b != [] {
      NumeralUnambiguous(a[1..], x, b[1..], y);
    }
  }

  // A printed value, followed by a delimiter or nothing, determines what it denotes and what follows.
  lemma {:induction false} Unambiguous(v: Json, x: JsString, w: Json, y: JsString)
    requires WellFormed(v) && WellFormed(w) && Delimited(x) && Delimited(y)
    requires Canonical(v) + x == Canonical(w) + y
    ensures Denote(v) == Denote(w) && x == y
    decreases Size(v), 1, 0
  {
    FirstUnit(v);
    FirstUnit(w);
    var cv, cw := Canonical(v), Canonical(w);
    assert (cv + x)[0] == cv[0] && (cw + y)[0] == cw[0];
    assert KindOf(v) == KindOf(w);
    match v {
      case JNull =>
        assert (cv + x)[4..] == x && (cw + y)[4..] == y;
      case JBool(_) =>
        assert cv == cw;
        assert (cv + x)[|cv|..] == x && (cw + y)[|cw|..] == y;
      case JNumber(n) =>
        NumeralUnambiguous(n, x, w.numeral, y);
      case JString(s) =>
        QuoteUnambiguous(s, x, w.s, y);
      case JArray(items) =>
        ArrayUnambiguous(items, x, w.items, y);
      case JObject(fields) =>
        ObjectUnambiguous(fields, x, w.fields, y);
    }
  }

  lemma ItemBounds(items: seq<Json>)
    ensures forall i :: 0 <= i < |items| ==> Size(items[i]) <= SizeAll(items)
  {
    forall i | 0 <= i < |items|
      ensures Size(items[i]) <= SizeAll(items)
    {
      ItemSmaller(items, i);
    }
  }

  lemma {:induction false} ArrayUnambiguous(us: seq<Json>, x: JsString, ws: seq<Json>, y: JsString)
    requires WellFormed(JArray(us)) && WellFormed(JArray(ws))
    requires Canonical(JArray(us)) + x == Canonical(JArray(ws)) + y
    ensures DenoteAll(us) == DenoteAll(ws) && x == y
    decreases SizeAll(us), 4, 0
  {
    ItemBounds(us);
    ItemBounds(ws);
    var tu, tw := ItemTexts(us, SizeAll(us)), ItemTexts(ws, SizeAll(ws));
    JoinIsList(tu, CLOSE_BRACKET);
    JoinIsList(tw, CLOSE_BRACKET);
    ItemParts(us, SizeAll(us));
    ItemParts(ws, SizeAll(ws));
    assert (Canonical(JArray(us)) + x)[1..] == ListText(tu, CLOSE_BRACKET) + x;
    assert (Canonical(JArray(ws)) + y)[1..] == ListText(tw, CLOSE_BRACKET) + y;
    ListsMatch(tu, x, tw, y, CLOSE_BRACKET);
    if us != [] && ws != [] {
      ItemsUnambiguous(us, SizeAll(us), x, ws, SizeAll(ws), y);
    }
  }

  // A part of a list neither is empty nor starts like the end of the list.
  ghost predicate Parts(texts: seq<JsString>, close: CodeUnit) {
    close != COMMA && forall t :: t in texts ==> t != [] && t[0] != close
  }

  lemma ItemParts(items: seq<Json>, n: nat)
    requires forall i :: 0 <= i < |items| ==> Size(items[i]) <= n && WellFormed(items[i])
    ensures Parts(ItemTexts(items, n), CLOSE_BRACKET)
  {
    if items != [] {
      FirstUnit(items[0]);
      ItemParts(items[1..], n);
    }
  }

  lemma TailHead(texts: seq<JsString>, close: CodeUnit, x: JsString)
    ensures var s := ListTail(texts, close) + x;
            if texts == [] then s[0] == close && s[1..] == x
            else s[0] == COMMA && s[1..] == texts[0] + (ListTail(texts[1..], close) + x)
  {
  }

  lemma TailsMatch(a: seq<JsString>, x: JsString, b: seq<JsString>, y: JsString, close: CodeUnit)
    requires close != COMMA && ListTail(a, close) + x == ListTail(b, close) + y
    ensures a == [] <==> b == []
    ensures a == [] ==> x == y
    ensures a != [] && b != [] ==> a[0] + (ListTail(a[1..], close) + x) == b[0] + (ListTail(b[1..], close) + y)
  {
    TailHead(a, close, x);
    TailHead(b, close, y);
  }

  // Equal lists are both empty or both non-empty, and stay equal behind a comma.
  lemma ListsMatch(a: seq<JsString>, x: JsString, b: seq<JsString>, y: JsString, close: CodeUnit)
    requires Parts(a, close) && Parts(b, close)
    requires ListText(a, close) + x == ListText(b, close) + y
    ensures a == [] <==> b == []
    ensures a == [] ==> x == y
    ensures a != [] ==> ListTail(a, close) + x == ListTail(b, close) + y
  {
    ListHead(a, close, x);
    ListHead(b, close, y);
  }

  lemma ListHead(texts: seq<JsString>, close: CodeUnit, x: JsString)
    requires Parts(texts, close)
    ensures var s := ListText(texts, close) + x;
            && (texts == [] <==> s[0] == close)
            && (texts == [] ==> s[1..] == x)
            && (texts != [] ==> ListTail(texts, close) + x == [COMMA] + s)
  {
    if texts != [] {
      assert texts[0] in texts;
      var behind := ListTail(texts[1..], close);
      assert (texts[0] + behind + x)[0] == texts[0][0];
      assert [COMMA] + texts[0] + behind + x == [COMMA] + (texts[0] + behind + x);
    }
  }

  // Two printed item lists, each item behind its comma.
  lemma {:induction false} ItemsUnambiguous(us: seq<Json>, n: nat, x: JsString, ws: seq<Json>, m: nat, y: JsString)
    requires forall i :: 0 <= i < |us| ==> Size(us[i]) <= n && WellFormed(us[i])
    requires forall i :: 0 <= i < |ws| ==> Size(ws[i]) <= m && WellFormed(ws[i])
    requires ListTail(ItemTexts(us, n), CLOSE_BRACKET) + x == ListTail(ItemTexts(ws, m), CLOSE_BRACKET) + y
    ensures DenoteAll(us) == DenoteAll(ws) && x == y
    decreases n, 3, |us|
  {
    TailHead(ItemTexts(us, n), CLOSE_BRACKET, x);
    TailHead(ItemTexts(ws, m), CLOSE_BRACKET, y);
    if us != [] {
      var ru, rw := ListTail(ItemTexts(us[1..], n), CLOSE_BRACKET) + x, ListTail(ItemTexts(ws[1..], m), CLOSE_BRACKET) + y;
      TailHead(ItemTexts(us[1..], n), CLOSE_BRACKET, x);
      TailHead(ItemTexts(ws[1..], m), CLOSE_BRACKET, y);
      Unambiguous(us[0], ru, ws[0], rw);
      ItemsUnambiguous(us[1..], n, x, ws[1..], m, y);
    }
  }

  ghost predicate SameFields(us: seq<Field>, ws: seq<Field>) {
    |us| == |ws| && forall i :: 0 <= i < |us| ==> us[i].key == ws[i].key && Denote(us[i].value) == Denote(ws[i].value)
  }

  lemma SortedFieldsWellFormed(fields: seq<Field>)
    requires WellFormed(JObject(fields))
    ensures var sorted := SortedFields(fields);
            && |sorted| == |fields|
            && (forall i :: 0 <= i < |sorted| ==> WellFormed(sorted[i].value) && Size(sorted[i].value) <= SizeFields(fields))
            && (forall f :: f in sorted <==> f in fields)
  {
    SortMembers(fields, FieldLe());
    SortedFieldsSmaller(fields);
    var sorted := SortedFields(fields);
    forall i | 0 <= i < |sorted|
      ensures WellFormed(sorted[i].value)
    {
      assert sorted[i] in fields;
    }
  }

  lemma ObjectText(fields: seq<Field>, x: JsString)
    requires WellFormed(JObject(fields))
    ensures forall i :: 0 <= i < |SortedFields(fields)| ==> Size(SortedFields(fields)[i].value) <= SizeFields(fields)
    ensures var texts := FieldTexts(SortedFields(fields), SizeFields(fields));
            && Canonical(JObject(fields)) + x == [OPEN_BRACE] + (ListText(texts, CLOSE_BRACE) + x)
            && ([OPEN_BRACE] + (ListText(texts, CLOSE_BRACE) + x))[1..] == ListText(texts, CLOSE_BRACE) + x
            && Parts(texts, CLOSE_BRACE)
  {
    SortedFieldsSmaller(fields);
    FieldParts(SortedFields(fields), SizeFields(fields));
    WrappedList(OPEN_BRACE, FieldTexts(SortedFields(fields), SizeFields(fields)), CLOSE_BRACE, x);
  }

  lemma WrappedList(open: CodeUnit, texts: seq<JsString>, close: CodeUnit, x: JsString)
    ensures [open] + Join(texts) + [close] + x == [open] + (ListText(texts, close) + x)
    ensures ([open] + (ListText(texts, close) + x))[1..] == ListText(texts, close) + x
  {
    JoinIsList(texts, close);
    var joined := Join(texts);
    assert [open] + joined + [close] + x == [open] + ((joined + [close]) + x);
  }

  lemma {:induction false} ObjectUnambiguous(us: seq<Field>, x: JsString, ws: seq<Field>, y: JsString)
    requires WellFormed(JObject(us)) && WellFormed(JObject(ws))
    requires Canonical(JObject(us)) + x == Canonical(JObject(ws)) + y
    ensures DenoteFields(us) == DenoteFields(ws) && x == y
    decreases SizeFields(us), 4, 0
  {
    ObjectText(us, x);
    ObjectText(ws, y);
    SortedFieldsWellFormed(us);
    SortedFieldsWellFormed(ws);
    var su, sw := SortedFields(us), SortedFields(ws);
    ListsMatch(FieldTexts(su, SizeFields(us)), x, FieldTexts(sw, SizeFields(ws)), y, CLOSE_BRACE);
    if us != [] && ws != [] {
      FieldsUnambiguous(su, SizeFields(us), x, sw, SizeFields(ws), y);
      SameFieldsSameMap(us, ws);
    }
  }

  lemma FieldParts(fields: seq<Field>, n: nat)
    requires forall i :: 0 <= i < |fields| ==> Size(fields[i].value) <= n
    ensures Parts(FieldTexts(fields, n), CLOSE_BRACE)
  {
  }

  lemma {:induction false} FieldsUnambiguous(us: seq<Field>, n: nat, x: JsString, ws: seq<Field>, m: nat, y: JsString)
    requires forall i :: 0 <= i < |us| ==> Size(us[i].value) <= n && WellFormed(us[i].value)
    requires forall i :: 0 <= i < |ws| ==> Size(ws[i].value) <= m && WellFormed(ws[i].value)
    requires ListTail(FieldTexts(us, n), CLOSE_BRACE) + x == ListTail(FieldTexts(ws, m), CLOSE_BRACE) + y
    ensures SameFields(us, ws) && x == y
    decreases n, 3, |us|
  {
    TailsMatch(FieldTexts(us, n), x, FieldTexts(ws, m), y, CLOSE_BRACE);
    if us != [] {
      var ru, rw := ListTail(FieldTexts(us[1..], n), CLOSE_BRACE) + x, ListTail(FieldTexts(ws[1..], m), CLOSE_BRACE) + y;
      TailHead(FieldTexts(us[1..], n), CLOSE_BRACE, x);
      TailHead(FieldTexts(ws[1..], m), CLOSE_BRACE, y);
      assert FieldTexts(us, n)[1..] == FieldTexts(us[1..], n) && FieldTexts(ws, m)[1..] == FieldTexts(ws[1..], m);
      OneFieldUnambiguous(us[0], ru, ws[0], rw);
      FieldsUnambiguous(us[1..], n, x, ws[1..], m, y);
      ConsFields(us, ws);
    }
  }

  lemma ConsFields(us: seq<Field>, ws: seq<Field>)
    requires us != [] && ws != [] && SameFields(us[1..], ws[1..])
    requires us[0].key == ws[0].key && Denote(us[0].value) == Denote(ws[0].value)
    ensures SameFields(us, ws)
  {
    assert forall i :: 1 <= i < |us| ==> us[i] == us[1..][i - 1];
    assert forall i :: 1 <= i < |ws| ==> ws[i] == ws[1..][i - 1];
  }

  lemma FieldSplit(key: JsString, value: JsString, x: JsString)
    ensures Quote(key) + [COLON] + value + x == Quote(key) + ([COLON] + (value + x))
    ensures ([COLON] + (value + x))[1..] == value + x
  {
  }

  lemma {:induction false} OneFieldUnambiguous(a: Field, x: JsString, b: Field, y: JsString)
    requires WellFormed(a.value) && WellFormed(b.value) && Delimited(x) && Delimited(y)
    requires FieldText(a) + x == FieldText(b) + y
    ensures a.key == b.key && Denote(a.value) == Denote(b.value) && x == y
    decreases Size(a.value), 2, 0
  {
    var ca, cb := Canonical(a.value), Canonical(b.value);
    FieldSplit(a.key, ca, x);
    FieldSplit(b.key, cb, y);
    QuoteUnambiguous(a.key, [COLON] + (ca + x), b.key, [COLON] + (cb + y));
    Unambiguous(a.value, x, b.value, y);
  }

  lemma SameFieldsSameMap(us: seq<Field>, ws: seq<Field>)
    requires WellFormed(JObject(us)) && WellFormed(JObject(ws))
    requires SameFields(SortedFields(us), SortedFields(ws))
    ensures DenoteFields(us) == DenoteFields(ws)
  {
    FieldLookup(us);
    FieldLookup(ws);
    HalfMap(us, ws);
    HalfMap(ws, us);
  }

  lemma HalfMap(us: seq<Field>, ws: seq<Field>)
    requires WellFormed(JObject(us)) && WellFormed(JObject(ws))
    requires SameFields(SortedFields(us), SortedFields(ws))
    ensures forall k :: k in DenoteFields(us) ==> k in DenoteFields(ws) && DenoteFields(us)[k] == DenoteFields(ws)[k]
  {
    FieldLookup(us);
    FieldLookup(ws);
    SortedFieldsWellFormed(us);
    SortedFieldsWellFormed(ws);
    forall k | k in DenoteFields(us)
      ensures k in DenoteFields(ws) && DenoteFields(us)[k] == DenoteFields(ws)[k]
    {
      assert k in Keys(us);
      var i :| 0 <= i < |us| && Keys(us)[i] == k;
      assert us[i] in SortedFields(us);
      var j :| 0 <= j < |SortedFields(us)| && SortedFields(us)[j] == us[i];
      assert SortedFields(ws)[j] in ws;
      var h :| 0 <= h < |ws| && ws[h] == SortedFields(ws)[j];
      assert Keys(ws)[h] == k;
    }
  }

  // ---------------------------------------------------------------- equal values print equally

  // Objects with the same map have the same keys in the same sorted order.
  lemma SortedKeysAgree(us: seq<Field>, ws: seq<Field>)
    requires WellFormed(JObject(us)) && WellFormed(JObject(ws)) && DenoteFields(us) == DenoteFields(ws)
    ensures Keys(SortedFields(us)) == Keys(SortedFields(ws))
  {
    SortedKeys(us);
    SortedKeys(ws);
    FieldLookup(us);
    FieldLookup(ws);
    var ku, kw := Keys(SortedFields(us)), Keys(SortedFields(ws));
    assert Elements(ku) == Elements(kw);
    DistinctSameElements(ku, kw);
    StringOrder();
    SortedUnique(ku, kw, StringLe);
  }

  lemma SortedKeysDistinct(fields: seq<Field>)
    requires WellFormed(JObject(fields))
    ensures Sorted(Keys(SortedFields(fields)), StringLe) && Distinct(Keys(SortedFields(fields)))
  {
    var sorted := SortedFields(fields);
    StringOrder();
    SortSorted(fields, FieldLe());
    SortMembers(fields, FieldLe());
    DifferentKeys(fields);
    PermutationDistinct(fields, sorted);
    SortedByKey(sorted);
    KeysStayDistinct(fields, sorted);
  }

  lemma DifferentKeys(fields: seq<Field>)
    requires Distinct(Keys(fields))
    ensures Distinct(fields)
  {
    forall i, j | 0 <= i < j < |fields|
      ensures fields[i] != fields[j]
    {
      assert Keys(fields)[i] != Keys(fields)[j];
    }
  }

  lemma SortedByKey(sorted: seq<Field>)
    requires Sorted(sorted, FieldLe())
    ensures Sorted(Keys(sorted), StringLe)
  {
    forall i, j | 0 <= i < j < |sorted|
      ensures StringLe(Keys(sorted)[i], Keys(sorted)[j])
    {
      assert FieldLe()(sorted[i], sorted[j]);
    }
  }

  lemma KeysStayDistinct(fields: seq<Field>, sorted: seq<Field>)
    requires Distinct(Keys(fields)) && Distinct(sorted) && forall f :: f in sorted ==> f in fields
    ensures Distinct(Keys(sorted))
  {
    forall i, j | 0 <= i < j < |sorted|
      ensures Keys(sorted)[i] != Keys(sorted)[j]
    {
      assert sorted[i] in fields && sorted[j] in fields;
      var a :| 0 <= a < |fields| && fields[a] == sorted[i];
      var b :| 0 <= b < |fields| && fields[b] == sorted[j];
      assert Keys(fields)[a] == sorted[i].key && Keys(fields)[b] == sorted[j].key;
    }
  }

  lemma SortedKeys(fields: seq<Field>)
    requires WellFormed(JObject(fields))
    ensures var keys := Keys(SortedFields(fields));
            Sorted(keys, StringLe) && Distinct(keys) && forall k :: k in keys <==> k in Keys(fields)
  {
    SortedKeysDistinct(fields);
    var sorted := SortedFields(fields);
    SortedFieldsWellFormed(fields);
    forall k
      ensures k in Keys(sorted) <==> k in Keys(fields)
    {
      if k in Keys(sorted) {
        var i :| 0 <= i < |sorted| && Keys(sorted)[i] == k;
        assert sorted[i] in fields;
        var a :| 0 <= a < |fields| && fields[a] == sorted[i];
        assert Keys(fields)[a] == k;
      }
      if k in Keys(fields) {
        var a :| 0 <= a < |fields| && Keys(fields)[a] == k;
        assert fields[a] in sorted;
        var i :| 0 <= i < |sorted| && sorted[i] == fields[a];
        assert Keys(sorted)[i] == k;
      }
    }
  }

  // The values under equal keys denote the same.
  lemma SortedValuesAgree(us: seq<Field>, ws: seq<Field>)
    requires WellFormed(JObject(us)) && WellFormed(JObject(ws)) && DenoteFields(us) == DenoteFields(ws)
    ensures SameFields(SortedFields(us), SortedFields(ws))
  {
    SortedKeysAgree(us, ws);
    FieldLookup(us);
    FieldLookup(ws);
    SortedFieldsWellFormed(us);
    SortedFieldsWellFormed(ws);
    var su, sw := SortedFields(us), SortedFields(ws);
    assert |Keys(su)| == |Keys(sw)|;
    forall i | 0 <= i < |su|
      ensures su[i].key == sw[i].key && Denote(su[i].value) == Denote(sw[i].value)
    {
      assert Keys(su)[i] == Keys(sw)[i];
      assert su[i] in us && sw[i] in ws;
    }
  }

  lemma {:induction false} EqualPrintsEqually(v: Json, w: Json)
    requires WellFormed(v) && WellFormed(w) && Denote(v) == Denote(w)
    ensures Canonical(v) == Canonical(w)
    decreases Size(v), 1, 0
  {
    match v {
      case JArray(items) =>
        ItemBounds(items);
        ItemBounds(w.items);
        EqualItems(items, SizeAll(items), w.items, SizeAll(w.items));
      case JObject(fields) =>
        SortedValuesAgree(fields, w.fields);
        SortedFieldsWellFormed(fields);
        SortedFieldsWellFormed(w.fields);
        EqualFields(SortedFields(fields), SizeFields(fields), SortedFields(w.fields), SizeFields(w.fields));
      case _ =>
    }
  }

  lemma {:induction false} EqualItems(us: seq<Json>, n: nat, ws: seq<Json>, m: nat)
    requires forall i :: 0 <= i < |us| ==> Size(us[i]) <= n && WellFormed(us[i])
    requires forall i :: 0 <= i < |ws| ==> Size(ws[i]) <= m && WellFormed(ws[i])
    requires DenoteAll(us) == DenoteAll(ws)
    ensures ItemTexts(us, n) == ItemTexts(ws, m)
    decreases n, 2, |us|
  {
    if us != [] {
      assert DenoteAll(us)[1..] == DenoteAll(us[1..]) && DenoteAll(ws)[1..] == DenoteAll(ws[1..]);
      EqualPrintsEqually(us[0], ws[0]);
      EqualItems(us[1..], n, ws[1..], m);
    }
  }

  lemma {:induction false} EqualFields(us: seq<Field>, n: nat, ws: seq<Field>, m: nat)
    requires forall i :: 0 <= i < |us| ==> Size(us[i].value) <= n && WellFormed(us[i].value)
    requires forall i :: 0 <= i < |ws| ==> Size(ws[i].value) <= m && WellFormed(ws[i].value)
    requires SameFields(us, ws)
    ensures FieldTexts(us, n) == FieldTexts(ws, m)
    decreases n, 2, |us|
  {
    if us != [] {
      EqualPrintsEqually(us[0].value, ws[0].value);
      EqualFields(us[1..], n, ws[1..], m);
    }
  }

  // The main result: injective up to the order of keys.
  lemma CanonicalExact(v: Json, w: Json)
    requires WellFormed(v) && WellFormed(w)
    ensures Canonical(v) == Canonical(w) <==> Denote(v) == Denote(w)
  {
    if Canonical(v) == Canonical(w) {
      Unambiguous(v, [], w, []);
    }
    if Denote(v) == Denote(w) {
      EqualPrintsEqually(v, w);
    }
  }
}
