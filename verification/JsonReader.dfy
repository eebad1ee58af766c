// A reader of JSON text that reads canonical texts back.
module JsonReader {
  // The grammar is that of RFC 8259, without white space.

  import opened Sequences
  import opened Sorting
  import opened JsStrings
  import opened CanonicalJson

  // The code units of an ASCII text.
  function Units(s: string): (r: JsString)
    ensures |r| == |s|
  {
    seq(|s|, i requires 0 <= i < |s| => s[i] as int % 0x10000)
  }

  datatype Pair = Pair(key: JsString, value: Value)

  // The object the pairs stand for; a later pair replaces an earlier one of the same key (section 4).
  function FromPairs(pairs: seq<Pair>): map<JsString, Value> {
    if pairs == [] then map[]
    else FromPairs(pairs[..|pairs| - 1])[pairs[|pairs| - 1].key := pairs[|pairs| - 1].value]
  }

  function NumeralLength(s: JsString): (n: nat)
    ensures n <= |s|
  {
    if s == [] || !(0x30 <= s[0] <= 0x39 || s[0] in [0x2B, 0x2D, 0x2E, 0x65]) then 0 else 1 + NumeralLength(s[1..])
  }

  lemma {:induction false} StringShortens(s: JsString)
    ensures ReadString(s).Some? ==> |ReadString(s).value.1| < |s|
    decreases |s|
  {
    if s != [] && s[0] != QUOTE {
      if s[0] != BACKSLASH {
        StringShortens(s[1..]);
      } else if |s| >= 6 && s[1] == LOWER_U {
        StringShortens(s[6..]);
      } else if |s| >= 2 {
        StringShortens(s[2..]);
      }
    }
  }

  // A value and what follows it.
  function ReadValue(s: JsString): (r: Option<(Value, JsString)>)
    ensures r.Some? ==> |r.value.1| < |s|
    decreases |s|, 0
  {
    if s == [] then None
    else if s[0] == '\"' as int then
      StringShortens(s[1..]);
      match ReadString(s[1..])
      case None => None
      case Some((text, rest)) => Some((VString(text), rest))
    else if s[0] == '[' as int then
      if |s| > 1 && s[1] == ']' as int then Some((VArray([]), s[2..]))
      else match ReadItems(s[1..])
        case None => None
        case Some((items, rest)) => Some((VArray(items), rest))
    else if s[0] == '{' as int then
      if |s| > 1 && s[1] == '}' as int then Some((VObject(map[]), s[2..]))
      else match ReadPairs(s[1..])
        case None => None
        case Some((pairs, rest)) => Some((VObject(FromPairs(pairs)), rest))
    else if Units("null") <= s then Some((VNull, s[4..]))
    else if Units("true") <= s then Some((VBool(true), s[4..]))
    else if Units("false") <= s then Some((VBool(false), s[5..]))
    else
      var n := NumeralLength(s);
      if n == 0 then None else Some((VNumber(s[..n]), s[n..]))
  }

  // Values with commas between them, up to the closing bracket.
  function ReadItems(s: JsString): (r: Option<(seq<Value>, JsString)>)
    ensures r.Some? ==> |r.value.1| < |s|
    decreases |s|, 1
  {
    match ReadValue(s)
    case None => None
    case Some((value, rest)) =>
      if rest == [] then None
      else if rest[0] == ']' as int then Some(([value], rest[1..]))
      else if rest[0] != ',' as int then None
      else match ReadItems(rest[1..])
        case None => None
        case Some((values, behind)) => Some(([value] + values, behind))
  }

  // One key, a colon and a value.
  function ReadPair(s: JsString): (r: Option<(Pair, JsString)>)
    ensures r.Some? ==> |r.value.1| < |s|
    decreases |s|, 1
  {
    if s == [] || s[0] != '\"' as int then None
    else
      StringShortens(s[1..]);
      match ReadString(s[1..])
      case None => None
      case Some((key, colon)) =>
        if colon == [] || colon[0] != ':' as int then None
        else match ReadValue(colon[1..])
          case None => None
          case Some((value, rest)) => Some((Pair(key, value), rest))
  }

  // Pairs with commas between them, up to the closing brace.
  function ReadPairs(s: JsString): (r: Option<(seq<Pair>, JsString)>)
    ensures r.Some? ==> |r.value.1| < |s|
    decreases |s|, 2
  {
    match ReadPair(s)
    case None => None
    case Some((pair, rest)) =>
      if rest == [] then None
      else if rest[0] == '}' as int then Some(([pair], rest[1..]))
      else if rest[0] != ',' as int then None
      else match ReadPairs(rest[1..])
        case None => None
        case Some((pairs, behind)) => Some(([pair] + pairs, behind))
  }

  // ---------------------------------------------------------------- every canonical text is read back

  lemma {:induction false} NumeralEnds(n: JsString, rest: JsString)
    requires (forall i :: 0 <= i < |n| ==> NumeralUnit(n[i])) && Delimited(rest)
    ensures NumeralLength(n + rest) == |n|
  {
    if n == [] {
      assert n + rest == rest;
    } else {
      assert (n + rest)[1..] == n[1..] + rest;
      NumeralEnds(n[1..], rest);
    }
  }

  lemma NumberReadsBack(n: JsString, rest: JsString)
    requires Numeral(n) && Delimited(rest)
    ensures ReadValue(n + rest) == Some((VNumber(n), rest))
  {
    var s := n + rest;
    NumeralEnds(n, rest);
    assert s[0] == n[0] && s[..|n|] == n && s[|n|..] == rest;
    assert Units("null")[0] == 0x6E && Units("true")[0] == 0x74 && Units("false")[0] == 0x66;
  }

  lemma WordReadsBack(word: JsString, rest: JsString)
    requires word == Units("null") || word == Units("true") || word == Units("false")
    ensures ReadValue(word + rest) == Some((if word == Units("null") then VNull else VBool(word == Units("true")), rest))
  {
    var s := word + rest;
    assert s[..|word|] == word && s[|word|..] == rest && s[0] == word[0];
    assert Units("null")[0] == 0x6E && Units("true")[0] == 0x74 && Units("false")[0] == 0x66;
  }

  lemma StringReadsBack(text: JsString, rest: JsString)
    ensures (Quote(text) + rest)[0] == 0x22 && ReadString((Quote(text) + rest)[1..]) == Some((text, rest))
    ensures ReadValue(Quote(text) + rest) == Some((VString(text), rest))
  {
    Enclosed(QuoteBody(text), rest);
    ReadBack(text, rest);
    assert (Quote(text) + rest)[0] == QUOTE;
  }

  lemma {:induction false} ValueReadsBack(v: Json, rest: JsString)
    requires WellFormed(v) && Delimited(rest)
    ensures ReadValue(Canonical(v) + rest) == Some((Denote(v), rest))
    decreases Size(v), 1, 0
  {
    match v {
      case JNull => WordReadsBack(Canonical(v), rest);
      case JBool(b) => WordReadsBack(Canonical(v), rest);
      case JNumber(n) => NumberReadsBack(n, rest);
      case JString(text) => StringReadsBack(text, rest);
      case JArray(items) => ArrayReadsBack(items, rest);
      case JObject(fields) => ObjectReadsBack(fields, rest);
    }
  }

  lemma {:induction false} ArrayReadsBack(items: seq<Json>, rest: JsString)
    requires WellFormed(JArray(items))
    ensures ReadValue(Canonical(JArray(items)) + rest) == Some((VArray(DenoteAll(items)), rest))
    decreases SizeAll(items), 4, 0
  {
    ItemBounds(items);
    var texts := ItemTexts(items, SizeAll(items));
    var list := ListText(texts, CLOSE_BRACKET) + rest;
    WrappedList(OPEN_BRACKET, texts, CLOSE_BRACKET, rest);
    ItemParts(items, SizeAll(items));
    ListHead(texts, CLOSE_BRACKET, rest);
    var s := Canonical(JArray(items)) + rest;
    assert s == [OPEN_BRACKET] + list && s[1..] == list && s[1] == list[0];
    if items != [] {
      ItemsReadBack(items, SizeAll(items), rest);
    } else {
      assert s[2..] == list[1..];
    }
  }

  lemma {:induction false} ItemsReadBack(items: seq<Json>, n: nat, rest: JsString)
    requires items != [] && forall i :: 0 <= i < |items| ==> Size(items[i]) <= n && WellFormed(items[i])
    ensures ReadItems(ListText(ItemTexts(items, n), CLOSE_BRACKET) + rest) == Some((DenoteAll(items), rest))
    decreases n, 3, |items|
  {
    var behind := ItemTexts(items[1..], n);
    var tail := ListTail(behind, CLOSE_BRACKET) + rest;
    TailHead(behind, CLOSE_BRACKET, rest);
    FirstOfList(Canonical(items[0]), behind, CLOSE_BRACKET, rest);
    ValueReadsBack(items[0], tail);
    if |items| > 1 {
      ItemsReadBack(items[1..], n, rest);
      FirstOfList(behind[0], behind[1..], CLOSE_BRACKET, rest);
    } else {
      assert DenoteAll(items) == [Denote(items[0])];
    }
  }

  lemma FirstOfList(first: JsString, behind: seq<JsString>, close: CodeUnit, rest: JsString)
    ensures ListText([first] + behind, close) + rest == first + (ListTail(behind, close) + rest)
    ensures ([first] + behind)[1..] == behind
  {
  }

  // The keys and values of an object, in the order in which it is printed.
  function PairsOf(fields: seq<Field>): (pairs: seq<Pair>)
    ensures |pairs| == |fields| && forall i :: 0 <= i < |fields| ==> pairs[i] == Pair(fields[i].key, Denote(fields[i].value))
  {
    if fields == [] then [] else [Pair(fields[0].key, Denote(fields[0].value))] + PairsOf(fields[1..])
  }

  lemma {:induction false} PairReadsBack(f: Field, rest: JsString)
    requires WellFormed(f.value) && Delimited(rest)
    ensures ReadPair(FieldText(f) + rest) == Some((Pair(f.key, Denote(f.value)), rest))
    decreases Size(f.value), 2, 0
  {
    var value := Canonical(f.value);
    FieldSplit(f.key, value, rest);
    StringReadsBack(f.key, [COLON] + (value + rest));
    ValueReadsBack(f.value, rest);
  }

  lemma {:induction false} PairsReadBack(fields: seq<Field>, n: nat, rest: JsString)
    requires fields != [] && forall i :: 0 <= i < |fields| ==> Size(fields[i].value) <= n && WellFormed(fields[i].value)
    ensures ReadPairs(ListText(FieldTexts(fields, n), CLOSE_BRACE) + rest) == Some((PairsOf(fields), rest))
    decreases n, 3, |fields|
  {
    var behind := FieldTexts(fields[1..], n);
    var tail := ListTail(behind, CLOSE_BRACE) + rest;
    TailHead(behind, CLOSE_BRACE, rest);
    FirstOfList(FieldText(fields[0]), behind, CLOSE_BRACE, rest);
    PairReadsBack(fields[0], tail);
    if |fields| > 1 {
      PairsReadBack(fields[1..], n, rest);
      FirstOfList(behind[0], behind[1..], CLOSE_BRACE, rest);
    } else {
      assert PairsOf(fields) == [Pair(fields[0].key, Denote(fields[0].value))];
    }
  }

  lemma {:induction false} ObjectReadsBack(fields: seq<Field>, rest: JsString)
    requires WellFormed(JObject(fields))
    ensures ReadValue(Canonical(JObject(fields)) + rest) == Some((VObject(DenoteFields(fields)), rest))
    decreases SizeFields(fields), 4, 0
  {
    ObjectText(fields, rest);
    SortedFieldsWellFormed(fields);
    var sorted, n := SortedFields(fields), SizeFields(fields);
    var texts := FieldTexts(sorted, n);
    var list := ListText(texts, CLOSE_BRACE) + rest;
    ListHead(texts, CLOSE_BRACE, rest);
    SortedSameObject(fields);
    BracesRead(Canonical(JObject(fields)) + rest, list);
    if sorted != [] {
      PairsReadBack(sorted, n, rest);
    }
  }

  lemma BracesRead(s: JsString, list: JsString)
    requires list != [] && s == [OPEN_BRACE] + list
    ensures list[0] == CLOSE_BRACE ==> ReadValue(s) == Some((VObject(map[]), list[1..]))
    ensures list[0] != CLOSE_BRACE && ReadPairs(list).Some? ==>
              ReadValue(s) == Some((VObject(FromPairs(ReadPairs(list).value.0)), ReadPairs(list).value.1))
  {
    assert s[1..] == list && s[1] == list[0] && s[2..] == list[1..];
  }

  // ---------------------------------------------------------------- pairs and maps

  lemma {:induction false} PairLookup(pairs: seq<Pair>)
    requires forall i, j :: 0 <= i < j < |pairs| ==> pairs[i].key != pairs[j].key
    ensures forall k :: k in FromPairs(pairs) <==> exists i :: 0 <= i < |pairs| && pairs[i].key == k
    ensures forall i :: 0 <= i < |pairs| ==> pairs[i].key in FromPairs(pairs) && FromPairs(pairs)[pairs[i].key] == pairs[i].value
  {
    if pairs != [] {
      var last := |pairs| - 1;
      PairLookup(pairs[..last]);
      assert forall i :: 0 <= i < last ==> pairs[..last][i] == pairs[i];
    }
  }

  lemma SortedSameObject(fields: seq<Field>)
    requires WellFormed(JObject(fields))
    ensures FromPairs(PairsOf(SortedFields(fields))) == DenoteFields(fields)
  {
    var sorted := SortedFields(fields);
    SortedFieldsWellFormed(fields);
    PairsFound(fields, PairsOf(sorted));
    KeysKnown(fields);
    SameKeys(fields, sorted, PairsOf(sorted));
    SameValues(fields, sorted, PairsOf(sorted));
    MapsAgree(FromPairs(PairsOf(sorted)), DenoteFields(fields), Keys(fields), PairsOf(sorted));
  }

  lemma PairsFound(fields: seq<Field>, pairs: seq<Pair>)
    requires WellFormed(JObject(fields)) && pairs == PairsOf(SortedFields(fields))
    ensures forall k :: k in FromPairs(pairs) <==> exists i :: 0 <= i < |pairs| && pairs[i].key == k
    ensures forall i :: 0 <= i < |pairs| ==> pairs[i].key in FromPairs(pairs) && FromPairs(pairs)[pairs[i].key] == pairs[i].value
  {
    SortedKeys(fields);
    forall i, j | 0 <= i < j < |pairs|
      ensures pairs[i].key != pairs[j].key
    {
      assert Keys(SortedFields(fields))[i] != Keys(SortedFields(fields))[j];
    }
    PairLookup(pairs);
  }

  lemma KeysKnown(fields: seq<Field>)
    requires WellFormed(JObject(fields))
    ensures forall k :: k in DenoteFields(fields) <==> k in Keys(fields)
    ensures forall i :: 0 <= i < |fields| ==> fields[i].key in DenoteFields(fields) && DenoteFields(fields)[fields[i].key] == Denote(fields[i].value)
  {
    FieldLookup(fields);
    assert forall i :: 0 <= i < |fields| ==> Keys(fields)[i] in Keys(fields);
  }

  lemma MapsAgree(m: map<JsString, Value>, d: map<JsString, Value>, keys: seq<JsString>, pairs: seq<Pair>)
    requires forall k :: k in m <==> exists i :: 0 <= i < |pairs| && pairs[i].key == k
    requires forall k :: k in d <==> k in keys
    requires forall k :: k in keys <==> exists i :: 0 <= i < |pairs| && pairs[i].key == k
    requires forall i :: 0 <= i < |pairs| ==> pairs[i].key in m && m[pairs[i].key] == pairs[i].value
    requires forall i :: 0 <= i < |pairs| ==> pairs[i].key in d && d[pairs[i].key] == pairs[i].value
    ensures m == d
  {
    forall k
      ensures k in m <==> k in d
      ensures k in m && k in d ==> m[k] == d[k]
    {
      if k in m {
        var i :| 0 <= i < |pairs| && pairs[i].key == k;
      }
    }
  }

  // Every key of the pairs is one of the fields, and the other way round.
  lemma SameKeys(fields: seq<Field>, sorted: seq<Field>, pairs: seq<Pair>)
    requires |pairs| == |sorted| && (forall i :: 0 <= i < |pairs| ==> pairs[i].key == sorted[i].key)
    requires forall f :: f in sorted <==> f in fields
    ensures forall k :: k in Keys(fields) <==> exists i :: 0 <= i < |pairs| && pairs[i].key == k
  {
    forall k | k in Keys(fields)
      ensures exists i :: 0 <= i < |pairs| && pairs[i].key == k
    {
      var j :| 0 <= j < |fields| && Keys(fields)[j] == k;
      assert fields[j] in sorted;
      var i :| 0 <= i < |sorted| && sorted[i] == fields[j];
      assert pairs[i].key == k;
    }
    forall i | 0 <= i < |pairs|
      ensures pairs[i].key in Keys(fields)
    {
      assert sorted[i] in fields;
      var j :| 0 <= j < |fields| && fields[j] == sorted[i];
      assert Keys(fields)[j] == pairs[i].key;
    }
  }

  // Each pair has the value of the field with its key.
  lemma SameValues(fields: seq<Field>, sorted: seq<Field>, pairs: seq<Pair>)
    requires pairs == PairsOf(sorted) && (forall f :: f in sorted <==> f in fields)
    requires forall i :: 0 <= i < |fields| ==> fields[i].key in DenoteFields(fields) && DenoteFields(fields)[fields[i].key] == Denote(fields[i].value)
    ensures forall i :: 0 <= i < |pairs| ==> pairs[i].key in DenoteFields(fields) && DenoteFields(fields)[pairs[i].key] == pairs[i].value
  {
    forall i | 0 <= i < |pairs|
      ensures pairs[i].key in DenoteFields(fields) && DenoteFields(fields)[pairs[i].key] == pairs[i].value
    {
      assert sorted[i] in fields;
    }
  }

  // ---------------------------------------------------------------- the order of keys, and the characters escaped

  // a stands before b: it is a proper prefix, or has the smaller unit where they first differ.
  ghost predicate Precedes(a: JsString, b: JsString) {
    || (|a| < |b| && a == b[..|a|])
    || exists k :: 0 <= k < |a| && k < |b| && a[..k] == b[..k] && a[k] < b[k]
  }

  lemma {:induction false} LeExactly(a: JsString, b: JsString)
    ensures StringLe(a, b) <==> a == b || Precedes(a, b)
  {
    if a != [] && b != [] && a[0] == b[0] {
      LeExactly(a[1..], b[1..]);
      PrecedesBehind(a, b);
      assert a == [a[0]] + a[1..] && b == [b[0]] + b[1..];
    } else if a != [] && b != [] {
      FirstDiffers(a, b);
    } else {
      assert a == [] && b != [] ==> a == b[..0];
    }
  }

  lemma FirstDiffers(a: JsString, b: JsString)
    requires a != [] && b != [] && a[0] != b[0]
    ensures Precedes(a, b) <==> a[0] < b[0]
  {
    assert |a| < |b| ==> b[..|a|][0] == b[0];
    assert a[..0] == b[..0];
    forall k | 0 <= k < |a| && k < |b|
      ensures a[..k] == b[..k] ==> k == 0
    {
      assert k > 0 ==> a[..k][0] == a[0] && b[..k][0] == b[0];
    }
  }

  lemma PrecedesBehind(a: JsString, b: JsString)
    requires a != [] && b != [] && a[0] == b[0]
    ensures Precedes(a, b) <==> Precedes(a[1..], b[1..])
  {
    var x, y := a[1..], b[1..];
    if |a| < |b| {
      assert a == [a[0]] + x && b[..|a|] == [b[0]] + y[..|x|];
    }
    forall k | 0 <= k < |x| && k < |y| && x[..k] == y[..k] && x[k] < y[k]
      ensures Precedes(a, b)
    {
      assert a[..k + 1] == [a[0]] + x[..k] && b[..k + 1] == [b[0]] + y[..k];
      assert a[k + 1] < b[k + 1];
    }
    forall k | 0 <= k < |a| && k < |b| && a[..k] == b[..k] && a[k] < b[k]
      ensures Precedes(x, y)
    {
      assert k > 0;
      assert x[..k - 1] == a[..k][1..] && y[..k - 1] == b[..k][1..];
      assert x[k - 1] < y[k - 1];
    }
  }

  // The keys of an object are printed in the order of their code units.
  lemma KeysAscend(fields: seq<Field>, i: nat, j: nat)
    requires WellFormed(JObject(fields)) && i < j < |SortedFields(fields)|
    ensures Precedes(SortedFields(fields)[i].key, SortedFields(fields)[j].key)
  {
    var keys := Keys(SortedFields(fields));
    SortedKeys(fields);
    assert StringLe(keys[i], keys[j]) && keys[i] != keys[j];
    LeExactly(keys[i], keys[j]);
  }

  // Control characters, the quotation mark, the backslash and lone surrogates are escaped, and nothing else is.
  lemma EscapedExactly(c: CodeUnit)
    ensures QuoteUnit(c) == [c] <==> c >= 0x20 && c != 0x22 && c != 0x5C && !(0xD800 <= c <= 0xDFFF)
    ensures QuoteUnit(c) != [c] ==>
      QuoteUnit(c) == if c in [8, 9, 10, 12, 13, 0x22, 0x5C] then Units("\\")+ [ShortEscape(c)] else UnicodeEscape(c)
    ensures UnicodeEscape(c)[..2] == Units("\\u") && |UnicodeEscape(c)| == 6
  {
    assert Units("\\") == [BACKSLASH] && Units("\\u") == [BACKSLASH, LOWER_U];
  }

  function ShortEscape(c: CodeUnit): CodeUnit {
    if c == 8 then 'b' as int else if c == 9 then 't' as int else if c == 10 then 'n' as int
    else if c == 12 then 'f' as int else if c == 13 then 'r' as int else c
  }
}
