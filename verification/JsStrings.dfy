// JavaScript strings as sequences of UTF-16 code units, and the order Array.prototype.sort gives them.
module JsStrings {
  import opened Sequences
  import opened Sorting

  type CodeUnit = c: int | 0 <= c < 0x10000
  type JsString = seq<CodeUnit>

  // a <= b in code unit order
  predicate StringLe(a: JsString, b: JsString) {
    if a == [] then true
    else if b == [] then false
    else if a[0] != b[0] then a[0] < b[0]
    else StringLe(a[1..], b[1..])
  }

  lemma {:induction false} StringLeTotal(a: JsString, b: JsString)
    ensures StringLe(a, b) || StringLe(b, a)
    ensures StringLe(a, b) && StringLe(b, a) ==> a == b
  {
    if a != [] && b != [] && a[0] == b[0] {
      StringLeTotal(a[1..], b[1..]);
      assert a == [a[0]] + a[1..] && b == [b[0]] + b[1..];
    }
  }

  lemma {:induction false} StringLeTransitive(a: JsString, b: JsString, c: JsString)
    requires StringLe(a, b) && StringLe(b, c)
    ensures StringLe(a, c)
  {
    if a != [] && a[0] == b[0] == c[0] {
      StringLeTransitive(a[1..], b[1..], c[1..]);
    }
  }

  lemma StringOrder()
    ensures TotalPreorder(StringLe)
    ensures forall a, b :: StringLe(a, b) && StringLe(b, a) ==> a == b
  {
    forall a, b
      ensures StringLe(a, b) || StringLe(b, a)
      ensures StringLe(a, b) && StringLe(b, a) ==> a == b
    {
      StringLeTotal(a, b);
    }
    forall a, b, c | StringLe(a, b) && StringLe(b, c)
      ensures StringLe(a, c)
    {
      StringLeTransitive(a, b, c);
    }
  }

  function SortStrings(s: seq<JsString>): seq<JsString> {
    Sort(s, StringLe)
  }

  // Two lists sort alike exactly when they hold the same strings equally often.
  lemma SortedAlike(a: seq<JsString>, b: seq<JsString>)
    ensures SortStrings(a) == SortStrings(b) <==> multiset(a) == multiset(b)
  {
    if multiset(a) == multiset(b) {
      StringOrder();
      SortSorted(a, StringLe);
      SortSorted(b, StringLe);
      SortedUnique(SortStrings(a), SortStrings(b), StringLe);
    }
  }
}
