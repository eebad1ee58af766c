// Array.prototype.sort: the stable sort of a sequence under a comparator that is a total preorder. Its
// result is a sorted permutation, and the only one when the comparator tells the elements apart, which is
// how results that must not depend on the order of their inputs are derived.
module Sorting {
  import opened Sequences

  // le(x, y) reads "the comparator does not put y before x".
  ghost predicate TotalPreorder<T(!new)>(le: (T, T) -> bool) {
    && (forall x, y :: le(x, y) || le(y, x))
    && (forall x, y, z :: le(x, y) && le(y, z) ==> le(x, z))
  }

  ghost predicate Sorted<T>(s: seq<T>, le: (T, T) -> bool) {
    forall i, j :: 0 <= i < j < |s| ==> le(s[i], s[j])
  }

  function Insert<T>(x: T, s: seq<T>, le: (T, T) -> bool): (r: seq<T>)
    ensures multiset(r) == multiset(s) + multiset{x}
  {
    if s == [] then [x]
    else if le(x, s[0]) then [x] + s
    else
      assert s == [s[0]] + s[1..];
      [s[0]] + Insert(x, s[1..], le)
  }

  function Sort<T>(s: seq<T>, le: (T, T) -> bool): (r: seq<T>)
    ensures multiset(r) == multiset(s)
  {
    if s == [] then []
    else
      assert s == [s[0]] + s[1..];
      Insert(s[0], Sort(s[1..], le), le)
  }

  lemma {:induction false} InsertSorted<T(!new)>(x: T, s: seq<T>, le: (T, T) -> bool)
    requires TotalPreorder(le) && Sorted(s, le)
    ensures Sorted(Insert(x, s, le), le)
  {
    if s == [] {
    } else if le(x, s[0]) {
    } else {
      var rest := Insert(x, s[1..], le);
      InsertSorted(x, s[1..], le);
      forall y | y in rest
        ensures le(s[0], y)
      {
        assert y in multiset(rest);
        assert y in s[1..] || y == x;
      }
    }
  }

  lemma {:induction false} SortSorted<T(!new)>(s: seq<T>, le: (T, T) -> bool)
    requires TotalPreorder(le)
    ensures Sorted(Sort(s, le), le)
  {
    if s != [] {
      SortSorted(s[1..], le);
      InsertSorted(s[0], Sort(s[1..], le), le);
    }
  }

  lemma SortMembers<T(!new)>(s: seq<T>, le: (T, T) -> bool)
    ensures |Sort(s, le)| == |s|
    ensures forall x :: x in Sort(s, le) <==> x in s
  {
    assert |multiset(Sort(s, le))| == |multiset(s)|;
    forall x
      ensures x in Sort(s, le) <==> x in s
    {
      assert x in Sort(s, le) <==> x in multiset(Sort(s, le));
      assert x in s <==> x in multiset(s);
    }
  }

  function Alike<T>(le: (T, T) -> bool, x: T): T -> bool {
    y => le(x, y) && le(y, x)
  }

  lemma {:induction false} InsertStable<T(!new)>(x: T, s: seq<T>, le: (T, T) -> bool, p: T)
    requires TotalPreorder(le)
    ensures Filter(Alike(le, p), Insert(x, s, le)) == Filter(Alike(le, p), [x] + s)
  {
    assert ([x] + s)[1..] == s;
    if s == [] || le(x, s[0]) {
    } else {
      var rest := Insert(x, s[1..], le);
      InsertStable(x, s[1..], le, p);
      assert ([x] + s[1..])[1..] == s[1..];
      assert Insert(x, s, le)[1..] == rest;
      assert !(Alike(le, p)(x) && Alike(le, p)(s[0]));
    }
  }

  // Elements that the comparator does not tell apart stay in their order.
  lemma {:induction false} SortStable<T(!new)>(s: seq<T>, le: (T, T) -> bool, p: T)
    requires TotalPreorder(le)
    ensures Filter(Alike(le, p), Sort(s, le)) == Filter(Alike(le, p), s)
  {
    if s != [] {
      SortStable(s[1..], le, p);
      InsertStable(s[0], Sort(s[1..], le), le, p);
      var t := [s[0]] + Sort(s[1..], le);
      assert t[1..] == Sort(s[1..], le);
    }
  }

  // A permutation of distinct elements is distinct.
  lemma {:induction false} PermutationDistinct<T>(a: seq<T>, b: seq<T>)
    requires multiset(a) == multiset(b) && Distinct(a)
    ensures Distinct(b)
  {
    forall i, j | 0 <= i < j < |b|
      ensures b[i] != b[j]
    {
      if b[i] == b[j] {
        assert b == b[..i] + [b[i]] + b[i + 1..j] + [b[j]] + b[j + 1..];
        assert multiset(b)[b[i]] >= 2;
        OneOccurrence(a, b[i]);
      }
    }
  }

  lemma {:induction false} OneOccurrence<T>(s: seq<T>, x: T)
    requires Distinct(s)
    ensures multiset(s)[x] <= 1
  {
    if s != [] {
      assert s == [s[0]] + s[1..];
      OneOccurrence(s[1..], x);
      if s[0] == x {
        assert x !in s[1..];
      }
    }
  }

  // Members that the order cannot tell apart are equal.
  ghost predicate TellsApart<T>(s: seq<T>, le: (T, T) -> bool) {
    forall i, j :: 0 <= i < |s| && 0 <= j < |s| && le(s[i], s[j]) && le(s[j], s[i]) ==> s[i] == s[j]
  }

  lemma SameHead<T(!new)>(a: seq<T>, b: seq<T>, le: (T, T) -> bool)
    requires TotalPreorder(le) && TellsApart(a, le) && a != []
    requires Sorted(a, le) && Sorted(b, le) && multiset(a) == multiset(b)
    ensures b != [] && a[0] == b[0]
  {
    assert a[0] in multiset(b);
    assert b[0] in multiset(a);
    assert b[0] in a && a[0] in b;
    assert le(a[0], b[0]) && le(b[0], a[0]);
  }

  lemma TailCounts<T>(s: seq<T>)
    requires s != []
    ensures multiset(s[1..]) == multiset(s) - multiset{s[0]}
  {
    assert s == [s[0]] + s[1..];
  }

  // Then a sequence has only one sorted arrangement.
  lemma {:induction false} SortedUnique<T(!new)>(a: seq<T>, b: seq<T>, le: (T, T) -> bool)
    requires TotalPreorder(le) && TellsApart(a, le)
    requires Sorted(a, le) && Sorted(b, le) && multiset(a) == multiset(b)
    ensures a == b
  {
    if a == [] {
      assert |multiset(b)| == |b|;
    } else {
      SameHead(a, b, le);
      TailCounts(a);
      TailCounts(b);
      SortedUnique(a[1..], b[1..], le);
      assert a == [a[0]] + a[1..] && b == [b[0]] + b[1..];
    }
  }

  lemma {:induction false} DistinctSameElements<T>(a: seq<T>, b: seq<T>)
    requires Distinct(a) && Distinct(b) && Elements(a) == Elements(b)
    ensures multiset(a) == multiset(b)
  {
    forall x
      ensures multiset(a)[x] == multiset(b)[x]
    {
      OneOccurrence(a, x);
      OneOccurrence(b, x);
      assert x in Elements(a) <==> x in multiset(a);
      assert x in Elements(b) <==> x in multiset(b);
    }
  }

  // ---------------------------------------------------------------- order statistics

  function NotOver<T>(le: (T, T) -> bool, x: T): T -> bool {
    y => le(y, x)
  }

  function StrictlyUnder<T>(le: (T, T) -> bool, x: T): T -> bool {
    y => le(y, x) && !le(x, y)
  }

  // x is an element that may stand behind `rank` others when s is sorted.
  ghost predicate OfRank<T(!new)>(s: seq<T>, x: T, le: (T, T) -> bool, rank: nat) {
    x in s && |Filter(StrictlyUnder(le, x), s)| <= rank < |Filter(NotOver(le, x), s)|
  }

  lemma PlaceIsRank<T(!new)>(s: seq<T>, le: (T, T) -> bool, index: nat)
    requires TotalPreorder(le) && index < |s|
    ensures |Sort(s, le)| == |s| && OfRank(s, Sort(s, le)[index], le, index)
  {
    var sorted := Sort(s, le);
    SortMembers(s, le);
    SortSorted(s, le);
    var x := sorted[index];
    assert x in sorted;
    FilterPermutation(StrictlyUnder(le, x), s, sorted);
    FilterPermutation(NotOver(le, x), s, sorted);
    FewBelow(sorted, le, index);
    EnoughUpTo(sorted, le, index);
  }

  lemma FewBelow<T(!new)>(sorted: seq<T>, le: (T, T) -> bool, index: nat)
    requires index < |sorted| && Sorted(sorted, le)
    ensures |Filter(StrictlyUnder(le, sorted[index]), sorted)| <= index
  {
    var keep := StrictlyUnder(le, sorted[index]);
    forall j | 0 <= j < |sorted[index..]|
      ensures !keep(sorted[index..][j])
    {
      assert j > 0 ==> le(sorted[index], sorted[index + j]);
    }
    FrontAndBack(keep, sorted, index);
    NonePass(keep, sorted[index..]);
    FilterShorter(keep, sorted[..index]);
  }

  lemma EnoughUpTo<T(!new)>(sorted: seq<T>, le: (T, T) -> bool, index: nat)
    requires TotalPreorder(le) && index < |sorted| && Sorted(sorted, le)
    ensures index < |Filter(NotOver(le, sorted[index]), sorted)|
  {
    var keep := NotOver(le, sorted[index]);
    var front := sorted[..index + 1];
    forall j | 0 <= j < |front|
      ensures keep(front[j])
    {
      assert front[j] == sorted[j] && (j < index ==> le(sorted[j], sorted[index]));
    }
    FrontAndBack(keep, sorted, index + 1);
    AllPass(keep, front);
  }

  lemma FrontAndBack<T(!new)>(keep: T -> bool, s: seq<T>, n: nat)
    requires n <= |s|
    ensures |Filter(keep, s)| == |Filter(keep, s[..n])| + |Filter(keep, s[n..])|
  {
    assert s == s[..n] + s[n..];
    FilterAppend(keep, s[..n], s[n..]);
  }

  lemma {:induction false} FilterShorter<T(!new)>(keep: T -> bool, s: seq<T>)
    ensures |Filter(keep, s)| <= |s|
  {
    if s != [] {
      FilterShorter(keep, s[1..]);
    }
  }

  lemma {:induction false} NonePass<T(!new)>(keep: T -> bool, s: seq<T>)
    requires forall i :: 0 <= i < |s| ==> !keep(s[i])
    ensures Filter(keep, s) == []
  {
    if s != [] {
      NonePass(keep, s[1..]);
    }
  }

  lemma {:induction false} AllPass<T(!new)>(keep: T -> bool, s: seq<T>)
    requires forall i :: 0 <= i < |s| ==> keep(s[i])
    ensures Filter(keep, s) == s
  {
    if s != [] {
      AllPass(keep, s[1..]);
    }
  }

  lemma {:induction false} FilterPermutation<T(!new)>(keep: T -> bool, a: seq<T>, b: seq<T>)
    requires multiset(a) == multiset(b)
    ensures |Filter(keep, a)| == |Filter(keep, b)|
  {
    if a == [] {
      assert |multiset(b)| == |b|;
    } else {
      assert a == [a[0]] + a[1..];
      assert a[0] in multiset(b);
      var i :| 0 <= i < |b| && b[i] == a[0];
      var front, x, back := b[..i], b[i], b[i + 1..];
      assert b == front + [x] + back;
      WithoutOne(a, front, back);
      FilterPermutation(keep, a[1..], front + back);
      FilterAround(keep, front, x, back);
    }
  }

  lemma WithoutOne<T>(a: seq<T>, front: seq<T>, back: seq<T>)
    requires a != [] && multiset(a) == multiset(front + [a[0]] + back)
    ensures multiset(a[1..]) == multiset(front + back)
  {
    assert a == [a[0]] + a[1..];
    assert multiset(a[1..]) == multiset(a) - multiset{a[0]};
    assert multiset(front + [a[0]] + back) == multiset(front) + multiset{a[0]} + multiset(back);
  }

  lemma FilterAround<T(!new)>(keep: T -> bool, front: seq<T>, x: T, back: seq<T>)
    ensures |Filter(keep, front + [x] + back)| == |Filter(keep, front + back)| + if keep(x) then 1 else 0
  {
    FilterAppend(keep, front + [x], back);
    FilterAppend(keep, front, [x]);
    FilterAppend(keep, front, back);
    assert [x][1..] == [];
  }
}
