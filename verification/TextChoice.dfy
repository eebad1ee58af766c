// For which licences a standard text is chosen.
module TextChoice {
  import opened Sequences
  import opened Sorting
  import opened Spdx
  import opened LicenseText
  import opened LicenseRows

  // ---------------------------------------------------------------- the words

  // Words are parted by parentheses and white space.
  lemma SeparatesExactly(c: char)
    ensures Separates(c) <==> c == '(' || c == ')' || c as int in {9, 10, 11, 12, 13, 32, 0xA0, 0xFEFF}
  {
  }

  // A text without separators is one word, and a separator parts the words before it from those behind it.
  lemma {:induction false} WordAlone(w: string)
    requires w != "" && forall i :: 0 <= i < |w| ==> !Separates(w[i])
    ensures Words(w) == [w]
  {
    WholeWord(w);
    assert w[..|w|] == w && w[|w|..] == "";
  }

  lemma {:induction false} WholeWord(w: string)
    requires forall i :: 0 <= i < |w| ==> !Separates(w[i])
    ensures WordLength(w) == |w|
  {
    if w != "" {
      WholeWord(w[1..]);
    }
  }

  lemma {:induction false} WordsPart(a: string, c: char, b: string)
    requires Separates(c)
    ensures Words(a + ([c] + b)) == Words(a) + Words(b)
  {
    var s := a + ([c] + b);
    if a == "" {
      assert s == [c] + b && s[1..] == b;
    } else {
      var n := WordLength(a);
      WordEndsHere(a, c, b);
      if n == 0 {
        assert s[1..] == a[1..] + ([c] + b);
        WordsPart(a[1..], c, b);
      } else {
        assert s[..n] == a[..n] && s[n..] == a[n..] + ([c] + b);
        WordsPart(a[n..], c, b);
        assert [a[..n]] + (Words(a[n..]) + Words(b)) == ([a[..n]] + Words(a[n..])) + Words(b);
      }
    }
  }

  lemma {:induction false} WordEndsHere(a: string, c: char, b: string)
    requires Separates(c)
    ensures WordLength(a + ([c] + b)) == WordLength(a)
  {
    var s := a + ([c] + b);
    if a == "" {
      assert s[0] == c;
    } else {
      assert s[0] == a[0] && s[1..] == a[1..] + ([c] + b);
      WordEndsHere(a[1..], c, b);
    }
  }

  // ---------------------------------------------------------------- when a choice is made

  predicate Names(word: string) { word != "AND" && word != "OR" }

  // No exception, and for an AND every identifier, otherwise some identifier, has a text.
  predicate TextsAtHand(expression: string, available: set<string>) {
    var words := Words(expression);
    && "WITH" !in words
    && if "AND" in words then forall w :: w in words && Names(w) ==> w in available
       else exists w :: w in words && Names(w) && w in available
  }

  lemma ChoiceMadeExactly(expression: string, available: set<string>)
    ensures StandardTextChoice(expression, available).Some? <==> TextsAtHand(expression, available)
  {
    var words := Words(expression);
    var ids := Filter(NotOperator(), words);
    assert forall w :: w in ids <==> w in words && Names(w);
    var offered := Filter(InSet(available), ids);
    SortMembers(offered, ByPreference());
    var sorted := Sort(offered, ByPreference());
    assert sorted != [] ==> sorted[0] in sorted && sorted[0] in ids && sorted[0] in available;
    assert forall w :: w in words && Names(w) && w in available ==> w in offered && w in sorted;
  }

  // With an AND all identifiers are chosen, each once, in the order in which the licence first names them.
  lemma AllTextsChosen(expression: string, available: set<string>)
    requires "AND" in Words(expression) && TextsAtHand(expression, available)
    ensures StandardTextChoice(expression, available).Some?
    ensures var words, chosen := Words(expression), StandardTextChoice(expression, available).value;
            && Distinct(chosen)
            && (forall w :: w in chosen <==> w in words && Names(w))
            && (forall i, j :: 0 <= i < j < |chosen| ==> IndexOf(words, chosen[i]) < IndexOf(words, chosen[j]))
  {
    ChoiceMadeExactly(expression, available);
    var words := Words(expression);
    var ids := Filter(NotOperator(), words);
    FirstSeenDistinct(ids);
    FirstSeenInOrder(ids);
    var chosen := FirstSeen(ids);
    forall i, j | 0 <= i < j < |chosen|
      ensures IndexOf(words, chosen[i]) < IndexOf(words, chosen[j])
    {
      assert chosen[i] in chosen && chosen[j] in chosen;
      FilterKeepsOrder(NotOperator(), words, chosen[i], chosen[j]);
    }
  }

  // Without one, a single available identifier is chosen: of the smallest preference index, and of those with that
  // index the one the licence names first.
  lemma OneTextChosen(expression: string, available: set<string>)
    requires "AND" !in Words(expression) && TextsAtHand(expression, available)
    ensures StandardTextChoice(expression, available).Some? && |StandardTextChoice(expression, available).value| == 1
    ensures var words, w := Words(expression), StandardTextChoice(expression, available).value[0];
            && w in words && Names(w) && w in available
            && forall x :: x in words && Names(x) && x in available && x != w ==>
                 || IndexOf(PREFERENCE, w) < IndexOf(PREFERENCE, x)
                 || (IndexOf(PREFERENCE, w) == IndexOf(PREFERENCE, x) && IndexOf(words, w) < IndexOf(words, x))
  {
    ChoiceMadeExactly(expression, available);
    var words := Words(expression);
    var ids := Filter(NotOperator(), words);
    var offered := Filter(InSet(available), ids);
    SortMembers(offered, ByPreference());
    var w := Sort(offered, ByPreference())[0];
    assert w in Sort(offered, ByPreference());
    assert w in offered && w in ids;
    SortHead(offered, ByPreference());
    assert FirstSmallest(offered, ByPreference(), w);
    forall x | x in words && Names(x) && x in available && x != w
      ensures IndexOf(PREFERENCE, w) < IndexOf(PREFERENCE, x)
           || (IndexOf(PREFERENCE, w) == IndexOf(PREFERENCE, x) && IndexOf(words, w) < IndexOf(words, x))
    {
      assert x in ids && x in offered;
      if ByPreference()(x, w) {
        FilterKeepsOrder(InSet(available), ids, w, x);
        FilterKeepsOrder(NotOperator(), words, w, x);
      }
    }
  }

  // The preferred licences, most preferred first, and what an index in a list is.
  lemma PreferenceTable()
    ensures PREFERENCE == ["MIT", "Apache-2.0", "BSD-3-Clause", "BSD-2-Clause"] + ["ISC", "0BSD", "Zlib", "BlueOak-1.0.0"]
                          + ["Unlicense", "CC0-1.0", "CC-BY-3.0", "MPL-2.0"]
  {
  }

  lemma {:induction false} IndexIsFirst(list: seq<string>, i: nat)
    requires i < |list| && forall j :: 0 <= j < i ==> list[j] != list[i]
    ensures IndexOf(list, list[i]) == i
  {
    if i > 0 {
      IndexIsFirst(list[1..], i - 1);
    }
  }

  // ---------------------------------------------------------------- order

  lemma {:induction false} FirstSeenInOrder(s: seq<string>)
    ensures forall i, j :: 0 <= i < j < |FirstSeen(s)| ==> IndexOf(s, FirstSeen(s)[i]) < IndexOf(s, FirstSeen(s)[j])
  {
    if s != [] {
      var front, last := s[..|s| - 1], s[|s| - 1];
      assert s == front + [last];
      FirstSeenInOrder(front);
      forall i, j | 0 <= i < j < |FirstSeen(s)|
        ensures IndexOf(s, FirstSeen(s)[i]) < IndexOf(s, FirstSeen(s)[j])
      {
        assert FirstSeen(front)[i] in FirstSeen(front);
        IndexBefore(front, last, FirstSeen(s)[i]);
        if j < |FirstSeen(front)| {
          assert FirstSeen(front)[j] in FirstSeen(front);
        }
        IndexBefore(front, last, FirstSeen(s)[j]);
      }
    }
  }

  // Appending an element changes no index, and gives a new element the last one.
  lemma {:induction false} IndexBefore(front: seq<string>, last: string, x: string)
    ensures x in front ==> IndexOf(front + [last], x) == IndexOf(front, x) < |front|
    ensures x !in front && x == last ==> IndexOf(front + [last], x) == |front|
  {
    if front != [] {
      assert (front + [last])[1..] == front[1..] + [last];
      IndexBefore(front[1..], last, x);
    }
  }

  lemma {:induction false} FilterKeepsOrder(keep: string -> bool, s: seq<string>, x: string, y: string)
    requires x in s && y in s && keep(x) && keep(y)
    ensures IndexOf(Filter(keep, s), x) < IndexOf(Filter(keep, s), y) <==> IndexOf(s, x) < IndexOf(s, y)
  {
    var kept := Filter(keep, s);
    if x != y && s[0] != x && s[0] != y {
      FilterKeepsOrder(keep, s[1..], x, y);
      assert keep(s[0]) ==> kept[1..] == Filter(keep, s[1..]);
    } else if x != y {
      assert kept[0] == s[0] && kept[1..] == Filter(keep, s[1..]);
    }
  }

  lemma InsertHead(x: string, s: seq<string>, le: (string, string) -> bool)
    ensures Insert(x, s, le) != [] && Insert(x, s, le)[0] == if s == [] || le(x, s[0]) then x else s[0]
  {
  }

  // h is a smallest element, and the first of those.
  ghost predicate FirstSmallest(s: seq<string>, le: (string, string) -> bool, h: string) {
    && h in s && (forall x :: x in s ==> le(h, x))
    && (forall x :: x in s && x != h && le(x, h) ==> IndexOf(s, h) < IndexOf(s, x))
  }

  lemma {:induction false} SortHead(s: seq<string>, le: (string, string) -> bool)
    requires TotalPreorder(le) && s != []
    ensures Sort(s, le) != [] && FirstSmallest(s, le, Sort(s, le)[0])
  {
    var x, rest := s[0], s[1..];
    assert s == [x] + rest;
    InsertHead(x, Sort(rest, le), le);
    if rest != [] {
      SortHead(rest, le);
      SmallestOfBoth(x, rest, le, Sort(rest, le)[0]);
    }
  }

  lemma SmallestOfBoth(x: string, rest: seq<string>, le: (string, string) -> bool, h: string)
    requires TotalPreorder(le) && FirstSmallest(rest, le, h)
    ensures FirstSmallest([x] + rest, le, if le(x, h) then x else h)
  {
    var s := [x] + rest;
    assert s[1..] == rest && s[0] == x;
    assert forall y :: y in s <==> y == x || y in rest;
    assert forall y :: y in rest ==> IndexOf(rest, y) >= 0;
    assert forall y :: IndexOf(s, y) == if y == x then 0 else if y in rest then IndexOf(rest, y) + 1 else -1;
    assert forall y :: y in rest ==> le(h, y);
  }

  // ---------------------------------------------------------------- which rows are filled

  // A row without a notice that is distributed, was searched and has a licence with texts at hand.
  predicate Fillable(row: RowData, available: set<string>) {
    && row.ecosystem != Workspace && !row.notDistributed && row.license != NOASSERTION
    && (row.noticeFiles == None || row.noticeFiles == Some([])) && row.noticeSearch.Some?
    && TextsAtHand(row.license, available)
  }

  // Such rows get the texts of their choice, and all others stay as they are.
  lemma FilledExactly(row: RowData, available: set<string>)
    ensures var filled := Filled(row, ChoiceWith(available));
            if Fillable(row, available) then
              && StandardTextChoice(row.license, available).Some?
              && filled == row.(noticeFiles := filled.noticeFiles, standardTextBasis := true) && filled.noticeFiles.Some?
              && var ids, files := StandardTextChoice(row.license, available).value, filled.noticeFiles.value;
                 |files| == |ids| && forall i :: 0 <= i < |ids| ==> files[i] == "spdx-standard-text:" + ids[i]
            else filled == row
    ensures TextsFor(row, ChoiceWith(available)) ==
            if Fillable(row, available) then Elements(StandardTextChoice(row.license, available).value) else {}
  {
    ChoiceMadeExactly(row.license, available);
  }

  // The texts used by the pass are those of the rows it fills.
  lemma {:induction false} TextsUsedExactly(rows: seq<RowData>, choose: Choose, id: string)
    ensures id in AllTexts(rows, choose) <==> exists i :: 0 <= i < |rows| && id in TextsFor(rows[i], choose)
  {
    if rows != [] {
      var last := |rows| - 1;
      TextsUsedExactly(rows[..last], choose, id);
      assert forall i :: 0 <= i < last ==> rows[..last][i] == rows[i];
    }
  }

  // ---------------------------------------------------------------- the gate

  ghost function Positions(rows: seq<RowData>, test: RowData -> bool): set<nat> {
    set i: nat | i < |rows| && test(rows[i])
  }

  lemma {:induction false} KeptIsCount(rows: seq<RowData>, test: RowData -> bool)
    ensures |Filter(test, rows)| == |Positions(rows, test)|
  {
    if rows == [] {
      assert Positions(rows, test) == {};
    } else {
      var front, last := rows[..|rows| - 1], rows[|rows| - 1];
      KeptIsCount(front, test);
      FilterAppend(test, front, [last]);
      assert rows == front + [last] && [last][1..] == [];
      NextPosition(front, last, test);
    }
  }

  lemma NextPosition(front: seq<RowData>, last: RowData, test: RowData -> bool)
    ensures |Positions(front + [last], test)| == |Positions(front, test)| + if test(last) then 1 else 0
  {
    var all := front + [last];
    assert forall i :: 0 <= i < |front| ==> all[i] == front[i];
    assert Positions(all, test) == Positions(front, test) + (if test(last) then {|front|} else {});
    assert |front| !in Positions(front, test);
  }

  lemma {:induction false} FilterFilter(keep: RowData -> bool, also: RowData -> bool, both: RowData -> bool, s: seq<RowData>)
    requires forall x :: both(x) <==> keep(x) && also(x)
    ensures Filter(also, Filter(keep, s)) == Filter(both, s)
  {
    if s != [] {
      FilterFilter(keep, also, both, s[1..]);
      assert keep(s[0]) ==> ([s[0]] + Filter(keep, s[1..]))[1..] == Filter(keep, s[1..]);
    }
  }

  lemma {:induction false} KeptOrNot(keep: RowData -> bool, drop: RowData -> bool, s: seq<RowData>)
    requires forall x :: drop(x) <==> !keep(x)
    ensures |Filter(keep, s)| + |Filter(drop, s)| == |s|
  {
    if s != [] {
      KeptOrNot(keep, drop, s[1..]);
    }
  }

  // A distributed row without a licence, and one without the notice it needs.
  predicate Unlicensed(row: RowData) {
    !row.notDistributed && row.license == NOASSERTION
  }

  predicate Unnoticed(row: RowData) {
    !row.notDistributed && row.ecosystem != Workspace && (row.noticeFiles == None || row.noticeFiles == Some([]))
  }

  predicate Undistributed(row: RowData) { row.notDistributed }

  // The gate counts such rows and blocks the release exactly when there is one.
  lemma GateExactly(rows: seq<RowData>)
    ensures var gate := LicenseGate(rows);
            && gate.unresolvedCount == |Positions(rows, Unlicensed)| && gate.missingNoticeCount == |Positions(rows, Unnoticed)|
            && gate.notDistributedCount == |Positions(rows, Undistributed)| && gate.complete == !gate.releaseBlocked
            && (gate.releaseBlocked <==> exists row :: row in rows && (Unlicensed(row) || Unnoticed(row)))
  {
    FilterFilter(Gated, Unresolved, Unlicensed, rows);
    FilterFilter(Gated, LacksNotice, Unnoticed, rows);
    KeptOrNot(Gated, Undistributed, rows);
    KeptIsCount(rows, Unlicensed);
    KeptIsCount(rows, Unnoticed);
    KeptIsCount(rows, Undistributed);
    NoneKept(Unlicensed, rows);
    NoneKept(Unnoticed, rows);
  }

  lemma NoneKept(test: RowData -> bool, rows: seq<RowData>)
    ensures |Filter(test, rows)| == 0 <==> forall row :: row in rows ==> !test(row)
  {
    var kept := Filter(test, rows);
    assert kept != [] ==> kept[0] in kept;
  }
}
