// Which sets of texts satisfy a licence under every precedence.
module LicenseReadings {
  // Exactly those that satisfy the strictest reading, in which OR binds tighter than AND.

  import opened Sequences
  import opened Sorting
  import opened Spdx
  import opened LicenseText

  // ---------------------------------------------------------------- the strictest reading

  predicate TermHolds(t: Term, granted: set<string>) {
    match t
    case Paren(inner) => ExprHolds(inner, false, granted)
    case Id(id) => id in granted
    case IdWith(_, _) => false
  }

  // Every run of terms joined by OR has one that holds; `already` says whether an earlier one of the run does.
  predicate ExprHolds(e: Expr, already: bool, granted: set<string>) {
    match e
    case Single(t) => already || TermHolds(t, granted)
    case Chain(t, OpOr, rest) => ExprHolds(rest, already || TermHolds(t, granted), granted)
    case Chain(t, OpAnd, rest) => (already || TermHolds(t, granted)) && ExprHolds(rest, false, granted)
  }

  function Holding(granted: set<string>): Term -> bool {
    (t: Term) => TermHolds(t, granted)
  }

  // The same on the terms and operators of a chain.
  predicate ChainHolds(ts: seq<Term>, ops: seq<Op>, already: bool, holds: Term -> bool)
    requires |ts| == |ops| + 1
  {
    if ops == [] then already || holds(ts[0])
    else if ops[0].OpOr? then ChainHolds(ts[1..], ops[1..], already || holds(ts[0]), holds)
    else (already || holds(ts[0])) && ChainHolds(ts[1..], ops[1..], false, holds)
  }

  lemma {:induction false} ExprIsChain(e: Expr, already: bool, granted: set<string>)
    ensures ExprHolds(e, already, granted) == ChainHolds(Terms(e), Ops(e), already, Holding(granted))
  {
    match e
    case Single(_) =>
    case Chain(t, op, rest) =>
      assert Terms(e)[1..] == Terms(rest) && Ops(e)[1..] == Ops(rest);
      ExprIsChain(rest, op.OpOr? && (already || TermHolds(t, granted)), granted);
  }

  // ---------------------------------------------------------------- it implies every other reading

  // Cutting a chain at an operator.
  lemma {:induction false} CutHolds(ts: seq<Term>, ops: seq<Op>, k: nat, already: bool, holds: Term -> bool)
    requires |ts| == |ops| + 1 && k < |ops| && ChainHolds(ts, ops, already, holds)
    ensures var left := ChainHolds(ts[..k + 1], ops[..k], already, holds);
            var right := ChainHolds(ts[k + 1..], ops[k + 1..], false, holds);
            if ops[k].OpAnd? then left && right else left || right
  {
    if k == 0 {
      assert ts[..1] == [ts[0]] && ops[..0] == [];
    } else {
      var next := ops[0].OpOr? && (already || holds(ts[0]));
      CutHolds(ts[1..], ops[1..], k - 1, next, holds);
      assert ts[1..][..k] == ts[..k + 1][1..] && ops[1..][..k - 1] == ops[..k][1..];
      assert ts[1..][k..] == ts[k + 1..] && ops[1..][k..] == ops[k + 1..];
    }
  }

  lemma {:induction false} HoldsUnderReading(f: Formula, ts: seq<Term>, ops: seq<Op>, granted: set<string>)
    requires |ts| == |ops| + 1 && ReadsChain(f, ts, ops) && ChainHolds(ts, ops, false, Holding(granted))
    ensures Satisfied(f, granted)
    decreases f, if |ts| == 1 then TermSize(ts[0]) else 0, 1
  {
    if |ts| == 1 {
      match ts[0] {
        case Paren(inner) =>
          assert ReadsTerm(f, ts[0]);
          ExprHoldsUnderReading(f, inner, granted);
        case _ =>
      }
    } else {
      var k :| 0 <= k < |ops| && ReadsSplit(f, ts, ops, k);
      CutHolds(ts, ops, k, false, Holding(granted));
      if ChainHolds(ts[..k + 1], ops[..k], false, Holding(granted)) {
        HoldsUnderReading(f.left, ts[..k + 1], ops[..k], granted);
      }
      if ChainHolds(ts[k + 1..], ops[k + 1..], false, Holding(granted)) {
        HoldsUnderReading(f.right, ts[k + 1..], ops[k + 1..], granted);
      }
    }
  }

  lemma {:induction false} ExprHoldsUnderReading(f: Formula, e: Expr, granted: set<string>)
    requires ReadsExpr(f, e) && ExprHolds(e, false, granted)
    ensures Satisfied(f, granted)
    decreases f, ExprSize(e), 2
  {
    ExprIsChain(e, false, granted);
    HoldsUnderReading(f, Terms(e), Ops(e), granted);
  }

  // ---------------------------------------------------------------- it is a reading

  function StrictTerm(t: Term): Formula
    decreases t
  {
    match t
    case Paren(inner) => StrictExpr(None, inner)
    case Id(id) => Leaf(id)
    case IdWith(id, exception) => LeafWith(id, exception)
  }

  // `left` is the part of the current OR run that has been read.
  function StrictExpr(left: Option<Formula>, e: Expr): Formula
    decreases e
  {
    match e
    case Single(t) => Joined(left, StrictTerm(t))
    case Chain(t, OpOr, rest) => StrictExpr(Some(Joined(left, StrictTerm(t))), rest)
    case Chain(t, OpAnd, rest) => And(Joined(left, StrictTerm(t)), StrictExpr(None, rest))
  }

  function Joined(left: Option<Formula>, f: Formula): Formula {
    if left.Some? then Or(left.value, f) else f
  }

  lemma {:induction false} StrictEvaluates(left: Option<Formula>, e: Expr, granted: set<string>)
    ensures Satisfied(StrictExpr(left, e), granted) == ExprHolds(e, left.Some? && Satisfied(left.value, granted), granted)
    decreases e
  {
    match e
    case Single(t) => StrictTermEvaluates(t, granted);
    case Chain(t, op, rest) =>
      StrictTermEvaluates(t, granted);
      StrictEvaluates(if op.OpOr? then Some(Joined(left, StrictTerm(t))) else None, rest, granted);
  }

  lemma {:induction false} StrictTermEvaluates(t: Term, granted: set<string>)
    ensures Satisfied(StrictTerm(t), granted) == TermHolds(t, granted)
    decreases t
  {
    match t
    case Paren(inner) => StrictEvaluates(None, inner, granted);
    case _ =>
  }

  // `left`, if there is one, reads the terms ls joined by los, and the next operator is OR.
  ghost predicate ReadsLeft(left: Option<Formula>, ls: seq<Term>, los: seq<Op>) {
    if left.None? then ls == [] && los == []
    else |los| == |ls| && los != [] && los[|los| - 1].OpOr? && ReadsChain(left.value, ls, los[..|los| - 1])
  }

  lemma JoinedReads(left: Option<Formula>, ls: seq<Term>, los: seq<Op>, t: Term)
    requires ReadsLeft(left, ls, los) && ReadsTerm(StrictTerm(t), t)
    ensures ReadsChain(Joined(left, StrictTerm(t)), ls + [t], los)
  {
    var f, ts := Joined(left, StrictTerm(t)), ls + [t];
    if left.Some? {
      var k := |los| - 1;
      assert ts[..k + 1] == ls && ts[k + 1..] == [t] && los[k + 1..] == [];
      assert ReadsSplit(f, ts, los, k);
    }
  }

  lemma Regroup<T>(a: seq<T>, x: T, b: seq<T>)
    ensures a + [x] + b == a + ([x] + b)
  {
  }

  lemma AndReads(f: Formula, ls: seq<Term>, los: seq<Op>, g: Formula, rs: seq<Term>, ros: seq<Op>)
    requires |ls| == |los| + 1 && |rs| == |ros| + 1 && ReadsChain(f, ls, los) && ReadsChain(g, rs, ros)
    ensures ReadsChain(And(f, g), ls + rs, los + [OpAnd] + ros)
  {
    var ts, ops, k := ls + rs, los + [OpAnd] + ros, |los|;
    assert ts[..k + 1] == ls && ops[..k] == los && ts[k + 1..] == rs && ops[k + 1..] == ros;
    assert ReadsSplit(And(f, g), ts, ops, k);
  }

  lemma {:induction false} StrictReads(left: Option<Formula>, ls: seq<Term>, los: seq<Op>, e: Expr)
    requires ReadsLeft(left, ls, los)
    ensures ReadsChain(StrictExpr(left, e), ls + Terms(e), los + Ops(e))
    decreases e
  {
    match e
    case Single(t) =>
      StrictTermReads(t);
      JoinedReads(left, ls, los, t);
      assert los + [] == los;
    case Chain(t, OpOr, rest) =>
      StrictTermReads(t);
      JoinedReads(left, ls, los, t);
      assert (los + [OpOr])[..|los|] == los;
      StrictReads(Some(Joined(left, StrictTerm(t))), ls + [t], los + [OpOr], rest);
      Regroup(ls, t, Terms(rest));
      Regroup(los, OpOr, Ops(rest));
    case Chain(t, OpAnd, rest) =>
      StrictTermReads(t);
      JoinedReads(left, ls, los, t);
      StrictReads(None, [], [], rest);
      assert [] + Terms(rest) == Terms(rest) && [] + Ops(rest) == Ops(rest);
      AndReads(Joined(left, StrictTerm(t)), ls + [t], los, StrictExpr(None, rest), Terms(rest), Ops(rest));
      Regroup(ls, t, Terms(rest));
      Regroup(los, OpAnd, Ops(rest));
  }

  lemma {:induction false} StrictTermReads(t: Term)
    ensures ReadsTerm(StrictTerm(t), t)
    decreases t
  {
    match t
    case Paren(inner) =>
      StrictReads(None, [], [], inner);
      assert [] + Terms(inner) == Terms(inner) && [] + Ops(inner) == Ops(inner);
    case _ =>
  }

  // The texts of `granted` satisfy the licence under every precedence exactly when each run of terms joined
  // by OR, at every depth, has a term that holds.
  lemma EveryReadingExactly(e: Expr, granted: set<string>)
    ensures (forall f :: ReadsExpr(f, e) ==> Satisfied(f, granted)) <==> ExprHolds(e, false, granted)
  {
    if ExprHolds(e, false, granted) {
      forall f | ReadsExpr(f, e)
        ensures Satisfied(f, granted)
      {
        ExprHoldsUnderReading(f, e, granted);
      }
    } else {
      StrictReads(None, [], [], e);
      assert [] + Terms(e) == Terms(e) && [] + Ops(e) == Ops(e);
      StrictEvaluates(None, e, granted);
      assert ReadsExpr(StrictExpr(None, e), e);
    }
  }

  // With a visible AND every operator stands alone, because a glued word has no standard text.
  lemma VisibleAndSeparates(raw: string, available: set<string>)
    requires PlainNames(available) && StandardTextChoice(raw, available).Some? && "AND" in Words(raw)
    ensures SeparateWords(raw)
  {
    var ids := Filter(NotOperator(), Words(raw));
    forall w | w in Words(raw) && KeywordPrefixed(w)
      ensures Keyword(w)
    {
      assert w in ids || w == "AND" || w == "OR";
    }
  }

  // ---------------------------------------------------------------- when the choice is right

  // The texts chosen, if any are, satisfy the licence under every precedence.
  ghost predicate ChoiceRight(raw: string, available: set<string>, e: Expr) {
    var choice := StandardTextChoice(raw, available);
    choice.Some? ==> forall f :: ReadsExpr(f, e) ==> Satisfied(f, Elements(choice.value))
  }

  // The word tokenizer sees an AND or a WITH, or every word it may offer alone satisfies the licence: it is
  // among the alternatives of each OR run.
  predicate SafeToChoose(raw: string, e: Expr) {
    || "AND" in Words(raw)
    || "WITH" in Words(raw)
    || forall x :: x in Words(raw) && !KeywordPrefixed(x) ==> ExprHolds(e, false, {x})
  }

  lemma VisibleAndRight(raw: string, tables: Tables, available: set<string>, e: Expr)
    requires Accepted(raw, tables) && ReservedFree(tables) && PlainNames(available)
    requires WellFormedExpr(e, tables) && PrintExpr(e) == Tokenize(raw) && "AND" in Words(raw)
    ensures ChoiceRight(raw, available, e)
  {
    if StandardTextChoice(raw, available).Some? {
      VisibleAndSeparates(raw, available);
      SeparateWordsVisible(raw);
      forall f | ReadsExpr(f, e)
        ensures Satisfied(f, Elements(StandardTextChoice(raw, available).value))
      {
        ChosenTextsSatisfy(raw, tables, available, e, f);
      }
    }
  }

  // Without a visible AND or WITH one available word is chosen.
  lemma ChoosesOne(raw: string, available: set<string>)
    requires "AND" !in Words(raw) && "WITH" !in Words(raw) && PlainNames(available)
    ensures var choice := StandardTextChoice(raw, available);
            choice.Some? ==> |choice.value| == 1 && choice.value[0] in Words(raw) && choice.value[0] in available
  {
    var ids := Filter(NotOperator(), Words(raw));
    SortMembers(Filter(InSet(available), ids), ByPreference());
    var offered := Sort(Filter(InSet(available), ids), ByPreference());
    assert offered != [] ==> offered[0] in offered;
  }

  lemma ChoosesTheOnlyOne(raw: string, x: string)
    requires "AND" !in Words(raw) && "WITH" !in Words(raw) && x in Words(raw) && !KeywordPrefixed(x)
    ensures StandardTextChoice(raw, {x}) == Some([x])
  {
    var ids := Filter(NotOperator(), Words(raw));
    var offered := Filter(InSet({x}), ids);
    assert x in ids && x in offered;
    SortMembers(offered, ByPreference());
    var sorted := Sort(offered, ByPreference());
    assert |sorted| > 0 && sorted[0] in sorted;
    assert sorted[0] in offered;
    assert [sorted[0]] == [x];
  }

  lemma SingleTextRight(x: string, e: Expr)
    ensures (forall f :: ReadsExpr(f, e) ==> Satisfied(f, Elements([x]))) <==> ExprHolds(e, false, {x})
  {
    assert Elements([x]) == {x};
    EveryReadingExactly(e, {x});
  }

  lemma OfferedWordsRight(raw: string, available: set<string>, e: Expr)
    requires "AND" !in Words(raw) && "WITH" !in Words(raw) && SafeToChoose(raw, e) && PlainNames(available)
    ensures ChoiceRight(raw, available, e)
  {
    ChoosesOne(raw, available);
    var choice := StandardTextChoice(raw, available);
    if choice.Some? {
      SingleTextRight(choice.value[0], e);
      assert choice.value == [choice.value[0]];
    }
  }

  // The texts chosen for an accepted licence satisfy it, whichever texts are available and whatever the
  // precedence, exactly when the input is safe to choose for.
  lemma ChoiceExactly(raw: string, tables: Tables, e: Expr)
    requires Accepted(raw, tables) && ReservedFree(tables)
    requires WellFormedExpr(e, tables) && PrintExpr(e) == Tokenize(raw)
    ensures (forall available :: PlainNames(available) ==> ChoiceRight(raw, available, e)) <==> SafeToChoose(raw, e)
  {
    if SafeToChoose(raw, e) {
      forall available | PlainNames(available)
        ensures ChoiceRight(raw, available, e)
      {
        if "AND" in Words(raw) {
          VisibleAndRight(raw, tables, available, e);
        } else if "WITH" !in Words(raw) {
          OfferedWordsRight(raw, available, e);
        }
      }
    } else {
      var x :| x in Words(raw) && !KeywordPrefixed(x) && !ExprHolds(e, false, {x});
      ChoosesTheOnlyOne(raw, x);
      SingleTextRight(x, e);
      assert PlainNames({x}) && !ChoiceRight(raw, {x}, e);
    }
  }
}
