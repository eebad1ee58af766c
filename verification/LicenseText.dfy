// Which standard licence texts are reproduced for a licence, and why they satisfy it. The choice reads the licence
// with a tokenizer of its own, which is compared here with that of the recognizer, and a licence is a formula of
// AND and OR whose precedence is left open: what is proved holds under every reading.
module LicenseText {
  // The choice for an expression uses a second tokenizer that splits at spaces and parentheses only.

  import opened Sequences
  import opened Sorting
  import opened Spdx

  // ---------------------------------------------------------------- the word tokenizer

  // \s in a JavaScript regular expression, for the characters a licence field can hold.
  predicate IsSpace(c: char) {
    c == ' ' || c == '\t' || c == '\n' || c == '\r' || c == '\U{000B}' || c == '\U{000C}' || c == '\U{00A0}' || c == '\U{FEFF}'
  }

  predicate Separates(c: char) {
    c == '(' || c == ')' || IsSpace(c)
  }

  function WordLength(s: string): (n: nat)
    ensures n <= |s|
    ensures forall i :: 0 <= i < n ==> !Separates(s[i])
    ensures n < |s| ==> Separates(s[n])
    ensures s != "" && !Separates(s[0]) ==> n > 0
  {
    if s == "" || Separates(s[0]) then 0 else 1 + WordLength(s[1..])
  }

  // expression.replace(/[()]/g, " ").split(/\s+/).filter(Boolean)
  function Words(s: string): seq<string> {
    if s == "" then []
    else
      var n := WordLength(s);
      if n == 0 then Words(s[1..]) else [s[..n]] + Words(s[n..])
  }

  // ---------------------------------------------------------------- the choice

  const PREFERENCE := ["MIT", "Apache-2.0", "BSD-3-Clause", "BSD-2-Clause", "ISC", "0BSD", "Zlib", "BlueOak-1.0.0",
                       "Unlicense", "CC0-1.0", "CC-BY-3.0", "MPL-2.0"]

  // PREFERENCE.indexOf(id)
  function IndexOf(list: seq<string>, id: string): (i: int)
    ensures i == -1 <==> id !in list
    ensures i != -1 ==> 0 <= i < |list| && list[i] == id
  {
    if list == [] then -1
    else if list[0] == id then 0
    else
      var rest := IndexOf(list[1..], id);
      if rest == -1 then -1 else rest + 1
  }

  function ByIndex(list: seq<string>): (string, string) -> bool {
    (a, b) => IndexOf(list, a) <= IndexOf(list, b)
  }

  function ByPreference(): (string, string) -> bool {
    ByIndex(PREFERENCE)
  }

  function NotOperator(): string -> bool {
    token => token != "AND" && token != "OR"
  }

  function InSet(available: set<string>): string -> bool {
    id => id in available
  }

  function ChoiceFrom(tokens: seq<string>, available: set<string>, preference: seq<string>): Option<seq<string>> {
    if "WITH" in tokens then None
    else
      var ids := Filter(NotOperator(), tokens);
      if "AND" in tokens then
        if forall id :: id in ids ==> id in available then Some(FirstSeen(ids)) else None
      else
        var offered := Sort(Filter(InSet(available), ids), ByIndex(preference));
        if offered == [] then None else Some([offered[0]])
  }

  function StandardTextChoice(expression: string, available: set<string>): Option<seq<string>> {
    ChoiceFrom(Words(expression), available, PREFERENCE)
  }

  // Of several alternatives the one with the smallest preference index is used. An id outside the list
  // has index -1, so it is preferred to every listed one.
  lemma {:induction false} ChoiceIsMostPreferred(expression: string, available: set<string>, other: string)
    requires StandardTextChoice(expression, available).Some?
    requires "AND" !in Words(expression)
    requires other in Words(expression) && other in available && other != "OR"
    ensures var chosen := StandardTextChoice(expression, available).value;
            && |chosen| == 1 && chosen[0] in Words(expression) && chosen[0] in available
            && IndexOf(PREFERENCE, chosen[0]) <= IndexOf(PREFERENCE, other)
            && (other !in PREFERENCE ==> chosen[0] !in PREFERENCE)
  {
    var ids := Filter(NotOperator(), Words(expression));
    var offered := Filter(InSet(available), ids);
    SortMembers(offered, ByPreference());
    SortSorted(offered, ByPreference());
    var sorted := Sort(offered, ByPreference());
    assert other in offered && sorted[0] in offered;
    var j :| 0 <= j < |sorted| && sorted[j] == other;
    if j > 0 {
      assert ByPreference()(sorted[0], sorted[j]);
    }
  }

  // So the choice is a listed identifier exactly when every available alternative is listed.
  lemma {:induction false} ListedExactly(expression: string, available: set<string>)
    requires StandardTextChoice(expression, available).Some?
    requires "AND" !in Words(expression)
    ensures |StandardTextChoice(expression, available).value| == 1
    ensures StandardTextChoice(expression, available).value[0] in PREFERENCE
       <==> forall x :: x in Words(expression) && x in available && x != "OR" ==> x in PREFERENCE
  {
    var ids := Filter(NotOperator(), Words(expression));
    SortMembers(Filter(InSet(available), ids), ByPreference());
    var chosen := StandardTextChoice(expression, available).value[0];
    assert chosen in Sort(Filter(InSet(available), ids), ByPreference());
    assert chosen in ids && chosen in available && chosen != "OR";
    forall x | x in Words(expression) && x in available && x != "OR" && x !in PREFERENCE
      ensures chosen !in PREFERENCE
    {
      ChoiceIsMostPreferred(expression, available, x);
    }
  }

  // ---------------------------------------------------------------- the two tokenizers compared

  predicate KeywordPrefixed(word: string) {
    "AND" <= word || "OR" <= word || "WITH" <= word
  }

  predicate Keyword(word: string) {
    word == "AND" || word == "OR" || word == "WITH"
  }

  // No operator touches an identifier.
  predicate SeparateWords(raw: string) {
    forall w :: w in Words(raw) && KeywordPrefixed(w) ==> Keyword(w)
  }

  // The word tokenizer sees an AND and a WITH wherever the recognizer does.
  predicate OperatorsVisible(raw: string) {
    && ("AND" in Tokenize(raw) ==> "AND" in Words(raw))
    && ("WITH" in Tokenize(raw) ==> "WITH" in Words(raw))
  }

  lemma {:induction false} RunAtLeast(raw: string, k: nat)
    requires k <= |raw| && forall i :: 0 <= i < k ==> IdChar(raw[i])
    ensures RunLength(raw) >= k
  {
    if k > 0 {
      RunAtLeast(raw[1..], k - 1);
    }
  }

  // Over the allowed characters, a word is a maximal run of identifier characters.
  lemma {:induction false} WordIsRun(raw: string)
    requires AllAllowed(raw)
    ensures WordLength(raw) == RunLength(raw)
  {
    if raw != "" {
      WordIsRun(raw[1..]);
    }
  }

  lemma {:induction false} MatchWithinRun(raw: string)
    requires raw != "" && IdChar(raw[0])
    ensures 0 < MatchLength(raw) <= RunLength(raw)
    ensures !KeywordPrefixed(raw[..RunLength(raw)]) ==> MatchLength(raw) == RunLength(raw)
    ensures Keyword(raw[..RunLength(raw)]) ==> MatchLength(raw) == RunLength(raw)
  {
    var n := RunLength(raw);
    if "AND" <= raw {
      RunAtLeast(raw, 3);
      assert "AND" <= raw[..n];
    } else if "OR" <= raw {
      RunAtLeast(raw, 2);
      assert "OR" <= raw[..n];
    } else if "WITH" <= raw {
      RunAtLeast(raw, 4);
      assert "WITH" <= raw[..n];
    }
  }

  lemma {:induction false} RunAfter(raw: string, m: nat)
    requires m <= RunLength(raw)
    ensures RunLength(raw[m..]) == RunLength(raw) - m
  {
    if m > 0 {
      assert raw[m..] == raw[1..][m - 1..];
      RunAfter(raw[1..], m - 1);
    }
  }

  // However a run is cut, the tokens behind it stay.
  lemma {:induction false} TokensBehindRun(raw: string)
    requires AllAllowed(raw)
    ensures forall t :: t in Tokenize(raw[RunLength(raw)..]) ==> t in Tokenize(raw)
  {
    var n := RunLength(raw);
    if n > 0 {
      MatchWithinRun(raw);
      var m := MatchLength(raw);
      RunAfter(raw, m);
      TokensBehindRun(raw[m..]);
      assert raw[n..] == raw[m..][n - m..];
    } else {
      assert raw[0..] == raw;
    }
  }

  lemma {:induction false} PlainWordsAreTokens(raw: string)
    requires AllAllowed(raw)
    ensures forall w :: w in Words(raw) && !KeywordPrefixed(w) ==> w in Tokenize(raw)
  {
    if raw != "" {
      WordIsRun(raw);
      var n := WordLength(raw);
      if n == 0 {
        PlainWordsAreTokens(raw[1..]);
        assert raw[0] == '(' || raw[0] == ')' || raw[0] == ' ';
      } else {
        PlainWordsAreTokens(raw[n..]);
        TokensBehindRun(raw);
        MatchWithinRun(raw);
      }
    }
  }

  lemma {:induction false} TokensAreWords(raw: string)
    requires AllAllowed(raw) && SeparateWords(raw)
    ensures forall t :: t in Tokenize(raw) ==> t == "(" || t == ")" || t in Words(raw)
  {
    if raw != "" {
      WordIsRun(raw);
      var n := WordLength(raw);
      if n == 0 {
        assert raw[0] == '(' || raw[0] == ')' || raw[0] == ' ';
        assert Words(raw) == Words(raw[1..]);
        TokensAreWords(raw[1..]);
        assert raw[..1] == [raw[0]];
      } else {
        assert raw[..n] in Words(raw);
        assert forall w :: w in Words(raw[n..]) ==> w in Words(raw);
        TokensAreWords(raw[n..]);
        MatchWithinRun(raw);
      }
    }
  }

  lemma {:induction false} SeparateWordsVisible(raw: string)
    requires AllAllowed(raw) && SeparateWords(raw)
    ensures OperatorsVisible(raw)
  {
    TokensAreWords(raw);
  }

  // ---------------------------------------------------------------- the licence as a formula

  datatype Formula =
    | Leaf(id: string)
    | LeafWith(id: string, exception: string)
    | And(left: Formula, right: Formula)
    | Or(left: Formula, right: Formula)

  // True when the texts of `granted` are enough; a plain text never covers a WITH term.
  predicate Satisfied(f: Formula, granted: set<string>) {
    match f
    case Leaf(id) => id in granted
    case LeafWith(_, _) => false
    case And(l, r) => Satisfied(l, granted) && Satisfied(r, granted)
    case Or(l, r) => Satisfied(l, granted) || Satisfied(r, granted)
  }

  function Terms(e: Expr): (ts: seq<Term>) {
    match e case Single(t) => [t] case Chain(t, _, rest) => [t] + Terms(rest)
  }

  function Ops(e: Expr): (ops: seq<Op>)
    ensures |Terms(e)| == |ops| + 1
  {
    match e case Single(_) => [] case Chain(_, op, rest) => [op] + Ops(rest)
  }

  function TermSize(t: Term): nat {
    match t case Paren(inner) => 1 + ExprSize(inner) case _ => 0
  }

  function ExprSize(e: Expr): nat {
    match e case Single(t) => TermSize(t) case Chain(t, _, rest) => TermSize(t) + ExprSize(rest)
  }

  // f reads the chain ts[0] ops[0] ts[1] ... under some bracketing, that is, some precedence.
  ghost predicate ReadsChain(f: Formula, ts: seq<Term>, ops: seq<Op>)
    requires |ts| == |ops| + 1
    decreases f, if |ts| == 1 then TermSize(ts[0]) else 0, 1
  {
    if |ts| == 1 then ReadsTerm(f, ts[0])
    else exists k :: 0 <= k < |ops| && ReadsSplit(f, ts, ops, k)
  }

  ghost predicate ReadsSplit(f: Formula, ts: seq<Term>, ops: seq<Op>, k: nat)
    requires |ts| == |ops| + 1 && k < |ops|
    decreases f, 0, 0
  {
    && (f.And? || f.Or?)
    && (f.And? <==> ops[k].OpAnd?)
    && ReadsChain(f.left, ts[..k + 1], ops[..k])
    && ReadsChain(f.right, ts[k + 1..], ops[k + 1..])
  }

  ghost predicate ReadsTerm(f: Formula, t: Term)
    decreases f, TermSize(t), 0
  {
    match t
    case Paren(inner) => ReadsExpr(f, inner)
    case Id(id) => f == Leaf(id)
    case IdWith(id, exception) => f == LeafWith(id, exception)
  }

  ghost predicate ReadsExpr(f: Formula, e: Expr)
    decreases f, ExprSize(e), 2
  {
    ReadsChain(f, Terms(e), Ops(e))
  }

  // The tokens a formula stands for, and those of a chain.
  ghost function FormulaTokens(f: Formula): set<string> {
    match f
    case Leaf(id) => {id}
    case LeafWith(id, exception) => {id, "WITH", exception}
    case And(l, r) => FormulaTokens(l) + {"AND"} + FormulaTokens(r)
    case Or(l, r) => FormulaTokens(l) + {"OR"} + FormulaTokens(r)
  }

  const PARENS := {"(", ")"}

  ghost function ChainTokens(ts: seq<Term>, ops: seq<Op>): set<string> {
    (set t, token | t in ts && token in PrintTerm(t) :: token) + (set op | op in ops :: OpToken(op))
  }

  lemma {:induction false} PrintedTokens(e: Expr)
    ensures Elements(PrintExpr(e)) == ChainTokens(Terms(e), Ops(e))
  {
    match e
    case Single(t) =>
      assert Elements(PrintTerm(t)) == ChainTokens([t], []);
    case Chain(t, op, rest) =>
      PrintedTokens(rest);
      ChainCut(Terms(e), Ops(e), 0);
      assert Terms(e)[..1] == [t] && Ops(e)[..0] == [];
      assert Terms(e)[1..] == Terms(rest) && Ops(e)[1..] == Ops(rest);
      assert Elements(PrintTerm(t)) == ChainTokens([t], []);
      assert Elements(PrintExpr(e)) == Elements(PrintTerm(t)) + {OpToken(op)} + Elements(PrintExpr(rest));
  }

  lemma {:induction false} ChainCut(ts: seq<Term>, ops: seq<Op>, k: nat)
    requires |ts| == |ops| + 1 && k < |ops|
    ensures ChainTokens(ts, ops) == ChainTokens(ts[..k + 1], ops[..k]) + {OpToken(ops[k])} + ChainTokens(ts[k + 1..], ops[k + 1..])
  {
    assert ts == ts[..k + 1] + ts[k + 1..];
    assert ops == ops[..k] + [ops[k]] + ops[k + 1..];
    assert forall t :: t in ts <==> t in ts[..k + 1] || t in ts[k + 1..];
    assert forall op :: op in ops <==> op in ops[..k] || op == ops[k] || op in ops[k + 1..];
  }

  // No identifier is an operator or a parenthesis; true of the SPDX identifier tables.
  predicate ReservedFree(tables: Tables) {
    forall id :: id in tables.licenses + tables.exceptions ==> !Keyword(id) && id !in PARENS
  }

  ghost predicate WellFormedTerms(ts: seq<Term>, tables: Tables) {
    forall t :: t in ts ==> WellFormedTerm(t, tables)
  }

  lemma {:induction false} TermsWellFormed(e: Expr, tables: Tables)
    requires WellFormedExpr(e, tables)
    ensures WellFormedTerms(Terms(e), tables)
  {
    match e
    case Single(_) =>
    case Chain(_, _, rest) => TermsWellFormed(rest, tables);
  }

  lemma {:induction false} OneTermTokens(t: Term)
    ensures ChainTokens([t], []) == Elements(PrintTerm(t))
    ensures t.Paren? ==> Elements(PrintTerm(t)) - PARENS == Elements(PrintExpr(t.inner)) - PARENS
  {
    if t.Paren? {
      assert Elements(PrintTerm(t)) == Elements(PrintExpr(t.inner)) + PARENS;
    }
  }

  lemma {:induction false} PlainTermTokens(f: Formula, t: Term, tables: Tables)
    requires !t.Paren? && ReadsTerm(f, t) && ReservedFree(tables) && WellFormedTerm(t, tables)
    ensures FormulaTokens(f) == Elements(PrintTerm(t)) - PARENS
  {
  }

  // Whatever the precedence, a reading has the tokens of the text except its parentheses.
  lemma {:induction false} ReadingTokens(f: Formula, ts: seq<Term>, ops: seq<Op>, tables: Tables)
    requires |ts| == |ops| + 1 && ReadsChain(f, ts, ops) && ReservedFree(tables) && WellFormedTerms(ts, tables)
    ensures FormulaTokens(f) == ChainTokens(ts, ops) - PARENS
    decreases f, if |ts| == 1 then TermSize(ts[0]) else 0, 1
  {
    if |ts| == 1 {
      ReadingTokensTerm(f, ts[0], tables);
      assert ts == [ts[0]] && ops == [];
    } else {
      var k :| 0 <= k < |ops| && ReadsSplit(f, ts, ops, k);
      ReadingTokens(f.left, ts[..k + 1], ops[..k], tables);
      ReadingTokens(f.right, ts[k + 1..], ops[k + 1..], tables);
      SplitTokens(f, ts, ops, k);
    }
  }

  lemma {:induction false} SplitTokens(f: Formula, ts: seq<Term>, ops: seq<Op>, k: nat)
    requires |ts| == |ops| + 1 && k < |ops| && (f.And? || f.Or?) && (f.And? <==> ops[k].OpAnd?)
    requires FormulaTokens(f.left) == ChainTokens(ts[..k + 1], ops[..k]) - PARENS
    requires FormulaTokens(f.right) == ChainTokens(ts[k + 1..], ops[k + 1..]) - PARENS
    ensures FormulaTokens(f) == ChainTokens(ts, ops) - PARENS
  {
    ChainCut(ts, ops, k);
    MinusParens(ChainTokens(ts[..k + 1], ops[..k]), ops[k], ChainTokens(ts[k + 1..], ops[k + 1..]));
  }

  lemma {:induction false} MinusParens(a: set<string>, op: Op, b: set<string>)
    ensures (a + {OpToken(op)} + b) - PARENS == (a - PARENS) + {OpToken(op)} + (b - PARENS)
  {
    assert OpToken(op)[0] != '(' && OpToken(op)[0] != ')';
  }

  lemma {:induction false} ReadingTokensTerm(f: Formula, t: Term, tables: Tables)
    requires ReadsTerm(f, t) && ReservedFree(tables) && WellFormedTerm(t, tables)
    ensures FormulaTokens(f) == ChainTokens([t], []) - PARENS
    decreases f, TermSize(t), 0
  {
    OneTermTokens(t);
    match t {
      case Paren(inner) => ReadingTokensExpr(f, inner, tables);
      case _ => PlainTermTokens(f, t, tables);
    }
  }

  lemma {:induction false} ReadingTokensExpr(f: Formula, e: Expr, tables: Tables)
    requires ReadsExpr(f, e) && ReservedFree(tables) && WellFormedExpr(e, tables)
    ensures FormulaTokens(f) == Elements(PrintExpr(e)) - PARENS
    decreases f, ExprSize(e), 2
  {
    TermsWellFormed(e, tables);
    ReadingTokens(f, Terms(e), Ops(e), tables);
    PrintedTokens(e);
  }

  lemma {:induction false} AllGranted(f: Formula, granted: set<string>)
    requires "WITH" !in FormulaTokens(f)
    requires forall t :: t in FormulaTokens(f) ==> t in granted || t == "AND" || t == "OR"
    requires "AND" !in LeafIds(f) && "OR" !in LeafIds(f)
    ensures Satisfied(f, granted)
  {
    match f
    case Leaf(_) =>
    case LeafWith(_, _) =>
    case And(l, r) => AllGranted(l, granted); AllGranted(r, granted);
    case Or(l, r) => AllGranted(l, granted); AllGranted(r, granted);
  }

  ghost function LeafIds(f: Formula): set<string> {
    match f
    case Leaf(id) => {id}
    case LeafWith(id, _) => {id}
    case And(l, r) => LeafIds(l) + LeafIds(r)
    case Or(l, r) => LeafIds(l) + LeafIds(r)
  }

  lemma {:induction false} OneGranted(f: Formula, granted: set<string>, id: string)
    requires "WITH" !in FormulaTokens(f) && "AND" !in FormulaTokens(f)
    requires id in FormulaTokens(f) && id in granted && id != "OR"
    ensures Satisfied(f, granted)
  {
    match f
    case Leaf(_) =>
    case Or(l, r) =>
      if id in FormulaTokens(l) {
        OneGranted(l, granted, id);
      } else {
        OneGranted(r, granted, id);
      }
  }

  lemma {:induction false} LeavesAreIds(f: Formula, ts: seq<Term>, ops: seq<Op>, tables: Tables)
    requires |ts| == |ops| + 1 && ReadsChain(f, ts, ops) && WellFormedTerms(ts, tables)
    ensures LeafIds(f) <= tables.licenses
    decreases f, if |ts| == 1 then TermSize(ts[0]) else 0, 1
  {
    if |ts| == 1 {
      var t := ts[0];
      assert t in ts;
      match t {
        case Paren(inner) =>
          assert ReadsTerm(f, t);
          LeavesAreIdsExpr(f, inner, tables);
        case Id(id) =>
        case IdWith(id, exception) =>
      }
    } else {
      var k :| 0 <= k < |ops| && ReadsSplit(f, ts, ops, k);
      LeavesAreIds(f.left, ts[..k + 1], ops[..k], tables);
      LeavesAreIds(f.right, ts[k + 1..], ops[k + 1..], tables);
    }
  }

  lemma {:induction false} LeavesAreIdsExpr(f: Formula, e: Expr, tables: Tables)
    requires ReadsExpr(f, e) && WellFormedExpr(e, tables)
    ensures LeafIds(f) <= tables.licenses
    decreases f, ExprSize(e), 2
  {
    TermsWellFormed(e, tables);
    LeavesAreIds(f, Terms(e), Ops(e), tables);
  }

  // The standard texts directory has no name that starts with an operator.
  predicate PlainNames(available: set<string>) {
    forall id :: id in available ==> !KeywordPrefixed(id)
  }

  // The texts chosen for an accepted licence make it true under every precedence of AND and OR.
  lemma {:induction false} ChosenTextsSatisfy(raw: string, tables: Tables, available: set<string>, e: Expr, f: Formula)
    requires Accepted(raw, tables) && ReservedFree(tables) && PlainNames(available)
    requires WellFormedExpr(e, tables) && PrintExpr(e) == Tokenize(raw) && ReadsExpr(f, e)
    requires OperatorsVisible(raw)
    requires StandardTextChoice(raw, available).Some?
    ensures Satisfied(f, Elements(StandardTextChoice(raw, available).value))
  {
    var granted := Elements(StandardTextChoice(raw, available).value);
    var words := Words(raw);
    ReadingTokensExpr(f, e, tables);
    assert forall t :: t in FormulaTokens(f) <==> t in Tokenize(raw) && t !in PARENS;
    var ids := Filter(NotOperator(), words);
    if "AND" in words {
      forall w | w in words && KeywordPrefixed(w)
        ensures Keyword(w)
      {
        assert w in ids || w == "AND" || w == "OR";
      }
      TokensAreWords(raw);
      forall t | t in FormulaTokens(f)
        ensures t in granted || t == "AND" || t == "OR"
      {
        assert t in words;
        if t != "AND" && t != "OR" {
          assert t in ids && t in FirstSeen(ids);
        }
      }
      LeavesAreIdsExpr(f, e, tables);
      AllGranted(f, granted);
    } else {
      var offered := Filter(InSet(available), ids);
      SortMembers(offered, ByPreference());
      var chosen := Sort(offered, ByPreference())[0];
      assert chosen in offered && chosen in words && chosen in granted;
      PlainWordsAreTokens(raw);
      WordsHaveNoParens(raw);
      OneGranted(f, granted, chosen);
    }
  }

  lemma {:induction false} WordsHaveNoParens(raw: string)
    ensures forall w :: w in Words(raw) ==> w !in PARENS
  {
    if raw != "" {
      var n := WordLength(raw);
      if n == 0 {
        WordsHaveNoParens(raw[1..]);
      } else {
        WordsHaveNoParens(raw[n..]);
      }
    }
  }

  // ---------------------------------------------------------------- an operator the word tokenizer misses

  predicate PlainId(id: string) {
    id != "" && !KeywordPrefixed(id) && forall i :: 0 <= i < |id| ==> IdChar(id[i])
  }

  lemma {:induction false} RunOfId(id: string, rest: string)
    requires forall i :: 0 <= i < |id| ==> IdChar(id[i])
    requires rest != "" ==> !IdChar(rest[0])
    ensures RunLength(id + rest) == |id|
  {
    if id == "" {
      assert id + rest == rest;
    } else {
      assert (id + rest)[1..] == id[1..] + rest;
      RunOfId(id[1..], rest);
    }
  }

  lemma {:induction false} TokenizeId(id: string, rest: string)
    requires PlainId(id) && AllAllowed(rest) && (rest != "" ==> !IdChar(rest[0]))
    ensures Tokenize(id + rest) == [id] + Tokenize(rest)
    ensures Words(id + rest) == [id] + Words(rest)
  {
    var raw := id + rest;
    RunOfId(id, rest);
    assert AllAllowed(raw);
    WordIsRun(raw);
    assert raw[..|id|] == id && raw[|id|..] == rest;
    MatchWithinRun(raw);
  }

  // With the AND glued to the identifier behind it, the expression is still accepted but one licence is
  // chosen where both are required. OperatorsVisible rules the whole family out.
  lemma {:induction false} HiddenAndFails(a: string, b: string, tables: Tables)
    requires PlainId(a) && PlainId(b) && a != b && {a, b} <= tables.licenses
    ensures var raw := a + (" AND" + b);
            var e := Chain(Id(a), OpAnd, Single(Id(b)));
            && Accepted(raw, tables) && !OperatorsVisible(raw)
            && WellFormedExpr(e, tables) && PrintExpr(e) == Tokenize(raw)
            && ReadsExpr(And(Leaf(a), Leaf(b)), e)
            && StandardTextChoice(raw, {a}) == Some([a])
            && !Satisfied(And(Leaf(a), Leaf(b)), {a})
  {
    HiddenAndAccepted(a, b, tables);
    HiddenAndChoice(a, b);
    HiddenAndReading(a, b);
  }

  lemma {:induction false} HiddenAndAccepted(a: string, b: string, tables: Tables)
    requires PlainId(a) && PlainId(b) && {a, b} <= tables.licenses
    ensures var raw := a + (" AND" + b);
            var e := Chain(Id(a), OpAnd, Single(Id(b)));
            && Accepted(raw, tables) && !OperatorsVisible(raw)
            && WellFormedExpr(e, tables) && PrintExpr(e) == Tokenize(raw)
  {
    HiddenAndTokens(a, b);
    HiddenAndCheck(a, b);
    assert IdChar(a[0]) && IdChar(b[0]);
    HiddenAndTree(a, b, tables);
    NotHidden(a, b);
  }

  lemma {:induction false} NotHidden(a: string, b: string)
    requires PlainId(a) && PlainId(b)
    ensures "AND" in [a, "AND", b] && "AND" !in [a, "AND" + b]
  {
    assert [a, "AND", b][1] == "AND" && |"AND" + b| > 3;
  }

  lemma {:induction false} HiddenAndTree(a: string, b: string, tables: Tables)
    requires LicenseToken(a, tables) && LicenseToken(b, tables)
    ensures var e := Chain(Id(a), OpAnd, Single(Id(b)));
            WellFormedExpr(e, tables) && PrintExpr(e) == [a, "AND", b] && Recognizes([a, "AND", b], tables)
  {
    var last := Single(Id(b));
    assert PrintExpr(last) == [b] && WellFormedExpr(last, tables);
    var e := Chain(Id(a), OpAnd, last);
    assert PrintExpr(e) == [a] + ["AND"] + [b];
    RecognizerExact([a, "AND", b], tables);
  }

  // ---------------------------------------------------------------- an unlisted identifier wins

  lemma {:induction false} WordThen(word: string, rest: string)
    requires word != "" && (forall i :: 0 <= i < |word| ==> IdChar(word[i])) && AllAllowed(rest)
    requires rest != "" ==> !IdChar(rest[0])
    ensures Words(word + rest) == [word] + Words(rest)
  {
    var raw := word + rest;
    RunOfId(word, rest);
    assert AllAllowed(raw);
    WordIsRun(raw);
    assert raw[..|word|] == word && raw[|word|..] == rest;
  }

  lemma {:induction false} SpaceThen(rest: string)
    ensures Words(" " + rest) == Words(rest)
  {
    assert (" " + rest)[1..] == rest;
  }

  lemma {:induction false} OrWords(a: string, b: string)
    requires PlainId(a) && PlainId(b)
    ensures Words(a + (" " + ("OR" + (" " + b)))) == [a] + (["OR"] + [b])
  {
    OperatorThen("OR", b);
    var rest := "OR" + (" " + b);
    WordThen(a, " " + rest);
    SpaceThen(rest);
  }

  lemma {:induction false} OperatorThen(operator: string, b: string)
    requires PlainId(b) && operator != "" && forall i :: 0 <= i < |operator| ==> IdChar(operator[i])
    ensures Words(operator + (" " + b)) == [operator] + [b] && AllAllowed(operator + (" " + b))
  {
    WordThen(operator, " " + b);
    SpaceThen(b);
    WordThen(b, "");
    assert b + "" == b;
  }

  lemma {:induction false} SortTwo(le: (string, string) -> bool, a: string, b: string)
    requires !le(a, b)
    ensures Sort([a, b], le) == [b, a]
  {
    assert [a, b][1..] == [b] && [b][1..] == [];
    assert Sort([b], le) == [b];
  }

  lemma {:induction false} UnlistedFirst(list: seq<string>, a: string, b: string)
    requires a in list && b !in list
    ensures !ByIndex(list)(a, b)
  {
  }

  lemma {:induction false} WithoutOr(a: string, b: string)
    requires !Keyword(a) && !Keyword(b)
    ensures Filter(NotOperator(), [a] + (["OR"] + [b])) == [a, b]
  {
    FilterAppend(NotOperator(), [a], ["OR"] + [b]);
    FilterAppend(NotOperator(), ["OR"], [b]);
    OneKept(a);
    OneKept(b);
    assert ["OR"][1..] == [];
  }

  lemma {:induction false} OfferedTwo(list: seq<string>, a: string, b: string)
    requires a in list && b !in list
    ensures Sort(Filter(InSet({a, b}), [a, b]), ByIndex(list)) == [b, a]
  {
    FilterTwo(InSet({a, b}), a, b);
    UnlistedFirst(list, a, b);
    SortTwo(ByIndex(list), a, b);
  }

  lemma {:induction false} ChoiceOfTwo(tokens: seq<string>, a: string, b: string, available: set<string>, list: seq<string>)
    requires tokens == [a] + (["OR"] + [b]) && available == {a, b}
    requires !Keyword(a) && !Keyword(b) && a in list && b !in list
    ensures ChoiceFrom(tokens, available, list) == Some([b])
  {
    WithoutOr(a, b);
    OfferedTwo(list, a, b);
    FirstOffered(tokens, available, list, [a, b], [b, a]);
  }

  // Without a visible AND or WITH, the first of the offered words in order of preference is chosen.
  lemma {:induction false} FirstOffered(tokens: seq<string>, available: set<string>, list: seq<string>, ids: seq<string>, offered: seq<string>)
    requires "AND" !in tokens && "WITH" !in tokens
    requires Filter(NotOperator(), tokens) == ids && Sort(Filter(InSet(available), ids), ByIndex(list)) == offered
    ensures ChoiceFrom(tokens, available, list) == if offered == [] then None else Some([offered[0]])
  {
  }

  lemma {:induction false} OneKept(a: string)
    requires !Keyword(a)
    ensures Filter(NotOperator(), [a]) == [a]
  {
    assert [a][1..] == [];
  }

  lemma {:induction false} UnlistedWins(a: string, b: string)
    requires PlainId(a) && PlainId(b) && a in PREFERENCE && b !in PREFERENCE
    ensures StandardTextChoice(a + (" " + ("OR" + (" " + b))), {a, b}) == Some([b])
  {
    OrWords(a, b);
    ChoiceOfTwo([a] + (["OR"] + [b]), a, b, {a, b}, PREFERENCE);
  }

  // With both texts at hand, LGPL-2.1-only is reproduced for a package that offers MIT.
  lemma {:induction false} LgplBeforeMit(raw: string)
    requires raw == "MIT OR LGPL-2.1-only"
    ensures StandardTextChoice(raw, {"MIT", "LGPL-2.1-only"}) == Some(["LGPL-2.1-only"])
  {
    var a, b := "MIT", "LGPL-2.1-only";
    assert raw == a + (" " + ("OR" + (" " + b)));
    LgplUnlisted(a, b);
    UnlistedWins(a, b);
  }

  lemma {:induction false} LgplUnlisted(a: string, b: string)
    requires a == "MIT" && b == "LGPL-2.1-only"
    ensures PlainId(a) && PlainId(b) && a in PREFERENCE && b !in PREFERENCE
  {
    assert PREFERENCE[0] == a;
    assert b[0] == 'L' && forall i :: 0 <= i < |PREFERENCE| ==> PREFERENCE[i][0] != 'L';
  }

  lemma {:induction false} HiddenAndTokens(a: string, b: string)
    requires PlainId(a) && PlainId(b)
    ensures Tokenize(a + (" AND" + b)) == [a, "AND", b]
    ensures Words(a + (" AND" + b)) == [a, "AND" + b]
  {
    GluedWord(b);
    TokenizeId(a, " AND" + b);
    TokenizeId(b, "");
    assert b + "" == b;
  }

  lemma {:induction false} HiddenAndCheck(a: string, b: string)
    requires PlainId(a) && PlainId(b)
    ensures PassesCharacterCheck(a + (" AND" + b)) && LosesNothing(a + (" AND" + b))
  {
    var raw := a + (" AND" + b);
    OneSpaceNoPhrase(raw, |a|);
    assert AllAllowed(raw);
    LossCheckRedundant(raw);
  }

  lemma {:induction false} HiddenAndChoice(a: string, b: string)
    requires PlainId(a) && PlainId(b)
    ensures StandardTextChoice(a + (" AND" + b), {a}) == Some([a])
  {
    HiddenAndTokens(a, b);
    var glued := "AND" + b;
    assert glued[0] == 'A' && |glued| > 3;
    assert "AND" <= glued;
    FilterTwo(NotOperator(), a, glued);
    FilterTwo(InSet({a}), a, glued);
    var one := [a];
    assert one[1..] == [];
    assert Sort(one, ByPreference()) == one;
  }

  lemma HiddenAndReading(a: string, b: string)
    ensures ReadsExpr(And(Leaf(a), Leaf(b)), Chain(Id(a), OpAnd, Single(Id(b))))
  {
    var last := Single(Id(b));
    var e := Chain(Id(a), OpAnd, last);
    assert Terms(last) == [Id(b)] && Ops(last) == [];
    assert Terms(e) == [Id(a)] + Terms(last) && Ops(e) == [OpAnd] + Ops(last);
    var ts, ops := Terms(e), Ops(e);
    assert ts[..1] == [Id(a)] && ops[..0] == [] && ts[1..] == [Id(b)] && ops[1..] == [];
    assert ReadsChain(Leaf(a), [Id(a)], []) && ReadsChain(Leaf(b), [Id(b)], []);
    assert ReadsSplit(And(Leaf(a), Leaf(b)), ts, ops, 0);
  }

  lemma {:induction false} FilterTwo(keep: string -> bool, x: string, y: string)
    ensures Filter(keep, [x, y]) == (if keep(x) then [x] else []) + (if keep(y) then [y] else [])
  {
    assert [x, y] == [x] + [y];
    FilterAppend(keep, [x], [y]);
    assert [x][1..] == [] && [y][1..] == [];
  }

  lemma {:induction false} GluedWord(b: string)
    requires PlainId(b)
    ensures AllAllowed(" AND" + b) && Words(" AND" + b) == ["AND" + b]
    ensures Tokenize(" AND" + b) == ["AND"] + Tokenize(b)
  {
    var glued := "AND" + b;
    assert glued + "" == glued;
    RunOfId(glued, "");
    WordIsRun(glued);
    assert glued[..|glued|] == glued && glued[|glued|..] == "";
    assert Words(glued) == [glued] + Words("");
    assert (" AND" + b)[1..] == glued;
    assert glued[3..] == b;
    assert AllAllowed(" AND" + b);
  }

  lemma {:induction false} PhraseHasSpaces(raw: string, i: nat)
    requires SeeLicenseAt(raw, i)
    ensures raw[i + 3] == ' ' && raw[i + 11] == ' '
  {
    var phrase := "see license in";
    assert phrase[3] == ' ' && phrase[11] == ' ';
  }

  lemma {:induction false} OneSpaceNoPhrase(raw: string, at: nat)
    requires forall i :: 0 <= i < |raw| && raw[i] == ' ' ==> i == at
    ensures forall i :: 0 <= i < |raw| ==> !SeeLicenseAt(raw, i)
  {
    forall i | 0 <= i < |raw|
      ensures !SeeLicenseAt(raw, i)
    {
      if SeeLicenseAt(raw, i) {
        PhraseHasSpaces(raw, i);
        assert false;
      }
    }
  }
}
