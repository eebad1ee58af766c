// The SPDX licence expression recognizer.
module Spdx {
  // A regular-expression tokenizer, followed by a hand-written recursive descent over one shared index.

  import opened Sequences

  const NOASSERTION := "NOASSERTION"

  predicate IdChar(c: char) {
    'A' <= c <= 'Z' || 'a' <= c <= 'z' || '0' <= c <= '9' || c == '.' || c == '+' || c == '-'
  }

  predicate Allowed(c: char) {
    IdChar(c) || c == '(' || c == ')' || c == ' '
  }

  predicate AllAllowed(raw: string) {
    forall i :: 0 <= i < |raw| ==> Allowed(raw[i])
  }

  // ---------------------------------------------------------------- the tokenizer

  function RunLength(raw: string): (n: nat)
    ensures n <= |raw|
    ensures forall i :: 0 <= i < n ==> IdChar(raw[i])
    ensures n < |raw| ==> !IdChar(raw[n])
  {
    if raw == "" || !IdChar(raw[0]) then 0 else 1 + RunLength(raw[1..])
  }

  // How much \(|\)|AND|OR|WITH|[A-Za-z0-9.+-]+ matches at the start of raw, trying the alternatives
  // in this order; 0 when none does.
  function MatchLength(raw: string): (n: nat)
    ensures n <= |raw|
    ensures forall i :: 0 <= i < n ==> Allowed(raw[i]) && raw[i] != ' '
    ensures raw != "" && Allowed(raw[0]) && raw[0] != ' ' ==> n > 0
  {
    if raw != "" && (raw[0] == '(' || raw[0] == ')') then 1
    else if "AND" <= raw then 3
    else if "OR" <= raw then 2
    else if "WITH" <= raw then 4
    else RunLength(raw)
  }

  // The global match: unmatched characters are skipped.
  function Tokenize(raw: string): seq<string> {
    if raw == "" then []
    else
      var n := MatchLength(raw);
      if n == 0 then Tokenize(raw[1..]) else [raw[..n]] + Tokenize(raw[n..])
  }

  function RemoveSpaces(s: string): string {
    if s == "" then "" else if s[0] == ' ' then RemoveSpaces(s[1..]) else [s[0]] + RemoveSpaces(s[1..])
  }

  lemma {:induction false} RemoveSpacesPrefix(a: string, b: string)
    requires ' ' !in a
    ensures RemoveSpaces(a + b) == a + RemoveSpaces(b)
  {
    if a == "" {
      assert a + b == b;
    } else {
      assert (a + b)[1..] == a[1..] + b;
      RemoveSpacesPrefix(a[1..], b);
    }
  }

  // The tokens cover every character but the spaces.
  lemma {:induction false} TokensCoverInput(raw: string)
    requires AllAllowed(raw)
    ensures Concat(Tokenize(raw)) == RemoveSpaces(raw)
    ensures ' ' !in Concat(Tokenize(raw))
  {
    if raw != "" {
      var n := MatchLength(raw);
      if n == 0 {
        TokensCoverInput(raw[1..]);
      } else {
        TokensCoverInput(raw[n..]);
        assert raw == raw[..n] + raw[n..];
        RemoveSpacesPrefix(raw[..n], raw[n..]);
      }
    }
  }

  // The check behind the tokenizer: joining the tokens loses nothing but spaces.
  predicate LosesNothing(raw: string) {
    RemoveSpaces(Concat(Tokenize(raw))) == RemoveSpaces(raw)
  }

  // It can no longer fail once the character check in front of the tokenizer has passed.
  lemma LossCheckRedundant(raw: string)
    requires AllAllowed(raw)
    ensures LosesNothing(raw)
  {
    TokensCoverInput(raw);
    var joined := Concat(Tokenize(raw));
    RemoveSpacesPrefix(joined, "");
    assert joined + "" == joined;
  }

  predicate WordChar(c: char) {
    'A' <= c <= 'Z' || 'a' <= c <= 'z' || '0' <= c <= '9' || c == '_'
  }

  function LowerAscii(c: char): char {
    if 'A' <= c <= 'Z' then c - 'A' + 'a' else c
  }

  // /\bSEE LICENSE IN\b/i at position i
  predicate SeeLicenseAt(raw: string, i: nat) {
    var phrase := "see license in";
    && i + |phrase| <= |raw|
    && (forall k :: 0 <= k < |phrase| ==> LowerAscii(raw[i + k]) == phrase[k])
    && (i == 0 || !WordChar(raw[i - 1]))
    && (i + |phrase| == |raw| || !WordChar(raw[i + |phrase|]))
  }

  // No phrase that refers to a licence file, and allowed characters only. That alone shuts out a slash, comma,
  // semicolon, colon or URL scheme.
  predicate PassesCharacterCheck(raw: string) {
    && raw != ""
    && (forall i :: 0 <= i < |raw| ==> !SeeLicenseAt(raw, i))
    && AllAllowed(raw)
  }

  // ---------------------------------------------------------------- the grammar

  // E -> T ((AND|OR) T)*    T -> '(' E ')' | id [WITH exception]
  datatype Op = OpAnd | OpOr
  datatype Expr = Single(t: Term) | Chain(t: Term, op: Op, rest: Expr)
  datatype Term = Paren(inner: Expr) | Id(id: string) | IdWith(id: string, exception: string)

  datatype Tables = Tables(licenses: set<string>, exceptions: set<string>)

  function OpToken(op: Op): string {
    match op case OpAnd => "AND" case OpOr => "OR"
  }

  function PrintExpr(e: Expr): (tokens: seq<string>)
    ensures |tokens| > 0
  {
    match e
    case Single(t) => PrintTerm(t)
    case Chain(t, op, rest) => PrintTerm(t) + [OpToken(op)] + PrintExpr(rest)
  }

  function PrintTerm(t: Term): (tokens: seq<string>)
    ensures |tokens| > 0
  {
    match t
    case Paren(inner) => ["("] + PrintExpr(inner) + [")"]
    case Id(id) => [id]
    case IdWith(id, exception) => [id, "WITH", exception]
  }

  predicate LicenseToken(token: string, tables: Tables) {
    token != "" && token != "(" && token in tables.licenses
  }

  predicate ExceptionToken(token: string, tables: Tables) {
    token != "" && token in tables.exceptions
  }

  predicate WellFormedExpr(e: Expr, tables: Tables) {
    match e
    case Single(t) => WellFormedTerm(t, tables)
    case Chain(t, op, rest) => WellFormedTerm(t, tables) && WellFormedExpr(rest, tables)
  }

  predicate WellFormedTerm(t: Term, tables: Tables) {
    match t
    case Paren(inner) => WellFormedExpr(inner, tables)
    case Id(id) => LicenseToken(id, tables)
    case IdWith(id, exception) => LicenseToken(id, tables) && ExceptionToken(exception, tables)
  }

  // ---------------------------------------------------------------- what the recognizer computes

  // The answer of `expression` or `term`, and where it leaves the shared index.
  datatype Parsed = Parsed(ok: bool, index: nat)

  function Left(tokens: seq<string>, i: nat): nat {
    if i <= |tokens| then |tokens| - i else 0
  }

  predicate OpAt(tokens: seq<string>, i: nat) {
    i < |tokens| && (tokens[i] == "AND" || tokens[i] == "OR")
  }

  function ParseExpr(tokens: seq<string>, tables: Tables, i: nat): (r: Parsed)
    ensures r.ok ==> i < r.index <= |tokens|
    ensures i <= |tokens| ==> i <= r.index <= |tokens| + 1
    decreases Left(tokens, i), 2
  {
    var t := ParseTerm(tokens, tables, i);
    if t.ok then ParseOps(tokens, tables, t.index) else t
  }

  function ParseOps(tokens: seq<string>, tables: Tables, i: nat): (r: Parsed)
    requires i <= |tokens|
    ensures r.ok ==> i <= r.index <= |tokens|
    ensures i <= r.index <= |tokens| + 1
    decreases Left(tokens, i), 0
  {
    if OpAt(tokens, i) then ParseExpr(tokens, tables, i + 1) else Parsed(true, i)
  }

  function ParseTerm(tokens: seq<string>, tables: Tables, i: nat): (r: Parsed)
    ensures r.ok ==> i < r.index <= |tokens|
    ensures i <= |tokens| ==> i <= r.index <= |tokens| + 1
    decreases Left(tokens, i), 1
  {
    if i < |tokens| && tokens[i] == "(" then
      var e := ParseExpr(tokens, tables, i + 1);
      if e.ok then Parsed(e.index < |tokens| && tokens[e.index] == ")", e.index + 1) else e
    else if i >= |tokens| || !LicenseToken(tokens[i], tables) then Parsed(false, i)
    else if i + 1 < |tokens| && tokens[i + 1] == "WITH" then
      if i + 2 < |tokens| && ExceptionToken(tokens[i + 2], tables) then Parsed(true, i + 3) else Parsed(false, i + 2)
    else Parsed(true, i + 1)
  }

  // The two closures over one shared index.
  class Recognizer {
    const tokens: seq<string>
    const tables: Tables
    var index: nat

    constructor (tokens: seq<string>, tables: Tables)
      ensures this.tokens == tokens && this.tables == tables && index == 0
    {
      this.tokens := tokens;
      this.tables := tables;
      index := 0;
    }

    method Expression() returns (ok: bool)
      requires index <= |tokens|
      modifies this
      ensures Parsed(ok, index) == ParseExpr(tokens, tables, old(index))
      decreases Left(tokens, index), 2
    {
      ok := Term();
      if !ok {
        return;
      }
      while OpAt(tokens, index)
        invariant old(index) < index <= |tokens|
        invariant ParseExpr(tokens, tables, old(index)) == ParseOps(tokens, tables, index)
        decreases Left(tokens, index)
      {
        index := index + 1;
        ok := Term();
        if !ok {
          return;
        }
      }
      ok := true;
    }

    method Term() returns (ok: bool)
      requires index <= |tokens|
      modifies this
      ensures Parsed(ok, index) == ParseTerm(tokens, tables, old(index))
      decreases Left(tokens, index), 1
    {
      if index < |tokens| && tokens[index] == "(" {
        index := index + 1;
        ok := Expression();
        if ok {
          ok := index < |tokens| && tokens[index] == ")";
          index := index + 1;
        }
        return;
      }
      if index >= |tokens| || !LicenseToken(tokens[index], tables) {
        return false;
      }
      index := index + 1;
      if index < |tokens| && tokens[index] == "WITH" {
        index := index + 1;
        if index >= |tokens| || !ExceptionToken(tokens[index], tables) {
          return false;
        }
        index := index + 1;
      }
      return true;
    }
  }

  predicate Recognizes(tokens: seq<string>, tables: Tables) {
    ParseExpr(tokens, tables, 0) == Parsed(true, |tokens|)
  }

  predicate Accepted(raw: string, tables: Tables) {
    PassesCharacterCheck(raw) && Tokenize(raw) != [] && LosesNothing(raw) && Recognizes(Tokenize(raw), tables)
  }

  method SpdxLicense(raw: string, tables: Tables) returns (license: string)
    ensures license == if Accepted(raw, tables) then raw else NOASSERTION
  {
    if !PassesCharacterCheck(raw) {
      return NOASSERTION;
    }
    var tokens := Tokenize(raw);
    if tokens == [] || !LosesNothing(raw) {
      return NOASSERTION;
    }
    var recognizer := new Recognizer(tokens, tables);
    var ok := recognizer.Expression();
    license := if ok && recognizer.index == |tokens| then raw else NOASSERTION;
  }

  // ---------------------------------------------------------------- soundness

  lemma {:induction false} ExprSound(tokens: seq<string>, tables: Tables, i: nat) returns (e: Expr)
    requires i <= |tokens| && ParseExpr(tokens, tables, i).ok
    ensures WellFormedExpr(e, tables)
    ensures PrintExpr(e) == tokens[i..ParseExpr(tokens, tables, i).index]
    decreases Left(tokens, i), 2
  {
    var t := TermSound(tokens, tables, i);
    var m := ParseTerm(tokens, tables, i).index;
    if OpAt(tokens, m) {
      var rest := ExprSound(tokens, tables, m + 1);
      var end := ParseExpr(tokens, tables, i).index;
      e := Chain(t, if tokens[m] == "AND" then OpAnd else OpOr, rest);
      assert tokens[i..end] == tokens[i..m] + [tokens[m]] + tokens[m + 1..end];
    } else {
      e := Single(t);
    }
  }

  lemma {:induction false} TermSound(tokens: seq<string>, tables: Tables, i: nat) returns (t: Term)
    requires i <= |tokens| && ParseTerm(tokens, tables, i).ok
    ensures WellFormedTerm(t, tables)
    ensures PrintTerm(t) == tokens[i..ParseTerm(tokens, tables, i).index]
    decreases Left(tokens, i), 1
  {
    if tokens[i] == "(" {
      var inner := ExprSound(tokens, tables, i + 1);
      var m := ParseExpr(tokens, tables, i + 1).index;
      t := Paren(inner);
      assert tokens[i..m + 1] == [tokens[i]] + tokens[i + 1..m] + [tokens[m]];
    } else if i + 1 < |tokens| && tokens[i + 1] == "WITH" {
      t := IdWith(tokens[i], tokens[i + 2]);
    } else {
      t := Id(tokens[i]);
    }
  }

  // ---------------------------------------------------------------- completeness

  predicate Follows(tokens: seq<string>, i: nat, end: nat, printed: seq<string>) {
    i <= end <= |tokens| && tokens[i..end] == printed
  }

  lemma FollowsSplit(tokens: seq<string>, i: nat, end: nat, a: seq<string>, b: seq<string>)
    requires Follows(tokens, i, end, a + b)
    ensures Follows(tokens, i, i + |a|, a) && Follows(tokens, i + |a|, end, b)
  {
    assert |tokens[i..end]| == end - i;
    assert tokens[i..i + |a|] == (a + b)[..|a|];
    assert tokens[i + |a|..end] == (a + b)[|a|..];
  }

  lemma {:induction false} ExprComplete(tokens: seq<string>, tables: Tables, i: nat, end: nat, e: Expr)
    requires WellFormedExpr(e, tables) && Follows(tokens, i, end, PrintExpr(e))
    requires !OpAt(tokens, end) && (end < |tokens| ==> tokens[end] != "WITH")
    ensures ParseExpr(tokens, tables, i) == Parsed(true, end)
    decreases e
  {
    match e
    case Single(t) =>
      TermComplete(tokens, tables, i, end, t);
    case Chain(t, op, rest) =>
      FollowsSplit(tokens, i, end, PrintTerm(t) + [OpToken(op)], PrintExpr(rest));
      var m := i + |PrintTerm(t)|;
      FollowsSplit(tokens, i, m + 1, PrintTerm(t), [OpToken(op)]);
      assert tokens[m] == tokens[m..m + 1][0] == OpToken(op);
      TermComplete(tokens, tables, i, m, t);
      ExprComplete(tokens, tables, m + 1, end, rest);
  }

  lemma {:induction false} TermComplete(tokens: seq<string>, tables: Tables, i: nat, end: nat, t: Term)
    requires WellFormedTerm(t, tables) && Follows(tokens, i, end, PrintTerm(t))
    requires end < |tokens| ==> tokens[end] != "WITH"
    ensures ParseTerm(tokens, tables, i) == Parsed(true, end)
    decreases t
  {
    assert |tokens[i..end]| == end - i;
    assert tokens[i] == tokens[i..end][0];
    match t
    case Paren(inner) =>
      FollowsSplit(tokens, i, end, ["("] + PrintExpr(inner), [")"]);
      FollowsSplit(tokens, i, end - 1, ["("], PrintExpr(inner));
      assert tokens[end - 1] == tokens[end - 1..end][0];
      ExprComplete(tokens, tables, i + 1, end - 1, inner);
    case Id(id) =>
    case IdWith(id, exception) =>
      assert tokens[i + 1] == tokens[i..end][1] && tokens[i + 2] == tokens[i..end][2];
  }

  // The recognizer accepts exactly the printings of well-formed trees.
  lemma RecognizerExact(tokens: seq<string>, tables: Tables)
    ensures Recognizes(tokens, tables) <==> exists e :: WellFormedExpr(e, tables) && PrintExpr(e) == tokens
  {
    if Recognizes(tokens, tables) {
      var e := ExprSound(tokens, tables, 0);
      assert tokens[0..|tokens|] == tokens;
    }
    forall e | WellFormedExpr(e, tables) && PrintExpr(e) == tokens
      ensures Recognizes(tokens, tables)
    {
      assert tokens[0..|tokens|] == tokens;
      ExprComplete(tokens, tables, 0, |tokens|, e);
    }
  }

  // What a caller of spdxLicense may rely on, with the redundant checks gone.
  lemma SpdxLicenseExact(raw: string, tables: Tables)
    ensures Accepted(raw, tables) <==>
              && PassesCharacterCheck(raw)
              && exists e :: WellFormedExpr(e, tables) && PrintExpr(e) == Tokenize(raw)
  {
    RecognizerExact(Tokenize(raw), tables);
    if PassesCharacterCheck(raw) {
      LossCheckRedundant(raw);
    }
  }
}
