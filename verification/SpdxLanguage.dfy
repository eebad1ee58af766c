// The language of the SPDX recognizer in plain terms.
module SpdxLanguage {
  // How a text falls into tokens, which characters and phrases keep it out, and what its short expressions are.

  import opened Sequences
  import opened Spdx

  // ---------------------------------------------------------------- the tokens

  const CAPITALS := "ABCDEFGHIJKLMNOPQRSTUVWXYZ"
  const SMALL := "abcdefghijklmnopqrstuvwxyz"
  const DIGITS := "0123456789"

  lemma CapitalExactly(c: char)
    ensures c in CAPITALS <==> 'A' <= c <= 'Z'
  {
    if 'A' <= c <= 'Z' {
      assert CAPITALS[c as int - 65] == c;
    }
  }

  lemma SmallExactly(c: char)
    ensures c in SMALL <==> 'a' <= c <= 'z'
  {
    if 'a' <= c <= 'z' {
      assert SMALL[c as int - 97] == c;
    }
  }

  lemma DigitExactly(c: char)
    ensures c in DIGITS <==> '0' <= c <= '9'
  {
    if '0' <= c <= '9' {
      assert DIGITS[c as int - 48] == c;
    }
  }

  // What an identifier is made of, and what a text may hold.
  lemma CharactersExactly(c: char)
    ensures IdChar(c) <==> c in CAPITALS || c in SMALL || c in DIGITS || c in ".+-"
    ensures Allowed(c) <==> c in CAPITALS || c in SMALL || c in DIGITS || c in ".+-() "
    ensures WordChar(c) <==> c in CAPITALS || c in SMALL || c in DIGITS || c == '_'
  {
    CapitalExactly(c);
    SmallExactly(c);
    DigitExactly(c);
  }

  // A space is passed over, a parenthesis or a keyword is a token wherever it stands, and any other run of identifier
  // characters is one.
  lemma TokenLaws(rest: string)
    ensures Tokenize("") == [] && Tokenize(" " + rest) == Tokenize(rest)
    ensures Tokenize("(" + rest) == ["("] + Tokenize(rest) && Tokenize(")" + rest) == [")"] + Tokenize(rest)
    ensures Tokenize("AND" + rest) == ["AND"] + Tokenize(rest)
    ensures Tokenize("OR" + rest) == ["OR"] + Tokenize(rest)
    ensures Tokenize("WITH" + rest) == ["WITH"] + Tokenize(rest)
  {
    SpaceLaw(" " + rest, rest);
    FixedLaw("(", rest);
    FixedLaw(")", rest);
    FixedLaw("AND", rest);
    FixedLaw("OR", rest);
    FixedLaw("WITH", rest);
  }

  lemma SpaceLaw(raw: string, rest: string)
    requires raw == " " + rest
    ensures Tokenize(raw) == Tokenize(rest)
  {
    assert raw[1..] == rest && raw[0] == ' ';
  }

  lemma FixedLaw(token: string, rest: string)
    requires token in ["(", ")", "AND", "OR", "WITH"]
    ensures Tokenize(token + rest) == [token] + Tokenize(rest)
  {
    var raw := token + rest;
    assert raw[..|token|] == token && raw[|token|..] == rest;
    assert raw[0] == token[0];
    assert token <= raw;
    MatchesFixed(raw, token);
  }

  lemma MatchesFixed(raw: string, token: string)
    requires token in ["(", ")", "AND", "OR", "WITH"] && token <= raw
    ensures MatchLength(raw) == |token|
  {
    assert raw[0] == token[0];
  }

  lemma {:induction false} RunEnds(id: string, rest: string)
    requires (forall i :: 0 <= i < |id| ==> IdChar(id[i])) && (rest != "" ==> !IdChar(rest[0]))
    ensures RunLength(id + rest) == |id|
  {
    if id == "" {
      assert id + rest == rest;
    } else {
      assert (id + rest)[1..] == id[1..] + rest;
      RunEnds(id[1..], rest);
    }
  }

  lemma IdentifierLaw(id: string, rest: string)
    requires id != "" && (forall i :: 0 <= i < |id| ==> IdChar(id[i])) && (rest != "" ==> !IdChar(rest[0]))
    requires !("AND" <= id) && !("OR" <= id) && !("WITH" <= id)
    ensures Tokenize(id + rest) == [id] + Tokenize(rest)
  {
    var raw := id + rest;
    RunEnds(id, rest);
    NoKeyword(id, rest, "AND");
    NoKeyword(id, rest, "OR");
    NoKeyword(id, rest, "WITH");
    assert raw[0] == id[0] && IdChar(raw[0]);
    assert raw[..|id|] == id && raw[|id|..] == rest;
  }

  // A keyword cannot begin in an identifier and end behind it.
  lemma NoKeyword(id: string, rest: string, word: string)
    requires word in ["AND", "OR", "WITH"] && !(word <= id) && (rest != "" ==> !IdChar(rest[0]))
    ensures !(word <= id + rest)
  {
    var raw := id + rest;
    assert forall i :: 0 <= i < |word| ==> IdChar(word[i]);
    assert |word| <= |id| ==> raw[..|word|] == id[..|word|];
    assert |id| < |word| <= |raw| ==> raw[|id|] == rest[0] && !IdChar(raw[|id|]) && raw[|id|] == raw[..|word|][|id|];
  }

  // ---------------------------------------------------------------- the phrase that refers to a file

  function LowerCase(s: string): (r: string)
    ensures |r| == |s|
  {
    seq(|s|, i requires 0 <= i < |s| => if 'A' <= s[i] <= 'Z' then s[i] - 'A' + 'a' else s[i])
  }

  // The phrase, in any case, standing between characters that no word is made of.
  lemma PhraseExactly(before: string, phrase: string, after: string)
    requires |phrase| == 14
    ensures SeeLicenseAt(before + phrase + after, |before|) <==>
      && LowerCase(phrase) == "see license in"
      && (before == "" || !WordChar(before[|before| - 1])) && (after == "" || !WordChar(after[0]))
  {
    var raw := before + phrase + after;
    assert |"see license in"| == 14;
    assert forall k :: 0 <= k < 14 ==> raw[|before| + k] == phrase[k] && LowerAscii(raw[|before| + k]) == LowerCase(phrase)[k];
    assert before != "" ==> raw[|before| - 1] == before[|before| - 1];
    assert after != "" ==> raw[|before| + 14] == after[0];
  }

  // The phrase stands somewhere in the text.
  ghost predicate RefersToFile(raw: string) {
    exists before, phrase, after :: raw == before + phrase + after && Refers(before, phrase, after)
  }

  predicate Refers(before: string, phrase: string, after: string) {
    && |phrase| == 14 && LowerCase(phrase) == "see license in"
    && (before == "" || !WordChar(before[|before| - 1])) && (after == "" || !WordChar(after[0]))
  }

  predicate Usual(c: char) {
    c in CAPITALS || c in SMALL || c in DIGITS || c in ".+-() "
  }

  // What the character check lets through.
  lemma PassesExactly(raw: string)
    ensures PassesCharacterCheck(raw) <==> raw != "" && (forall i :: 0 <= i < |raw| ==> Usual(raw[i])) && !RefersToFile(raw)
  {
    forall i | 0 <= i < |raw|
      ensures Usual(raw[i]) <==> Allowed(raw[i])
    {
      CharactersExactly(raw[i]);
    }
    PhraseSomewhere(raw);
  }

  lemma PhraseSomewhere(raw: string)
    ensures RefersToFile(raw) <==> exists i :: 0 <= i < |raw| && SeeLicenseAt(raw, i)
  {
    forall before, phrase, after | raw == before + phrase + after && Refers(before, phrase, after)
      ensures |before| < |raw| && SeeLicenseAt(raw, |before|)
    {
      PhraseExactly(before, phrase, after);
    }
    forall i | 0 <= i < |raw| && SeeLicenseAt(raw, i)
      ensures RefersToFile(raw)
    {
      assert |"see license in"| == 14;
      var before, phrase, after := raw[..i], raw[i..i + 14], raw[i + 14..];
      assert raw == before + phrase + after;
      PhraseExactly(before, phrase, after);
      assert Refers(before, phrase, after);
    }
  }

  // ---------------------------------------------------------------- what is accepted

  // The answer for a term at the end of the tokens.
  lemma LastToken(tokens: seq<string>, tables: Tables, i: nat)
    requires i + 1 == |tokens| && tokens[i] != ""
    ensures ParseTerm(tokens, tables, i).ok <==> tokens[i] != "(" && tokens[i] in tables.licenses
    ensures ParseExpr(tokens, tables, i).ok <==> tokens[i] != "(" && tokens[i] in tables.licenses
    ensures ParseTerm(tokens, tables, i).ok ==> ParseTerm(tokens, tables, i).index == i + 1
    ensures ParseExpr(tokens, tables, i).ok ==> ParseExpr(tokens, tables, i).index == i + 1
  {
    assert !ParseTerm(tokens, tables, i + 1).ok;
    assert !ParseExpr(tokens, tables, i + 1).ok;
    assert tokens[i] == "(" ==> !ParseTerm(tokens, tables, i).ok;
    assert ParseOps(tokens, tables, i + 1) == Parsed(true, i + 1);
  }

  // An identifier alone must be a licence.
  lemma OneToken(id: string, tables: Tables)
    requires id != ""
    ensures Recognizes([id], tables) <==> id != "(" && id in tables.licenses
  {
    LastToken([id], tables, 0);
  }

  // Three tokens are a licence with an exception, two licences joined by AND or OR, or a licence in parentheses.
  lemma ThreeTokens(a: string, b: string, c: string, tables: Tables)
    requires a != "" && b != "" && c != ""
    ensures Recognizes([a, b, c], tables) <==>
      || (a != "(" && a in tables.licenses && b == "WITH" && c in tables.exceptions)
      || (a != "(" && a in tables.licenses && (b == "AND" || b == "OR") && c != "(" && c in tables.licenses)
      || (a == "(" && b != "(" && b in tables.licenses && c == ")")
  {
    var tokens := [a, b, c];
    LastToken(tokens, tables, 2);
    var first := ParseTerm(tokens, tables, 0);
    if a == "(" {
      InParentheses(tokens, tables);
    } else {
      assert first.ok ==> ParseExpr(tokens, tables, 0) == ParseOps(tokens, tables, first.index);
      assert ParseOps(tokens, tables, 3) == Parsed(true, 3);
    }
  }

  lemma InParentheses(tokens: seq<string>, tables: Tables)
    requires |tokens| == 3 && tokens[0] == "(" && tokens[1] != "" && tokens[2] != ""
    ensures Recognizes(tokens, tables) <==> tokens[1] != "(" && tokens[1] in tables.licenses && tokens[2] == ")"
  {
    LastToken(tokens, tables, 2);
    assert ParseOps(tokens, tables, 3) == Parsed(true, 3);
    var inner := ParseExpr(tokens, tables, 1);
    var second := ParseTerm(tokens, tables, 1);
    assert second.ok ==> inner == ParseOps(tokens, tables, second.index);
    var term := ParseTerm(tokens, tables, 0);
    assert term == if inner.ok then Parsed(inner.index < 3 && tokens[inner.index] == ")", inner.index + 1) else inner;
    assert term.ok ==> ParseExpr(tokens, tables, 0) == ParseOps(tokens, tables, term.index);
  }

  // Expressions can be joined and put in parentheses.
  lemma Closed(a: seq<string>, b: seq<string>, tables: Tables)
    requires Recognizes(a, tables) && Recognizes(b, tables)
    ensures Recognizes(a + ["AND"] + b, tables) && Recognizes(a + ["OR"] + b, tables) && Recognizes(["("] + a + [")"], tables)
  {
    RecognizerExact(a, tables);
    RecognizerExact(b, tables);
    var d :| WellFormedExpr(d, tables) && PrintExpr(d) == a;
    var e :| WellFormedExpr(e, tables) && PrintExpr(e) == b;
    Joins(d, OpAnd, e, tables);
    Printed(Append(d, OpAnd, e), a + ["AND"] + b, tables);
    Joins(d, OpOr, e, tables);
    Printed(Append(d, OpOr, e), a + ["OR"] + b, tables);
    var enclosed := Paren(d);
    assert WellFormedTerm(enclosed, tables) && PrintTerm(enclosed) == ["("] + a + [")"];
    Printed(Single(enclosed), ["("] + a + [")"], tables);
  }

  lemma Printed(e: Expr, tokens: seq<string>, tables: Tables)
    requires WellFormedExpr(e, tables) && PrintExpr(e) == tokens
    ensures Recognizes(tokens, tables)
  {
    RecognizerExact(tokens, tables);
  }

  function Append(d: Expr, op: Op, e: Expr): Expr {
    match d
    case Single(t) => Chain(t, op, e)
    case Chain(t, o, rest) => Chain(t, o, Append(rest, op, e))
  }

  lemma {:induction false} Joins(d: Expr, op: Op, e: Expr, tables: Tables)
    requires WellFormedExpr(d, tables) && WellFormedExpr(e, tables)
    ensures WellFormedExpr(Append(d, op, e), tables)
    ensures PrintExpr(Append(d, op, e)) == PrintExpr(d) + [if op.OpAnd? then "AND" else "OR"] + PrintExpr(e)
  {
    match d
    case Single(t) =>
    case Chain(t, o, rest) => Joins(rest, op, e, tables);
  }
}
