/** Tokens and their classification (`src/lexer/token.rs`). */
module Tokens {
  import opened Text

  datatype Token =
    | Error | Unsupported | Nil
    | Identifier | IdentifierWithWildcard | IdentifierAll
    | LitEof
    | SepLpar | SepRpar | SepPipe
    | OpEq | OpGt | OpGte | OpLt | OpLte
    | KeywordAnd | KeywordOr | KeywordNot | KeywordAgg
    | StmtOneOf | StmtAllOf

  datatype Item = Item(token: Token, value: string)

  const ONE_OF := "1 of"
  const ALL_OF := "all of"

  predicate IsAggregation(s: string) {
    || EqIgnoreCase(s, "sum") || EqIgnoreCase(s, "min") || EqIgnoreCase(s, "max")
    || EqIgnoreCase(s, "count") || EqIgnoreCase(s, "avg")
  }

  /** "all of" with any letter case and any whitespace inside and around. */
  predicate IsAllOf(s: string) {
    var t := Trim(s);
    |t| >= 6 && EqIgnoreCase(t[..3], "all") && EqIgnoreCase(Trim(t[3..]), "of")
  }

  function CheckKeyword(s: string): (t: Token)
    ensures t.Nil? <==> s == ""
    ensures t in {Nil, KeywordAnd, KeywordOr, KeywordNot, KeywordAgg, IdentifierAll,
                  StmtOneOf, StmtAllOf, IdentifierWithWildcard, Identifier}
  {
    if s == "" then Nil
    else if EqIgnoreCase(s, "and") then KeywordAnd
    else if EqIgnoreCase(s, "or") then KeywordOr
    else if EqIgnoreCase(s, "not") then KeywordNot
    else if IsAggregation(s) then KeywordAgg
    else if EqIgnoreCase(s, "them") then IdentifierAll
    else if s == ONE_OF then StmtOneOf
    else if IsAllOf(s) then StmtAllOf
    else if '*' in s || '?' in s then IdentifierWithWildcard
    else Identifier
  }

  lemma {:induction false} TrimEndKeeps(s: string, c: char)
    requires !IsWhitespace(c)
    ensures |TrimEnd(s)| <= |s| && (c in s <==> c in TrimEnd(s))
  {
    if s != "" && IsWhitespace(s[|s| - 1]) {
      TrimEndKeeps(s[..|s| - 1], c);
      assert s == s[..|s| - 1] + [s[|s| - 1]];
    }
  }

  lemma {:induction false} TrimStartKeeps(s: string, c: char)
    requires !IsWhitespace(c)
    ensures c in s <==> c in TrimStart(s)
  {
    if s != "" && IsWhitespace(s[0]) {
      TrimStartKeeps(s[1..], c);
      assert s == [s[0]] + s[1..];
    }
  }

  lemma TrimKeeps(s: string, c: char)
    requires !IsWhitespace(c)
    ensures |Trim(s)| <= |s| && (c in s <==> c in Trim(s))
  {
    TrimStartKeeps(s, c);
    TrimEndKeeps(TrimStart(s), c);
  }

  lemma NoWildcardIn(s: string, t: string, c: char)
    requires EqIgnoreCase(s, t) && (c == '*' || c == '?')
    requires forall i :: 0 <= i < |t| ==> LowerAscii(t[i]) != c
    ensures c !in s
  {
  }

  lemma AllOfHasNoWildcard(s: string, c: char)
    requires IsAllOf(s) && (c == '*' || c == '?')
    ensures c !in s && |s| >= 6
  {
    var t := Trim(s);
    TrimKeeps(s, c);
    TrimKeeps(t[3..], c);
    NoWildcardIn(t[..3], "all", c);
    NoWildcardIn(Trim(t[3..]), "of", c);
    assert t == t[..3] + t[3..];
  }

  /** Two words of different length, or with a different letter somewhere, are not the same keyword. */
  lemma Different(s: string, t: string, u: string, i: nat)
    requires EqIgnoreCase(s, t)
    requires |t| != |u| || (i < |t| && LowerAscii(t[i]) != LowerAscii(u[i]))
    ensures !EqIgnoreCase(s, u)
  {
  }

  lemma AndOrNot(s: string)
    ensures CheckKeyword(s) == KeywordAnd <==> EqIgnoreCase(s, "and")
    ensures CheckKeyword(s) == KeywordOr <==> EqIgnoreCase(s, "or")
    ensures CheckKeyword(s) == KeywordNot <==> EqIgnoreCase(s, "not")
  {
    if EqIgnoreCase(s, "not") {
      Different(s, "not", "and", 0);
      Different(s, "not", "or", 0);
    }
    if EqIgnoreCase(s, "or") {
      Different(s, "or", "and", 0);
    }
  }

  lemma Aggregations(s: string)
    ensures CheckKeyword(s) == KeywordAgg <==> IsAggregation(s)
    ensures IsAggregation(s) || EqIgnoreCase(s, "and") || EqIgnoreCase(s, "or") || EqIgnoreCase(s, "not") ==>
              |s| != 4 && |s| < 6 && s != ""
  {
    if EqIgnoreCase(s, "and") || EqIgnoreCase(s, "not") {
      assert LowerAscii(s[1]) == 'n' || LowerAscii(s[1]) == 'o';
    }
  }

  predicate IsFixedWord(s: string) {
    || EqIgnoreCase(s, "and") || EqIgnoreCase(s, "or") || EqIgnoreCase(s, "not") || EqIgnoreCase(s, "them")
    || IsAggregation(s) || s == ONE_OF
  }

  lemma FixedWordHasNoWildcard(s: string)
    requires IsFixedWord(s)
    ensures '*' !in s && '?' !in s
  {
  }

  /** "all" and "of" in any letter case, whitespace between them and perhaps around. */
  ghost predicate SpellsAllOf(s: string) {
    exists before, first, gap, second, after :: AllOfLayout(s, before, first, gap, second, after)
  }

  ghost predicate AllOfLayout(s: string, before: string, first: string, gap: string, second: string, after: string) {
    && s == before + ((first + (gap + second)) + after)
    && AllWhitespace(before) && AllWhitespace(gap) && AllWhitespace(after) && gap != ""
    && SameLetters(first, "all") && SameLetters(second, "of")
  }

  lemma AllOfIsSpelled(s: string)
    requires IsAllOf(s)
    ensures SpellsAllOf(s)
  {
    var before, after := TrimIs(s);
    var t := Trim(s);
    var gap, rest := TrimIs(t[3..]);
    var second := Trim(t[3..]);
    EqIgnoreCaseIsSameLetters(t[..3], "all");
    EqIgnoreCaseIsSameLetters(second, "of");
    var end := t[3..];
    assert end[|end| - 1] == t[|t| - 1] && !IsWhitespace(t[|t| - 1]);
    assert end == (gap + second) + rest;
    assert rest == "";
    assert second + rest == second;
    assert t == t[..3] + t[3..];
    assert AllOfLayout(s, before, t[..3], gap, second, after);
  }

  lemma SpelledIsAllOf(s: string, before: string, first: string, gap: string, second: string, after: string)
    requires AllOfLayout(s, before, first, gap, second, after)
    ensures IsAllOf(s)
  {
    EqIgnoreCaseIsSameLetters(first, "all");
    EqIgnoreCaseIsSameLetters(second, "of");
    assert LowerAscii(first[0]) == 'a' && LowerAscii(second[0]) == 'o' && LowerAscii(second[1]) == 'f';
    var t := first + (gap + second);
    assert t[0] == first[0] && t[|t| - 1] == second[1];
    TrimAround(before, t, after);
    assert t[..3] == first && t[3..] == gap + (second + "");
    TrimAround(gap, second, "");
  }

  lemma IsAllOfSpelling(s: string)
    ensures IsAllOf(s) <==> SpellsAllOf(s)
  {
    if IsAllOf(s) {
      AllOfIsSpelled(s);
    }
    if before, first, gap, second, after :| AllOfLayout(s, before, first, gap, second, after) {
      SpelledIsAllOf(s, before, first, gap, second, after);
    }
  }

  /** Each kind is given to exactly the words it names, in any letter case; the order of the tests does not matter. */
  lemma KindsByText(s: string)
    ensures CheckKeyword(s) == KeywordAnd <==> SameLetters(s, "and")
    ensures CheckKeyword(s) == KeywordOr <==> SameLetters(s, "or")
    ensures CheckKeyword(s) == KeywordNot <==> SameLetters(s, "not")
    ensures CheckKeyword(s) == KeywordAgg
            <==> SameLetters(s, "sum") || SameLetters(s, "min") || SameLetters(s, "max") || SameLetters(s, "count")
                 || SameLetters(s, "avg")
    ensures CheckKeyword(s) == IdentifierAll <==> SameLetters(s, "them")
    ensures CheckKeyword(s) == StmtOneOf <==> s == "1 of"
    ensures CheckKeyword(s) == StmtAllOf <==> SpellsAllOf(s)
    ensures CheckKeyword(s) == IdentifierWithWildcard <==> '*' in s || '?' in s
  {
    FixedWords(s);
    IsAllOfSpelling(s);
    KindsDoNotOverlap(s);
  }

  lemma FixedWords(s: string)
    ensures EqIgnoreCase(s, "and") <==> SameLetters(s, "and")
    ensures EqIgnoreCase(s, "or") <==> SameLetters(s, "or")
    ensures EqIgnoreCase(s, "not") <==> SameLetters(s, "not")
    ensures EqIgnoreCase(s, "them") <==> SameLetters(s, "them")
    ensures IsAggregation(s)
            <==> SameLetters(s, "sum") || SameLetters(s, "min") || SameLetters(s, "max") || SameLetters(s, "count")
                 || SameLetters(s, "avg")
  {
    EqIgnoreCaseIsSameLetters(s, "and");
    EqIgnoreCaseIsSameLetters(s, "or");
    EqIgnoreCaseIsSameLetters(s, "not");
    EqIgnoreCaseIsSameLetters(s, "them");
    EqIgnoreCaseIsSameLetters(s, "sum");
    EqIgnoreCaseIsSameLetters(s, "min");
    EqIgnoreCaseIsSameLetters(s, "max");
    EqIgnoreCaseIsSameLetters(s, "count");
    EqIgnoreCaseIsSameLetters(s, "avg");
  }

  /** At most one of the tests holds. */
  lemma KindsDoNotOverlap(s: string)
    ensures CheckKeyword(s) == KeywordAnd <==> EqIgnoreCase(s, "and")
    ensures CheckKeyword(s) == KeywordOr <==> EqIgnoreCase(s, "or")
    ensures CheckKeyword(s) == KeywordNot <==> EqIgnoreCase(s, "not")
    ensures CheckKeyword(s) == KeywordAgg <==> IsAggregation(s)
    ensures CheckKeyword(s) == IdentifierAll <==> EqIgnoreCase(s, "them")
    ensures CheckKeyword(s) == StmtOneOf <==> s == ONE_OF
    ensures CheckKeyword(s) == StmtAllOf <==> IsAllOf(s)
    ensures CheckKeyword(s) == IdentifierWithWildcard <==> '*' in s || '?' in s
  {
    AndOrNot(s);
    Aggregations(s);
    if IsAllOf(s) {
      AllOfHasNoWildcard(s, '*');
      AllOfHasNoWildcard(s, '?');
    }
    if IsFixedWord(s) {
      FixedWordHasNoWildcard(s);
    }
    if s == ONE_OF {
      assert s[0] == '1';
    }
  }
}
