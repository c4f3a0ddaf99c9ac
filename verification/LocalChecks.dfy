/** The parser's checks before building: neighbouring tokens and counted parentheses (`src/parser/mod.rs`). Together
    they decide exactly whether a token list is a printed condition. */
module LocalChecks {
  import opened Wrappers
  import opened Tokens
  import opened Validation
  import opened Grammar
  import opened Errors

  const MAX_RECURSION_DEPTH := 50

  /** The first parenthesis error, scanning with `depth` groups open and at most `limit` allowed. */
  function ParenCheck(ts: seq<Item>, depth: nat, limit: nat): Option<ParseError> {
    if ts == [] then if depth == 0 then None else Some(UnbalancedParentheses)
    else match ts[0].token
      case SepLpar =>
        if depth + 1 > limit then Some(RecursionLimitExceeded(depth + 1, limit))
        else ParenCheck(ts[1..], depth + 1, limit)
      case SepRpar =>
        if depth == 0 then Some(UnmatchedClosingParenthesis) else ParenCheck(ts[1..], depth - 1, limit)
      case _ => ParenCheck(ts[1..], depth, limit)
  }

  /** `validate_parentheses`. */
  method ValidateParentheses(tokens: seq<Item>) returns (error: Option<ParseError>)
    ensures error == ParenCheck(tokens, 0, MAX_RECURSION_DEPTH)
    ensures IsAnswer(tokens, 0, 50, error)
  {
    ParensByHeight(tokens, 0, MAX_RECURSION_DEPTH);
    var depth: nat, maxDepth: nat := 0, 0;
    assert tokens[0..] == tokens;
    for i := 0 to |tokens|
      invariant depth <= maxDepth <= MAX_RECURSION_DEPTH
      invariant ParenCheck(tokens[i..], depth, MAX_RECURSION_DEPTH) == ParenCheck(tokens, 0, MAX_RECURSION_DEPTH)
    {
      assert tokens[i..][1..] == tokens[i + 1..];
      match tokens[i].token {
        case SepLpar =>
          depth := depth + 1;
          maxDepth := if maxDepth < depth then depth else maxDepth;
          if maxDepth > MAX_RECURSION_DEPTH {
            return Some(RecursionLimitExceeded(maxDepth, MAX_RECURSION_DEPTH));
          }
        case SepRpar =>
          if depth == 0 {
            return Some(UnmatchedClosingParenthesis);
          }
          depth := depth - 1;
        case _ =>
      }
    }
    if depth != 0 {
      return Some(UnbalancedParentheses);
    }
    return None;
  }

  // ----- the same said by counting

  /** The groups opened less those closed. */
  function Height(ts: seq<Item>): int {
    if ts == [] then 0
    else (match ts[0].token case SepLpar => 1 case SepRpar => -1 case _ => 0) + Height(ts[1..])
  }

  /** With `depth` groups open before, there are never less than none or more than `limit` up to the `n`-th token. */
  ghost predicate HeightsWithin(ts: seq<Item>, depth: int, limit: nat, n: int) {
    0 <= n <= |ts| && forall m :: 0 <= m <= n ==> 0 <= depth + Height(ts[..m]) <= limit
  }

  /** Up to the `n`-th token all is well, and that one takes the number of open groups to `height`. */
  ghost predicate BreaksAt(ts: seq<Item>, depth: int, limit: nat, n: int, height: int) {
    0 <= n < |ts| && HeightsWithin(ts, depth, limit, n) && depth + Height(ts[..n + 1]) == height
  }

  ghost predicate Breaks(ts: seq<Item>, depth: int, limit: nat, height: int) {
    exists n :: BreaksAt(ts, depth, limit, n, height)
  }

  lemma HeightsNext(ts: seq<Item>, depth: int, limit: nat, n: int)
    requires ts != [] && 0 <= depth <= limit && 0 < n <= |ts|
    ensures var depth' := depth + Height(ts[..1]);
      && (HeightsWithin(ts, depth, limit, n) <==> HeightsWithin(ts[1..], depth', limit, n - 1))
      && depth + Height(ts[..n]) == depth' + Height(ts[1..][..n - 1])
  {
    var depth' := depth + Height(ts[..1]);
    assert ts[..1][1..] == [];
    forall m | 0 < m <= |ts| ensures Height(ts[..m]) == Height(ts[..1]) + Height(ts[1..][..m - 1]) {
      assert ts[..m][1..] == ts[1..][..m - 1];
    }
    if HeightsWithin(ts, depth, limit, n) {
      forall m | 0 <= m <= n - 1 ensures 0 <= depth' + Height(ts[1..][..m]) <= limit {
        assert 0 <= depth + Height(ts[..m + 1]) <= limit;
      }
    }
    if HeightsWithin(ts[1..], depth', limit, n - 1) {
      forall m | 0 <= m <= n ensures 0 <= depth + Height(ts[..m]) <= limit {
        if m > 0 {
          assert 0 <= depth' + Height(ts[1..][..m - 1]) <= limit;
        }
      }
    }
  }

  /** No error exactly if no more than `limit` groups are ever open and all are closed again, never before they are
      opened; otherwise the first thing that goes wrong. */
  ghost predicate IsAnswer(ts: seq<Item>, depth: int, limit: nat, error: Option<ParseError>) {
    match error
    case None => HeightsWithin(ts, depth, limit, |ts|) && depth + Height(ts) == 0
    case Some(RecursionLimitExceeded(current, most)) =>
      current == limit + 1 && most == limit && Breaks(ts, depth, limit, limit + 1)
    case Some(UnmatchedClosingParenthesis) => Breaks(ts, depth, limit, -1)
    case Some(UnbalancedParentheses) => HeightsWithin(ts, depth, limit, |ts|) && depth + Height(ts) > 0
    case Some(_) => false
  }

  /** What the parenthesis check answers. */
  lemma {:induction false} ParensByHeight(ts: seq<Item>, depth: nat, limit: nat)
    requires depth <= limit
    ensures IsAnswer(ts, depth, limit, ParenCheck(ts, depth, limit))
    decreases |ts|
  {
    assert ts[..0] == [];
    if ts != [] {
      var depth' := depth + Height(ts[..1]);
      assert ts[..1][1..] == [] && ts[..1][0] == ts[0];
      if 0 <= depth' <= limit {
        ParensByHeight(ts[1..], depth', limit);
        AnswerLater(ts, depth, limit, ParenCheck(ts, depth, limit));
      } else {
        assert BreaksAt(ts, depth, limit, 0, depth');
      }
    } else {
      assert ts[..|ts|] == ts;
    }
  }

  lemma AnswerLater(ts: seq<Item>, depth: int, limit: nat, error: Option<ParseError>)
    requires ts != [] && 0 <= depth <= limit && IsAnswer(ts[1..], depth + Height(ts[..1]), limit, error)
    ensures IsAnswer(ts, depth, limit, error)
  {
    HeightsLater(ts, depth, limit);
    BreaksLater(ts, depth, limit, limit + 1);
    BreaksLater(ts, depth, limit, -1);
  }

  lemma HeightsLater(ts: seq<Item>, depth: int, limit: nat)
    requires ts != [] && 0 <= depth <= limit
    ensures var depth' := depth + Height(ts[..1]);
      && (HeightsWithin(ts, depth, limit, |ts|) <==> HeightsWithin(ts[1..], depth', limit, |ts| - 1))
      && depth + Height(ts) == depth' + Height(ts[1..])
  {
    HeightsNext(ts, depth, limit, |ts|);
    assert ts[..|ts|] == ts && ts[1..][..|ts| - 1] == ts[1..];
  }

  lemma BreaksLater(ts: seq<Item>, depth: int, limit: nat, height: int)
    requires ts != [] && 0 <= depth <= limit
    ensures Breaks(ts[1..], depth + Height(ts[..1]), limit, height) ==> Breaks(ts, depth, limit, height)
  {
    var depth' := depth + Height(ts[..1]);
    if Breaks(ts[1..], depth', limit, height) {
      var n :| BreaksAt(ts[1..], depth', limit, n, height);
      HeightsNext(ts, depth, limit, n + 1);
      HeightsNext(ts, depth, limit, n + 2);
      assert BreaksAt(ts, depth, limit, n + 1, height);
    }
  }

  // ----- what the pairwise check leaves open

  predicate IsStatement(t: Token) {
    t == StmtAllOf || t == StmtOneOf
  }

  predicate IsTarget(t: Token) {
    t == IdentifierAll || t == IdentifierWithWildcard
  }

  /** No statement before a plain identifier, no wildcard identifier except after a statement, no empty group. */
  predicate Neighbours(t1: Token, t2: Token) {
    && (IsStatement(t1) ==> t2 != Identifier)
    && (t2 == IdentifierWithWildcard ==> IsStatement(t1))
    && !(t1 == SepLpar && t2 == SepRpar)
  }

  predicate Disciplined(prev: Token, ts: seq<Item>)
    decreases |ts|
  {
    ts == [] || (Neighbours(prev, ts[0].token) && Disciplined(ts[0].token, ts[1..]))
  }

  /** A list the local checks pass: a legal first token, every adjacent pair (the end of input included) allowed,
      parentheses balanced and not too deep, and `Disciplined`. */
  predicate PassesLocalChecks(ts: seq<Item>) {
    && ts != [] && BeginLegal(ts[0].token)
    && PairsOk(ts[0].token, ts[1..] + [Item(LitEof, "")])
    && ParenCheck(ts, 0, MAX_RECURSION_DEPTH) == None
    && Disciplined(Nil, ts)
  }

  // ----- one predicate for the pairwise part, following the list

  predicate Follows(t1: Token, t2: Token) {
    ValidTokenSequence(t1, t2) && Neighbours(t1, t2)
  }

  predicate Joined(prev: Token, ts: seq<Item>)
    decreases |ts|
  {
    if ts == [] then ValidTokenSequence(prev, LitEof)
    else Follows(prev, ts[0].token) && Joined(ts[0].token, ts[1..])
  }

  /** A condition, or a factor after a connective or a negation, starts here. */
  predicate Opens(t: Token) {
    t.SepLpar? || t.KeywordAnd? || t.KeywordOr? || t.KeywordNot?
  }

  lemma {:induction false} JoinedMeans(prev: Token, ts: seq<Item>)
    ensures Joined(prev, ts) <==> PairsOk(prev, ts + [Item(LitEof, "")]) && Disciplined(prev, ts)
    decreases |ts|
  {
    if ts == [] {
      assert (ts + [Item(LitEof, "")])[1..] == [];
    } else {
      assert (ts + [Item(LitEof, "")])[1..] == ts[1..] + [Item(LitEof, "")];
      JoinedMeans(ts[0].token, ts[1..]);
    }
  }

  lemma LocalChecksAreJoined(ts: seq<Item>)
    ensures PassesLocalChecks(ts) <==> Joined(SepLpar, ts) && ParenCheck(ts, 0, MAX_RECURSION_DEPTH) == None
  {
    if ts != [] {
      JoinedMeans(ts[0].token, ts[1..]);
    }
  }

  predicate EndsAtom(t: Token) {
    t.Identifier? || t.IdentifierAll? || t.IdentifierWithWildcard? || t.SepRpar?
  }

  /** The four tokens that can end an atom may be followed by the same things. */
  lemma EndersAlike(t: Token, ts: seq<Item>)
    requires EndsAtom(t)
    ensures Joined(t, ts) == Joined(Identifier, ts)
  {
  }

  // ----- a printing passes

  lemma {:induction false} JoinedAtom(prev: Token, a: Atom, k: seq<Item>)
    requires (prev.SepLpar? || prev.KeywordAnd? || prev.KeywordOr? || prev.KeywordNot?)
    ensures Joined(prev, PrintAtom(a, k)) == Joined(Identifier, k)
    decreases a
  {
    match a
    case Name(n) => assert PrintAtom(a, k)[1..] == k;
    case Group(c) =>
      assert PrintAtom(a, k)[1..] == PrintCond(c, [RPAR] + k);
      JoinedCond(SepLpar, c, [RPAR] + k);
      assert ([RPAR] + k)[1..] == k;
      EndersAlike(SepRpar, k);
    case Quantified(all, target) =>
      var tail := [TargetItem(target)] + k;
      assert PrintAtom(a, k)[1..] == tail && tail[1..] == k;
      EndersAlike(TargetItem(target).token, k);
  }

  lemma {:induction false} JoinedFactor(prev: Token, f: Factor, k: seq<Item>)
    requires (prev.SepLpar? || prev.KeywordAnd? || prev.KeywordOr?)
    ensures Joined(prev, PrintFactor(f, k)) == Joined(Identifier, k)
    decreases f
  {
    if f.negated {
      assert PrintFactor(f, k)[1..] == PrintAtom(f.atom, k);
      JoinedAtom(KeywordNot, f.atom, k);
    } else {
      JoinedAtom(prev, f.atom, k);
    }
  }

  lemma {:induction false} JoinedConj(prev: Token, c: Conj, k: seq<Item>)
    requires (prev.SepLpar? || prev.KeywordAnd? || prev.KeywordOr?)
    ensures Joined(prev, PrintConj(c, k)) == Joined(Identifier, k)
    decreases c
  {
    match c
    case Single(f) => JoinedFactor(prev, f, k);
    case And(f, rest) =>
      var tail := [AND] + PrintConj(rest, k);
      JoinedFactor(prev, f, tail);
      assert tail[1..] == PrintConj(rest, k);
      JoinedConj(KeywordAnd, rest, k);
  }

  lemma {:induction false} JoinedCond(prev: Token, c: Cond, k: seq<Item>)
    requires (prev.SepLpar? || prev.KeywordOr?)
    ensures Joined(prev, PrintCond(c, k)) == Joined(Identifier, k)
    decreases c
  {
    match c
    case Term(conj) => JoinedConj(prev, conj, k);
    case Or(conj, rest) =>
      var tail := [OR] + PrintCond(rest, k);
      JoinedConj(prev, conj, tail);
      assert tail[1..] == PrintCond(rest, k);
      JoinedCond(KeywordOr, rest, k);
  }

  /** Scanning a printing costs exactly its nesting and leaves the depth where it was. */
  lemma {:induction false} ParensAtom(a: Atom, k: seq<Item>, depth: nat, limit: nat)
    requires depth <= limit
    ensures depth + NestingAtom(a) <= limit ==> ParenCheck(PrintAtom(a, k), depth, limit) == ParenCheck(k, depth, limit)
    ensures depth + NestingAtom(a) > limit ==> ParenCheck(PrintAtom(a, k), depth, limit) != None
    decreases a
  {
    match a
    case Name(n) => assert PrintAtom(a, k)[1..] == k;
    case Group(c) =>
      assert PrintAtom(a, k)[1..] == PrintCond(c, [RPAR] + k);
      if depth < limit {
        ParensCond(c, [RPAR] + k, depth + 1, limit);
        assert ([RPAR] + k)[1..] == k;
      }
    case Quantified(all, target) =>
      var tail := [TargetItem(target)] + k;
      assert PrintAtom(a, k)[1..] == tail && tail[1..] == k;
  }

  lemma {:induction false} ParensFactor(f: Factor, k: seq<Item>, depth: nat, limit: nat)
    requires depth <= limit
    ensures depth + NestingAtom(f.atom) <= limit
            ==> ParenCheck(PrintFactor(f, k), depth, limit) == ParenCheck(k, depth, limit)
    ensures depth + NestingAtom(f.atom) > limit ==> ParenCheck(PrintFactor(f, k), depth, limit) != None
    decreases f
  {
    ParensAtom(f.atom, k, depth, limit);
    if f.negated {
      assert PrintFactor(f, k)[1..] == PrintAtom(f.atom, k);
    }
  }

  lemma {:induction false} ParensConj(c: Conj, k: seq<Item>, depth: nat, limit: nat)
    requires depth <= limit
    ensures depth + NestingConj(c) <= limit ==> ParenCheck(PrintConj(c, k), depth, limit) == ParenCheck(k, depth, limit)
    ensures depth + NestingConj(c) > limit ==> ParenCheck(PrintConj(c, k), depth, limit) != None
    decreases c
  {
    match c
    case Single(f) => ParensFactor(f, k, depth, limit);
    case And(f, rest) =>
      var tail := [AND] + PrintConj(rest, k);
      ParensFactor(f, tail, depth, limit);
      assert tail[1..] == PrintConj(rest, k);
      ParensConj(rest, k, depth, limit);
  }

  lemma {:induction false} ParensCond(c: Cond, k: seq<Item>, depth: nat, limit: nat)
    requires depth <= limit
    ensures depth + Nesting(c) <= limit ==> ParenCheck(PrintCond(c, k), depth, limit) == ParenCheck(k, depth, limit)
    ensures depth + Nesting(c) > limit ==> ParenCheck(PrintCond(c, k), depth, limit) != None
    decreases c
  {
    match c
    case Term(conj) => ParensConj(conj, k, depth, limit);
    case Or(conj, rest) =>
      var tail := [OR] + PrintCond(rest, k);
      ParensConj(conj, tail, depth, limit);
      assert tail[1..] == PrintCond(rest, k);
      ParensCond(rest, k, depth, limit);
  }

  /** A printed condition passes the local checks exactly when it is nested at most fifty deep. */
  lemma PrintingPasses(c: Cond)
    ensures PassesLocalChecks(Print(c)) <==> Nesting(c) <= 50
  {
    LocalChecksAreJoined(Print(c));
    JoinedCond(SepLpar, c, []);
    ParensCond(c, [], 0, MAX_RECURSION_DEPTH);
  }

  // ----- a list that passes can be read

  lemma AtomStart(prev: Token, t: Token)
    requires Opens(prev) && Follows(prev, t) && t != KeywordNot
    ensures t == Identifier || t == SepLpar || IsStatement(t)
  {
  }

  lemma {:induction false} ReadsAtom(prev: Token, ts: seq<Item>, depth: nat, limit: nat)
    requires Opens(prev) && !NextIs(ts, KeywordNot)
    requires Joined(prev, ts) && ParenCheck(ts, depth, limit) == None
    ensures ParseAtom(ts).Some?
    ensures var rest := ParseAtom(ts).value.1; Joined(Identifier, rest) && ParenCheck(rest, depth, limit) == None
    decreases |ts|, 0
  {
    AtomStart(prev, ts[0].token);
    assert Joined(ts[0].token, ts[1..]);
    if ts[0].token == SepLpar {
      assert ParenCheck(ts[1..], depth + 1, limit) == None;
      ReadsCond(SepLpar, ts[1..], depth + 1, limit);
      ReadsGroup(ts, depth, limit);
    } else if ts[0].token == Identifier {
      assert ParenCheck(ts[1..], depth, limit) == None;
    } else {
      assert ParenCheck(ts[1..], depth, limit) == None;
      ReadsTarget(ts, depth, limit);
    }
  }

  lemma ReadsGroup(ts: seq<Item>, depth: nat, limit: nat)
    requires NextIs(ts, SepLpar) && ParseCond(ts[1..]).Some?
    requires var rest := ParseCond(ts[1..]).value.1;
      NextIs(rest, SepRpar) && Joined(Identifier, rest) && ParenCheck(rest, depth + 1, limit) == None
    ensures ParseAtom(ts).Some?
    ensures var rest := ParseAtom(ts).value.1; Joined(Identifier, rest) && ParenCheck(rest, depth, limit) == None
  {
    var rest := ParseCond(ts[1..]).value.1;
    EndersAlike(SepRpar, rest[1..]);
  }

  lemma TargetAfterStatement(t1: Token, t2: Token)
    requires IsStatement(t1) && Follows(t1, t2)
    ensures t2 == IdentifierAll || t2 == IdentifierWithWildcard
  {
  }

  lemma ReadsTarget(ts: seq<Item>, depth: nat, limit: nat)
    requires ts != [] && IsStatement(ts[0].token)
    requires Joined(ts[0].token, ts[1..]) && ParenCheck(ts[1..], depth, limit) == None
    ensures ParseAtom(ts).Some?
    ensures var rest := ParseAtom(ts).value.1; Joined(Identifier, rest) && ParenCheck(rest, depth, limit) == None
  {
    var tail := ts[1..];
    TargetAfterStatement(ts[0].token, tail[0].token);
    assert tail[1..] == ts[2..];
    EndersAlike(ts[1].token, ts[2..]);
  }

  lemma {:induction false} ReadsFactor(prev: Token, ts: seq<Item>, depth: nat, limit: nat)
    requires (prev.SepLpar? || prev.KeywordAnd? || prev.KeywordOr?)
    requires Joined(prev, ts) && ParenCheck(ts, depth, limit) == None
    ensures ParseFactor(ts).Some?
    ensures var rest := ParseFactor(ts).value.1; Joined(Identifier, rest) && ParenCheck(rest, depth, limit) == None
    decreases |ts|, 1
  {
    if NextIs(ts, KeywordNot) {
      ReadsAtom(KeywordNot, ts[1..], depth, limit);
    } else {
      ReadsAtom(prev, ts, depth, limit);
    }
  }

  lemma {:induction false} ReadsConj(prev: Token, ts: seq<Item>, depth: nat, limit: nat)
    requires (prev.SepLpar? || prev.KeywordAnd? || prev.KeywordOr?)
    requires Joined(prev, ts) && ParenCheck(ts, depth, limit) == None
    ensures ParseConj(ts).Some?
    ensures var rest := ParseConj(ts).value.1;
      Joined(Identifier, rest) && ParenCheck(rest, depth, limit) == None && !NextIs(rest, KeywordAnd)
    decreases |ts|, 2
  {
    ReadsFactor(prev, ts, depth, limit);
    var rest := ParseFactor(ts).value.1;
    if NextIs(rest, KeywordAnd) {
      ReadsConj(KeywordAnd, rest[1..], depth, limit);
    }
  }

  lemma {:induction false} ReadsCond(prev: Token, ts: seq<Item>, depth: nat, limit: nat)
    requires (prev.SepLpar? || prev.KeywordOr?)
    requires Joined(prev, ts) && ParenCheck(ts, depth, limit) == None
    ensures ParseCond(ts).Some?
    ensures var rest := ParseCond(ts).value.1;
      && ParenCheck(rest, depth, limit) == None
      && (if depth == 0 then rest == [] else NextIs(rest, SepRpar) && Joined(Identifier, rest))
    decreases |ts|, 3
  {
    ReadsConj(prev, ts, depth, limit);
    var rest := ParseConj(ts).value.1;
    if NextIs(rest, KeywordOr) {
      ReadsCond(KeywordOr, rest[1..], depth, limit);
    } else if rest != [] {
      OnlyClosing(rest);
    }
  }

  /** After an atom come the end, a connective or a `)`; a pipe could only be followed by what collecting refuses. */
  lemma OnlyClosing(ts: seq<Item>)
    requires ts != [] && Joined(Identifier, ts)
    ensures ts[0].token in {KeywordAnd, KeywordOr, SepRpar}
  {
    assert Joined(ts[0].token, ts[1..]);
  }

  lemma CanonicalNesting(ts: seq<Item>, depth: nat, limit: nat)
    ensures ParenCheck(CanonicalAll(ts), depth, limit) == ParenCheck(ts, depth, limit)
  {
    if ts != [] {
      assert CanonicalAll(ts)[1..] == CanonicalAll(ts[1..]);
    }
  }

  /** The local checks characterise the grammar: a list passes them exactly when it is, up to the spelling of its
      keywords, the printing of a condition nested at most fifty deep; `Parse` finds that condition. */
  lemma LocalChecksCharacteriseTheGrammar(ts: seq<Item>)
    ensures PassesLocalChecks(ts)
            <==> exists c :: Print(c) == CanonicalAll(ts) && Nesting(c) <= 50
    ensures PassesLocalChecks(ts) ==> Parse(ts).Some? && Print(Parse(ts).value) == CanonicalAll(ts)
  {
    LocalChecksAreJoined(ts);
    CanonicalPasses(ts);
    if PassesLocalChecks(ts) {
      ReadsCond(SepLpar, ts, 0, MAX_RECURSION_DEPTH);
      PrintParse(ts);
      PrintingPasses(Parse(ts).value);
    }
    forall c | Print(c) == CanonicalAll(ts) && Nesting(c) <= 50
      ensures PassesLocalChecks(ts)
    {
      PrintingPasses(c);
    }
  }

  /** The checks look at token kinds only. */
  lemma CanonicalPasses(ts: seq<Item>)
    ensures PassesLocalChecks(CanonicalAll(ts)) == PassesLocalChecks(ts)
  {
    LocalChecksAreJoined(ts);
    LocalChecksAreJoined(CanonicalAll(ts));
    CanonicalNesting(ts, 0, MAX_RECURSION_DEPTH);
    CanonicalJoined(SepLpar, ts);
  }

  lemma {:induction false} CanonicalJoined(prev: Token, ts: seq<Item>)
    ensures Joined(prev, CanonicalAll(ts)) == Joined(prev, ts)
    decreases |ts|
  {
    if ts != [] {
      assert CanonicalAll(ts)[1..] == CanonicalAll(ts[1..]);
      CanonicalJoined(ts[0].token, ts[1..]);
    }
  }
}
