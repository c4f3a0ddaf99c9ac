/** Boolean expressions over detection items, printed with parentheses only where precedence asks for them: `not` over
    `and` over `or`. The parser gives each back its three-valued meaning. */
module Expressions {
  import opened Wrappers
  import opened Grammar
  import opened LocalChecks
  import opened LexerProperties
  import opened Nodes
  import opened Detections
  import opened DetectionMeaning
  import opened Parsing
  import opened Compilation
  import opened EndToEnd

  datatype Expr =
    | Item(name: string)
    | Of(all: bool, target: Target)
    | Not(operand: Expr)
    | Both(left: Expr, right: Expr)
    | Either(left: Expr, right: Expr)

  /** How often `them` occurs. */
  function ThemsExpr(e: Expr): nat {
    match e
    case Item(_) => 0
    case Of(_, target) => if target.Them? then 1 else 0
    case Not(x) => ThemsExpr(x)
    case Both(l, r) => ThemsExpr(l) + ThemsExpr(r)
    case Either(l, r) => ThemsExpr(l) + ThemsExpr(r)
  }

  function Meaning(d: Denotation, e: Expr): Option<MatchResult>
    decreases e
  {
    match e
    case Item(n) => d.leaf(n)
    case Of(all, target) => (
      match MeanTarget(d, target)
      case None => None
      case Some(rs) => Some(if all then AllOf(rs) else AnyOf(rs)))
    case Not(x) => (
      match Meaning(d, x)
      case None => None
      case Some(r) => Some(Negation(r)))
    case Both(l, r) => (
      match (Meaning(d, l), Meaning(d.Skip(ThemsExpr(l)), r))
      case (Some(a), Some(b)) => Some(AllOf([a, b]))
      case _ => None)
    case Either(l, r) => (
      match (Meaning(d, l), Meaning(d.Skip(ThemsExpr(l)), r))
      case (Some(a), Some(b)) => Some(AnyOf([a, b]))
      case _ => None)
  }

  // ----- rendering at each level of precedence

  function JoinConj(a: Conj, b: Conj): Conj {
    match a
    case Single(f) => Conj.And(f, b)
    case And(f, rest) => Conj.And(f, JoinConj(rest, b))
  }

  function JoinCond(a: Cond, b: Cond): Cond {
    match a
    case Term(c) => Cond.Or(c, b)
    case Or(c, rest) => Cond.Or(c, JoinCond(rest, b))
  }

  function ToAtom(e: Expr): Atom
    decreases e, 0
  {
    match e
    case Item(n) => Name(n)
    case Of(all, target) => Quantified(all, target)
    case Not(x) => Group(Term(Single(Factor(true, ToAtom(x)))))
    case Both(l, r) => Group(Term(JoinConj(ToConj(l), ToConj(r))))
    case Either(l, r) => Group(JoinCond(ToCond(l), ToCond(r)))
  }

  function ToFactor(e: Expr): Factor
    decreases e, 1
  {
    if e.Not? then Factor(true, ToAtom(e.operand)) else Factor(false, ToAtom(e))
  }

  function ToConj(e: Expr): Conj
    decreases e, 2
  {
    if e.Both? then JoinConj(ToConj(e.left), ToConj(e.right)) else Single(ToFactor(e))
  }

  function ToCond(e: Expr): Cond
    decreases e, 3
  {
    if e.Either? then JoinCond(ToCond(e.left), ToCond(e.right)) else Term(ToConj(e))
  }

  // ----- rendering keeps the meaning

  /** Nothing is matched without being applicable. */
  ghost predicate CoherentDenotation(d: Denotation) {
    && (forall n :: d.leaf(n).Some? ==> (d.leaf(n).value.matched ==> d.leaf(n).value.applicable))
    && (forall i :: d.all(i).Some? ==> Coherent(d.all(i).value))
    && (forall p :: d.wild(p).Some? ==> Coherent(d.wild(p).value))
  }

  lemma {:induction false} MeaningIsCoherent(d: Denotation, e: Expr)
    requires CoherentDenotation(d)
    ensures Meaning(d, e).Some? ==> (Meaning(d, e).value.matched ==> Meaning(d, e).value.applicable)
    decreases e
  {
    match e
    case Item(_) =>
    case Of(_, target) =>
      var rs := MeanTarget(d, target);
      assert rs.Some? ==> Coherent(rs.value);
      if rs.Some? {
        AllOfMatched(rs.value);
      }
    case Not(x) => MeaningIsCoherent(d, x);
    case Both(l, r) =>
      if Meaning(d, e).Some? {
        AllOfMatched([Meaning(d, l).value, Meaning(d.Skip(ThemsExpr(l)), r).value]);
      }
    case Either(l, r) =>
      MeaningIsCoherent(d, l);
      MeaningIsCoherent(d.Skip(ThemsExpr(l)), r);
  }

  lemma AllOfPair(a: MatchResult, b: MatchResult)
    ensures AllOf([a, b]) == if !a.matched then a else if !b.matched then b else MATCHED
    ensures AllOf([a]) == if a.matched then MATCHED else a
  {
    assert [a, b][1..] == [b] && [b][1..] == [] && [a][1..] == [];
    assert AllOf([b]) == if b.matched then MATCHED else b;
  }

  lemma {:induction false} AllOfConcat(rs: seq<MatchResult>, rs': seq<MatchResult>)
    ensures AllOf(rs + rs') == AllOf([AllOf(rs), AllOf(rs')])
  {
    AllOfPair(AllOf(rs), AllOf(rs'));
    AllOfMatched(rs');
    if rs == [] {
      assert rs + rs' == rs';
    } else {
      assert (rs + rs')[1..] == rs[1..] + rs';
      AllOfConcat(rs[1..], rs');
      AllOfPair(AllOf(rs[1..]), AllOf(rs'));
    }
  }

  lemma {:induction false} AnyOfConcat(rs: seq<MatchResult>, rs': seq<MatchResult>)
    ensures AnyOf(rs + rs') == AnyOf([AnyOf(rs), AnyOf(rs')])
  {
    AnyOfPair(AnyOf(rs), AnyOf(rs'));
    if rs == [] {
      assert rs + rs' == rs';
    } else {
      assert (rs + rs')[1..] == rs[1..] + rs';
      AnyOfCons(rs + rs');
      AnyOfCons(rs);
      AnyOfConcat(rs[1..], rs');
      AnyOfPair(AnyOf(rs[1..]), AnyOf(rs'));
    }
  }

  lemma AnyOfPair(a: MatchResult, b: MatchResult)
    ensures AnyOf([a, b]) == MatchResult(a.matched || b.matched, a.applicable || b.applicable)
    ensures AnyOf([a]) == a
  {
    assert [a, b][1..] == [b] && [b][1..] == [] && [a][1..] == [];
    AnyOfCons([a, b]);
    AnyOfCons([b]);
    AnyOfCons([a]);
  }

  lemma {:induction false} JoinConjMeaning(d: Denotation, a: Conj, b: Conj)
    ensures ThemsConj(JoinConj(a, b)) == ThemsConj(a) + ThemsConj(b)
    ensures var d' := d.Skip(ThemsConj(a));
      MeanFactors(d, JoinConj(a, b)) ==
      if MeanFactors(d, a).Some? && MeanFactors(d', b).Some?
      then Some(MeanFactors(d, a).value + MeanFactors(d', b).value)
      else None
    decreases a
  {
    if a.And? {
      var next, d' := d.Skip(ThemsAtom(a.factor.atom)), d.Skip(ThemsConj(a));
      JoinConjMeaning(next, a.rest, b);
      assert next.Skip(ThemsConj(a.rest)) == d';
      if MeanFactors(d, JoinConj(a, b)).Some? {
        var r := MeanFactor(d, a.factor).value;
        var rs, rs' := MeanFactors(next, a.rest).value, MeanFactors(d', b).value;
        assert [r] + (rs + rs') == [r] + rs + rs';
      }
    }
  }

  lemma {:induction false} JoinCondMeaning(d: Denotation, a: Cond, b: Cond)
    ensures ThemsCond(JoinCond(a, b)) == ThemsCond(a) + ThemsCond(b)
    ensures var d' := d.Skip(ThemsCond(a));
      MeanTerms(d, JoinCond(a, b)) ==
      if MeanTerms(d, a).Some? && MeanTerms(d', b).Some? then Some(MeanTerms(d, a).value + MeanTerms(d', b).value)
      else None
    decreases a
  {
    if a.Or? {
      var next, d' := d.Skip(ThemsConj(a.conj)), d.Skip(ThemsCond(a));
      JoinCondMeaning(next, a.rest, b);
      assert next.Skip(ThemsCond(a.rest)) == d';
      if MeanTerms(d, JoinCond(a, b)).Some? {
        var r := AllOf(MeanFactors(d, a.conj).value);
        var rs, rs' := MeanTerms(next, a.rest).value, MeanTerms(d', b).value;
        assert [r] + (rs + rs') == [r] + rs + rs';
      }
    }
  }

  /** A conjunction's meaning, if its factors have one. */
  function MeanConj(d: Denotation, c: Conj): Option<MatchResult> {
    match MeanFactors(d, c)
    case None => None
    case Some(rs) => Some(AllOf(rs))
  }

  lemma TermMeaning(d: Denotation, c: Conj)
    ensures MeanCond(d, Term(c)) == MeanConj(d, c)
  {
    if MeanConj(d, c).Some? {
      AnyOfPair(MeanConj(d, c).value, MATCHED);
    }
  }

  lemma BothMeaning(d: Denotation, a: Conj, b: Conj)
    ensures var d' := d.Skip(ThemsConj(a));
      MeanConj(d, JoinConj(a, b)) ==
      if MeanConj(d, a).Some? && MeanConj(d', b).Some? then Some(AllOf([MeanConj(d, a).value, MeanConj(d', b).value]))
      else None
  {
    var d' := d.Skip(ThemsConj(a));
    JoinConjMeaning(d, a, b);
    if MeanConj(d, a).Some? && MeanConj(d', b).Some? {
      AllOfConcat(MeanFactors(d, a).value, MeanFactors(d', b).value);
    }
  }

  lemma EitherMeaning(d: Denotation, a: Cond, b: Cond)
    ensures var d' := d.Skip(ThemsCond(a));
      MeanCond(d, JoinCond(a, b)) ==
      if MeanCond(d, a).Some? && MeanCond(d', b).Some? then Some(AnyOf([MeanCond(d, a).value, MeanCond(d', b).value]))
      else None
  {
    var d' := d.Skip(ThemsCond(a));
    JoinCondMeaning(d, a, b);
    if MeanCond(d, a).Some? && MeanCond(d', b).Some? {
      AnyOfConcat(MeanTerms(d, a).value, MeanTerms(d', b).value);
    }
  }

  lemma SingleMeaning(d: Denotation, f: Factor)
    requires MeanFactor(d, f).Some? ==> (MeanFactor(d, f).value.matched ==> MeanFactor(d, f).value.applicable)
    ensures MeanConj(d, Single(f)) == MeanFactor(d, f)
  {
    if MeanFactor(d, f).Some? {
      AllOfPair(MeanFactor(d, f).value, MATCHED);
    }
  }

  lemma {:induction false} AtomKeepsMeaning(d: Denotation, e: Expr)
    requires CoherentDenotation(d)
    ensures ThemsAtom(ToAtom(e)) == ThemsExpr(e) && MeanAtom(d, ToAtom(e)) == Meaning(d, e)
    decreases e, 0
  {
    match e
    case Item(_) =>
    case Of(_, _) =>
    case Not(x) =>
      var f := Factor(true, ToAtom(x));
      AtomKeepsMeaning(d, x);
      MeaningIsCoherent(d, e);
      SingleMeaning(d, f);
      TermMeaning(d, Single(f));
      assert MeanFactor(d, f) == Meaning(d, e);
      assert ThemsCond(Term(Single(f))) == ThemsConj(Single(f)) == ThemsAtom(f.atom);
    case Both(l, r) =>
      ConjKeepsMeaning(d, l);
      ConjKeepsMeaning(d.Skip(ThemsExpr(l)), r);
      JoinConjMeaning(d, ToConj(l), ToConj(r));
      BothMeaning(d, ToConj(l), ToConj(r));
      TermMeaning(d, JoinConj(ToConj(l), ToConj(r)));
    case Either(l, r) =>
      CondKeepsMeaning(d, l);
      CondKeepsMeaning(d.Skip(ThemsExpr(l)), r);
      JoinCondMeaning(d, ToCond(l), ToCond(r));
      EitherMeaning(d, ToCond(l), ToCond(r));
  }

  lemma {:induction false} ConjKeepsMeaning(d: Denotation, e: Expr)
    requires CoherentDenotation(d)
    ensures ThemsConj(ToConj(e)) == ThemsExpr(e) && MeanConj(d, ToConj(e)) == Meaning(d, e)
    decreases e, 2
  {
    if e.Both? {
      ConjKeepsMeaning(d, e.left);
      ConjKeepsMeaning(d.Skip(ThemsExpr(e.left)), e.right);
      JoinConjMeaning(d, ToConj(e.left), ToConj(e.right));
      BothMeaning(d, ToConj(e.left), ToConj(e.right));
    } else {
      if e.Not? {
        AtomKeepsMeaning(d, e.operand);
      } else {
        AtomKeepsMeaning(d, e);
      }
      MeaningIsCoherent(d, e);
      SingleMeaning(d, ToFactor(e));
    }
  }

  /** Parentheses are left out only where precedence makes them superfluous. */
  lemma {:induction false} CondKeepsMeaning(d: Denotation, e: Expr)
    requires CoherentDenotation(d)
    ensures ThemsCond(ToCond(e)) == ThemsExpr(e) && MeanCond(d, ToCond(e)) == Meaning(d, e)
    decreases e, 3
  {
    if e.Either? {
      CondKeepsMeaning(d, e.left);
      CondKeepsMeaning(d.Skip(ThemsExpr(e.left)), e.right);
      JoinCondMeaning(d, ToCond(e.left), ToCond(e.right));
      EitherMeaning(d, ToCond(e.left), ToCond(e.right));
    } else {
      ConjKeepsMeaning(d, e);
      TermMeaning(d, ToConj(e));
    }
  }

  lemma DetectionIsCoherent(cfg: Config, det: Detection, event: Event)
    requires det.Valid()
    ensures CoherentDenotation(DetectionDenotation(cfg, det, event))
  {
    DetectionDenotes(cfg, det, event);
    var env, d := DetectionEnv(cfg, det), DetectionDenotation(cfg, det, event);
    forall n ensures d.leaf(n).Some? ==> (d.leaf(n).value.matched ==> d.leaf(n).value.applicable) {
      assert Agrees(env.leaf(n), d.leaf(n), event);
    }
    forall i ensures d.all(i).Some? ==> Coherent(d.all(i).value) {
      assert AllAgree(env.all(i), d.all(i), event);
    }
    forall p ensures d.wild(p).Some? ==> Coherent(d.wild(p).value) {
      assert AllAgree(env.wild(p), d.wild(p), event);
    }
  }

  /** End to end for expressions: written with the least parentheses and any layout, every expression within the limits
      is parsed into a tree that evaluates, on every event, to the expression's three-valued meaning. */
  lemma ExpressionMeansWhatItSays(limits: Limits, cfg: Config, det: Detection, e: Expr, gaps: seq<string>, event: Event)
    requires det.Valid()
    requires ProperItems(Print(ToCond(e))) && Spaced(Print(ToCond(e)), gaps)
    requires Fits(limits, 0, 0, Print(ToCond(e))) && Nesting(ToCond(e)) <= MAX_RECURSION_DEPTH
    ensures Agrees(RunResult(limits, DetectionEnv(cfg, det), Layout(Print(ToCond(e)), gaps)),
                   Meaning(DetectionDenotation(cfg, det, event), e), event)
  {
    ConditionMeansWhatItSays(limits, cfg, det, ToCond(e), gaps, event);
    DetectionIsCoherent(cfg, det, event);
    CondKeepsMeaning(DetectionDenotation(cfg, det, event), e);
  }
}
