/** Matching nodes and their three-valued results (`src/ast/nodes.rs`, `src/ast/mod.rs`). */
module Nodes {
  import opened Wrappers
  import opened Errors
  import opened Patterns

  /** Matched, not matched, or not applicable (neither flag). */
  datatype MatchResult = MatchResult(matched: bool, applicable: bool)

  const MATCHED := MatchResult(true, true)
  const NOT_MATCHED := MatchResult(false, true)
  const NOT_APPLICABLE := MatchResult(false, false)

  /** A field's value as the matchers see it: coerced to text, and to a number where that is possible. */
  datatype FieldValue = FieldValue(text: string, number: Option<int>)

  /** An event: its fields, and its keywords when keyword rules apply to it. */
  datatype Event = Event(select: string -> Option<FieldValue>, keywords: Option<seq<string>>)

  datatype FieldPattern =
    | Text(matcher: StringMatcher)
    | Numeric(value: int)
    | Keywords(keywords: seq<string>)

  datatype FieldRule = FieldRule(field: string, pattern: FieldPattern)
  {
    /** A rule never matches without applying; keywords match where the event has them all. */
    function Matches(event: Event): (r: MatchResult)
      ensures r.matched ==> r.applicable
      ensures pattern.Keywords? ==> (r.applicable <==> event.keywords.Some?)
      ensures pattern.Keywords? && event.keywords.Some?
              ==> (r.matched <==> forall k :: k in pattern.keywords ==> k in event.keywords.value)
    {
      match pattern
      case Text(matcher) => (
        match event.select(field)
        case None => NOT_APPLICABLE
        case Some(v) => MatchResult(matcher.StringMatch(v.text), true))
      case Numeric(n) => (
        match event.select(field)
        case None => NOT_APPLICABLE
        case Some(v) => if v.number == None then NOT_MATCHED else MatchResult(v.number.value == n, true))
      case Keywords(keywords) => (
        match event.keywords
        case None => NOT_APPLICABLE
        case Some(words) => MatchResult(forall i :: 0 <= i < |keywords| ==> keywords[i] in words, true))
    }
  }

  datatype Node =
    | Leaf(rule: FieldRule)
    | And(left: Node, right: Node)
    | Or(left: Node, right: Node)
    | Not(branch: Node)
    | SimpleAnd(branches: seq<Node>)
    | SimpleOr(branches: seq<Node>)

  // ----- evaluation

  /** The result of a node on an event. A node is matched only where it is applicable. */
  function Eval(node: Node, event: Event): (r: MatchResult)
    ensures r.matched ==> r.applicable
    decreases node
  {
    match node
    case Leaf(rule) => rule.Matches(event)
    case And(left, right) =>
      var l := Eval(left, event);
      if !l.matched then MatchResult(false, l.applicable)
      else
        var r := Eval(right, event);
        MatchResult(l.matched && r.matched, l.applicable && r.applicable)
    case Or(left, right) =>
      var l := Eval(left, event);
      if l.matched then MatchResult(true, l.applicable)
      else
        var r := Eval(right, event);
        MatchResult(l.matched || r.matched, l.applicable || r.applicable)
    case Not(branch) =>
      var r := Eval(branch, event);
      if !r.applicable then r else MatchResult(!r.matched, r.applicable)
    case SimpleAnd(branches) => EvalAnd(branches, event)
    case SimpleOr(branches) => EvalOr(branches, event, false)
  }

  function EvalAnd(branches: seq<Node>, event: Event): (r: MatchResult)
    ensures r.matched ==> r.applicable
    decreases branches
  {
    if branches == [] then MATCHED
    else
      var r := Eval(branches[0], event);
      if !r.matched || !r.applicable then r else EvalAnd(branches[1..], event)
  }

  function EvalOr(branches: seq<Node>, event: Event, oneApplicable: bool): (r: MatchResult)
    ensures r.matched ==> r.applicable
    decreases branches
  {
    if branches == [] then MatchResult(false, oneApplicable)
    else
      var r := Eval(branches[0], event);
      if r.matched then MATCHED else EvalOr(branches[1..], event, oneApplicable || r.applicable)
  }

  /** Matching as the nodes do it, with loops that stop early. */
  method MatchNode(node: Node, event: Event) returns (r: MatchResult)
    ensures r == Eval(node, event)
    decreases node
  {
    match node
    case Leaf(rule) =>
      r := rule.Matches(event);
    case And(left, right) =>
      var l := MatchNode(left, event);
      if !l.matched {
        return MatchResult(false, l.applicable);
      }
      r := MatchNode(right, event);
      r := MatchResult(l.matched && r.matched, l.applicable && r.applicable);
    case Or(left, right) =>
      var l := MatchNode(left, event);
      if l.matched {
        return MatchResult(true, l.applicable);
      }
      r := MatchNode(right, event);
      r := MatchResult(l.matched || r.matched, l.applicable || r.applicable);
    case Not(branch) =>
      r := MatchNode(branch, event);
      if r.applicable {
        r := MatchResult(!r.matched, r.applicable);
      }
    case SimpleAnd(branches) =>
      assert branches[0..] == branches;
      for i := 0 to |branches|
        invariant EvalAnd(branches[i..], event) == EvalAnd(branches, event)
      {
        assert branches[i..][1..] == branches[i + 1..];
        r := MatchNode(branches[i], event);
        if !r.matched || !r.applicable {
          return r;
        }
      }
      r := MATCHED;
    case SimpleOr(branches) =>
      var oneApplicable := false;
      assert branches[0..] == branches;
      for i := 0 to |branches|
        invariant EvalOr(branches[i..], event, oneApplicable) == EvalOr(branches, event, false)
      {
        assert branches[i..][1..] == branches[i + 1..];
        r := MatchNode(branches[i], event);
        if r.matched {
          return MATCHED;
        }
        if r.applicable {
          oneApplicable := true;
        }
      }
      r := MatchResult(false, oneApplicable);
  }

  // ----- what conjunction and disjunction of results mean

  /** All matched, or else the verdict of the first result that is not. */
  function AllOf(rs: seq<MatchResult>): (r: MatchResult)
  {
    if rs == [] then MATCHED
    else if !rs[0].matched then rs[0]
    else AllOf(rs[1..])
  }

  /** Matched when some result is, applicable when some result is. */
  function AnyOf(rs: seq<MatchResult>): MatchResult {
    MatchResult(exists i :: 0 <= i < |rs| && rs[i].matched, exists i :: 0 <= i < |rs| && rs[i].applicable)
  }

  function Negation(r: MatchResult): MatchResult {
    if r.applicable then MatchResult(!r.matched, true) else r
  }

  /** Matched only where applicable. */
  ghost predicate Coherent(rs: seq<MatchResult>) {
    forall i :: 0 <= i < |rs| ==> (rs[i].matched ==> rs[i].applicable)
  }

  function EvalEach(branches: seq<Node>, event: Event): (rs: seq<MatchResult>)
    ensures |rs| == |branches| && Coherent(rs)
    ensures forall i :: 0 <= i < |branches| ==> rs[i] == Eval(branches[i], event)
  {
    seq(|branches|, i requires 0 <= i < |branches| => Eval(branches[i], event))
  }

  lemma {:induction false} EvalAndIsAllOf(branches: seq<Node>, event: Event)
    ensures EvalAnd(branches, event) == AllOf(EvalEach(branches, event))
  {
    if branches != [] {
      EvalAndIsAllOf(branches[1..], event);
      assert EvalEach(branches, event)[1..] == EvalEach(branches[1..], event);
    }
  }

  lemma {:induction false} EvalOrIsAnyOf(branches: seq<Node>, event: Event, oneApplicable: bool)
    ensures var r := AnyOf(EvalEach(branches, event));
      EvalOr(branches, event, oneApplicable) == MatchResult(r.matched, r.applicable || oneApplicable)
  {
    if branches != [] {
      var r := Eval(branches[0], event);
      EvalOrIsAnyOf(branches[1..], event, oneApplicable || r.applicable);
      AnyOfCons(EvalEach(branches, event));
      assert EvalEach(branches, event)[1..] == EvalEach(branches[1..], event);
    }
  }

  lemma AnyOfCons(rs: seq<MatchResult>)
    requires rs != []
    ensures var r := AnyOf(rs[1..]);
      AnyOf(rs) == MatchResult(rs[0].matched || r.matched, rs[0].applicable || r.applicable)
  {
    var tail := rs[1..];
    assert forall i :: 0 < i < |rs| ==> rs[i] == tail[i - 1];
    assert forall i :: 0 <= i < |tail| ==> tail[i] == rs[i + 1];
  }

  // ----- reduction

  /** `NodeSimpleAnd::reduce`. */
  function ReduceAnd(branches: seq<Node>): Result<Node, ParseError> {
    match |branches|
    case 0 => Err(EmptyNode)
    case 1 => Ok(branches[0])
    case 2 => Ok(And(branches[0], branches[1]))
    case _ => Ok(SimpleAnd([branches[0]] + [branches[1]] + branches[2..]))
  }

  /** `NodeSimpleOr::reduce`. */
  function ReduceOr(branches: seq<Node>): Result<Node, ParseError> {
    match |branches|
    case 0 => Err(EmptyNode)
    case 1 => Ok(branches[0])
    case 2 => Ok(Or(branches[0], branches[1]))
    case _ => Ok(SimpleOr([branches[0]] + [branches[1]] + branches[2..]))
  }

  /** Reducing a nonempty conjunction changes neither verdict nor applicability: both are the all-of. */
  lemma ReduceAndPreserves(branches: seq<Node>, event: Event)
    ensures ReduceAnd(branches).Ok? <==> branches != []
    ensures Eval(SimpleAnd(branches), event) == AllOf(EvalEach(branches, event))
    ensures branches != [] ==> Eval(ReduceAnd(branches).value, event) == AllOf(EvalEach(branches, event))
  {
    EvalAndIsAllOf(branches, event);
    var rs := EvalEach(branches, event);
    if |branches| == 1 {
      assert rs[1..] == [];
    } else if |branches| == 2 {
      assert rs[1..][1..] == [] && rs[1..][0] == rs[1];
      assert AllOf(rs[1..]) == if rs[1].matched then MATCHED else rs[1];
    } else if |branches| > 2 {
      assert [branches[0]] + [branches[1]] + branches[2..] == branches;
    }
  }

  /** Reducing a nonempty disjunction changes neither verdict nor applicability: both are the any-of. */
  lemma ReduceOrPreserves(branches: seq<Node>, event: Event)
    ensures ReduceOr(branches).Ok? <==> branches != []
    ensures Eval(SimpleOr(branches), event) == AnyOf(EvalEach(branches, event))
    ensures branches != [] ==> Eval(ReduceOr(branches).value, event) == AnyOf(EvalEach(branches, event))
  {
    EvalOrIsAnyOf(branches, event, false);
    var rs := EvalEach(branches, event);
    if |branches| == 1 || |branches| == 2 {
      AnyOfCons(rs);
      if |branches| == 2 {
        AnyOfCons(rs[1..]);
      }
    } else if |branches| > 2 {
      assert [branches[0]] + [branches[1]] + branches[2..] == branches;
    }
  }

  // ----- order

  /** The same results, in whatever order and however often. */
  ghost predicate SameMembers(rs: seq<MatchResult>, rs': seq<MatchResult>) {
    && (forall i :: 0 <= i < |rs| ==> rs[i] in rs')
    && (forall i :: 0 <= i < |rs'| ==> rs'[i] in rs)
  }

  lemma ReorderingKeepsMembers(rs: seq<MatchResult>, rs': seq<MatchResult>)
    requires multiset(rs) == multiset(rs')
    ensures SameMembers(rs, rs')
  {
    assert forall i :: 0 <= i < |rs| ==> rs[i] in multiset(rs');
    assert forall i :: 0 <= i < |rs'| ==> rs'[i] in multiset(rs);
  }

  /** Reordering a disjunction changes nothing. */
  lemma AnyOfIgnoresOrder(rs: seq<MatchResult>, rs': seq<MatchResult>)
    requires SameMembers(rs, rs')
    ensures AnyOf(rs) == AnyOf(rs')
  {
    AnyOfMember(rs, rs');
    AnyOfMember(rs', rs);
  }

  lemma AnyOfMember(rs: seq<MatchResult>, rs': seq<MatchResult>)
    requires SameMembers(rs, rs')
    ensures AnyOf(rs).matched ==> AnyOf(rs').matched
    ensures AnyOf(rs).applicable ==> AnyOf(rs').applicable
  {
    forall i | 0 <= i < |rs|
      ensures exists j :: 0 <= j < |rs'| && rs'[j] == rs[i]
    {
      assert rs[i] in rs';
    }
  }

  lemma {:induction false} AllOfMatched(rs: seq<MatchResult>)
    ensures AllOf(rs).matched <==> forall i :: 0 <= i < |rs| ==> rs[i].matched
    ensures if AllOf(rs).matched then AllOf(rs) == MATCHED else AllOf(rs) in rs
  {
    if rs != [] {
      AllOfMatched(rs[1..]);
      assert forall i :: 0 < i < |rs| ==> rs[i] == rs[1..][i - 1];
    }
  }

  /** Reordering a conjunction never changes whether it matches. */
  lemma AllOfVerdictIgnoresOrder(rs: seq<MatchResult>, rs': seq<MatchResult>)
    requires SameMembers(rs, rs')
    ensures AllOf(rs).matched == AllOf(rs').matched
  {
    AllOfMatched(rs);
    AllOfMatched(rs');
  }

  /** A conjunction holding both an inapplicable and an applicable unmatched result. */
  ghost predicate Mixed(rs: seq<MatchResult>) {
    NOT_APPLICABLE in rs && NOT_MATCHED in rs
  }

  /** Reordering a conjunction that is not mixed changes nothing. */
  lemma AllOfIgnoresOrder(rs: seq<MatchResult>, rs': seq<MatchResult>)
    requires SameMembers(rs, rs') && Coherent(rs) && !Mixed(rs)
    ensures AllOf(rs) == AllOf(rs')
  {
    AllOfVerdictIgnoresOrder(rs, rs');
    AllOfMatched(rs);
    AllOfMatched(rs');
    assert forall r :: r in rs && !r.matched ==> r == NOT_APPLICABLE || r == NOT_MATCHED;
    if !AllOf(rs').matched {
      assert AllOf(rs') in rs;
    }
  }

  /** Exactly when order shows: some reordering of a conjunction gives another result if and only if it holds both an
      inapplicable and an unmatched applicable result. */
  lemma AllOfOrderShows(rs: seq<MatchResult>)
    requires Coherent(rs)
    ensures Mixed(rs) <==> exists rs' :: multiset(rs') == multiset(rs) && AllOf(rs') != AllOf(rs)
  {
    if Mixed(rs) {
      var a := MoveToFront(rs, NOT_APPLICABLE);
      var b := MoveToFront(rs, NOT_MATCHED);
      assert AllOf(a) != AllOf(b);
    } else {
      forall rs' | multiset(rs') == multiset(rs)
        ensures AllOf(rs') == AllOf(rs)
      {
        ReorderingKeepsMembers(rs, rs');
        AllOfIgnoresOrder(rs, rs');
      }
    }
  }

  lemma MoveToFront(rs: seq<MatchResult>, r: MatchResult) returns (rs': seq<MatchResult>)
    requires r in rs
    ensures multiset(rs') == multiset(rs) && |rs'| > 0 && rs'[0] == r
  {
    var i :| 0 <= i < |rs| && rs[i] == r;
    rs' := [r] + (rs[..i] + rs[i + 1..]);
    assert rs == rs[..i] + ([r] + rs[i + 1..]);
  }
}
