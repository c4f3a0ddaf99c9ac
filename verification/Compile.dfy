/** Conditions compiled by structure and their meaning without nodes; the token loop of `new_branch` computes the former
    and evaluates to the latter. */
module Compilation {
  import opened Wrappers
  import opened Tokens
  import opened Errors
  import opened Grammar
  import opened LocalChecks
  import opened Nodes
  import opened DetectionMeaning
  import opened Building

  // ----- compiling along the grammar, from left to right; the leftmost failure wins

  function TargetRules(env: Env, target: Target): Result<seq<Node>, ParseError> {
    match target
    case Them => env.all(env.drawn)
    case Pattern(p) => env.wild(p)
  }

  function CompileAtom(env: Env, a: Atom): Result<Node, ParseError>
    decreases a
  {
    match a
    case Name(n) => env.leaf(n)
    case Group(c) => CompileCond(env, c)
    case Quantified(all, target) =>
      match TargetRules(env, target)
      case Err(e) => Err(e)
      case Ok(branches) => Ok(Quantify(all, branches))
  }

  function CompileFactor(env: Env, f: Factor): Result<Node, ParseError>
    decreases f
  {
    match CompileAtom(env, f.atom)
    case Err(e) => Err(e)
    case Ok(node) => Ok(Negate(f.negated, node))
  }

  function CompileConj(env: Env, c: Conj): (r: Result<seq<Node>, ParseError>)
    ensures r.Ok? ==> r.value != []
    decreases c, 0
  {
    match c
    case Single(f) => (
      match CompileFactor(env, f)
      case Err(e) => Err(e)
      case Ok(node) => Ok([node]))
    case And(f, rest) =>
      match CompileFactor(env, f)
      case Err(e) => Err(e)
      case Ok(node) =>
        match CompileConj(env.Skip(ThemsAtom(f.atom)), rest)
        case Err(e) => Err(e)
        case Ok(nodes) => Ok([node] + nodes)
  }

  function CompileTerm(env: Env, c: Conj): Result<Node, ParseError>
    decreases c, 1
  {
    match CompileConj(env, c)
    case Err(e) => Err(e)
    case Ok(nodes) => ReduceAnd(nodes)
  }

  function CompileTerms(env: Env, c: Cond): (r: Result<seq<Node>, ParseError>)
    ensures r.Ok? ==> r.value != []
    decreases c, 0
  {
    match c
    case Term(conj) => (
      match CompileTerm(env, conj)
      case Err(e) => Err(e)
      case Ok(node) => Ok([node]))
    case Or(conj, rest) =>
      match CompileTerm(env, conj)
      case Err(e) => Err(e)
      case Ok(node) =>
        match CompileTerms(env.Skip(ThemsConj(conj)), rest)
        case Err(e) => Err(e)
        case Ok(nodes) => Ok([node] + nodes)
  }

  function CompileCond(env: Env, c: Cond): Result<Node, ParseError>
    decreases c, 1
  {
    match CompileTerms(env, c)
    case Err(e) => Err(e)
    case Ok(nodes) => ReduceOr(nodes)
  }

  // ----- a printed group is extracted whole

  lemma {:induction false} SplitAtom(a: Atom, k: seq<Item>, balance: nat)
    requires balance > 0 && SplitGroup(k, balance).Some?
    ensures var (g, rest) := SplitGroup(k, balance).value;
      SplitGroup(PrintAtom(a, k), balance) == Some((PrintAtom(a, g), rest))
    decreases a
  {
    var (g, rest) := SplitGroup(k, balance).value;
    match a
    case Name(n) => assert PrintAtom(a, k)[1..] == k;
    case Group(c) =>
      assert PrintAtom(a, k)[1..] == PrintCond(c, [RPAR] + k) && ([RPAR] + k)[1..] == k;
      SplitCond(c, [RPAR] + k, balance + 1);
    case Quantified(all, target) =>
      var tail := [TargetItem(target)] + k;
      assert PrintAtom(a, k)[1..] == tail && tail[1..] == k;
  }

  lemma {:induction false} SplitFactor(f: Factor, k: seq<Item>, balance: nat)
    requires balance > 0 && SplitGroup(k, balance).Some?
    ensures var (g, rest) := SplitGroup(k, balance).value;
      SplitGroup(PrintFactor(f, k), balance) == Some((PrintFactor(f, g), rest))
    decreases f
  {
    SplitAtom(f.atom, k, balance);
    if f.negated {
      assert PrintFactor(f, k)[1..] == PrintAtom(f.atom, k);
    }
  }

  lemma {:induction false} SplitConj(c: Conj, k: seq<Item>, balance: nat)
    requires balance > 0 && SplitGroup(k, balance).Some?
    ensures var (g, rest) := SplitGroup(k, balance).value;
      SplitGroup(PrintConj(c, k), balance) == Some((PrintConj(c, g), rest))
    decreases c
  {
    match c
    case Single(f) => SplitFactor(f, k, balance);
    case And(f, rest) =>
      SplitConj(rest, k, balance);
      var tail := [AND] + PrintConj(rest, k);
      assert tail[1..] == PrintConj(rest, k);
      SplitFactor(f, tail, balance);
  }

  lemma {:induction false} SplitCond(c: Cond, k: seq<Item>, balance: nat)
    requires balance > 0 && SplitGroup(k, balance).Some?
    ensures var (g, rest) := SplitGroup(k, balance).value;
      SplitGroup(PrintCond(c, k), balance) == Some((PrintCond(c, g), rest))
    decreases c
  {
    match c
    case Term(conj) => SplitConj(conj, k, balance);
    case Or(conj, rest) =>
      SplitCond(rest, k, balance);
      var tail := [OR] + PrintCond(rest, k);
      assert tail[1..] == PrintCond(rest, k);
      SplitConj(conj, tail, balance);
  }

  // ----- a printing draws as often as the condition does

  lemma {:induction false} ThemsPrintedAtom(a: Atom, k: seq<Item>)
    ensures Thems(PrintAtom(a, k)) == ThemsAtom(a) + Thems(k)
    decreases a
  {
    match a
    case Name(n) => assert PrintAtom(a, k)[1..] == k;
    case Group(c) =>
      assert PrintAtom(a, k)[1..] == PrintCond(c, [RPAR] + k) && ([RPAR] + k)[1..] == k;
      ThemsPrintedCond(c, [RPAR] + k);
    case Quantified(all, target) =>
      var tail := [TargetItem(target)] + k;
      assert PrintAtom(a, k)[1..] == tail && tail[1..] == k;
  }

  lemma {:induction false} ThemsPrintedConj(c: Conj, k: seq<Item>)
    ensures Thems(PrintConj(c, k)) == ThemsConj(c) + Thems(k)
    decreases c
  {
    var tail := if c.Single? then k else [AND] + PrintConj(c.rest, k);
    ThemsPrintedAtom(c.factor.atom, tail);
    if c.factor.negated {
      assert PrintFactor(c.factor, tail)[1..] == PrintAtom(c.factor.atom, tail);
    }
    if c.And? {
      assert tail[1..] == PrintConj(c.rest, k);
      ThemsPrintedConj(c.rest, k);
    }
  }

  lemma {:induction false} ThemsPrintedCond(c: Cond, k: seq<Item>)
    ensures Thems(PrintCond(c, k)) == ThemsCond(c) + Thems(k)
    decreases c
  {
    var tail := if c.Term? then k else [OR] + PrintCond(c.rest, k);
    ThemsPrintedConj(c.conj, tail);
    if c.Or? {
      assert tail[1..] == PrintCond(c.rest, k);
      ThemsPrintedCond(c.rest, k);
    }
  }

  lemma ThemsPrinted(c: Cond)
    ensures Thems(Print(c)) == ThemsCond(c)
  {
    ThemsPrintedCond(c, []);
  }

  // ----- the loop over a printing

  function Add(st: State, nodes: seq<Node>): State {
    st.(ands := st.ands + nodes)
  }

  /** Ready for a factor: nothing pending. */
  predicate Idle(st: State) {
    !st.negated && st.wildcard == None
  }

  lemma {:induction false} BuildAtom(env: Env, a: Atom, k: seq<Item>, st: State, depth: nat)
    requires st.wildcard == None && depth + NestingAtom(a) <= MAX_RECURSION_DEPTH
    ensures BuildLoop(env, PrintAtom(a, k), st, depth)
            == match CompileAtom(env, a)
               case Err(e) => Err(e)
               case Ok(node) => BuildLoop(env.Skip(ThemsAtom(a)), k, Push(st, node), depth)
    decreases a
  {
    match a
    case Name(n) => assert PrintAtom(a, k)[1..] == k;
    case Group(c) =>
      assert PrintAtom(a, k)[1..] == PrintCond(c, [RPAR] + k);
      assert SplitGroup([RPAR] + k, 1) == Some(([], k)) by { assert ([RPAR] + k)[1..] == k; }
      SplitCond(c, [RPAR] + k, 1);
      ThemsPrinted(c);
      BuildPrinting(env, c, depth + 1);
    case Quantified(all, target) =>
      var tail := [TargetItem(target)] + k;
      assert PrintAtom(a, k)[1..] == tail && tail[1..] == k;
      BuildTarget(env, all, target, k, st.(wildcard := Some(all)), depth);
      assert st.(wildcard := Some(all)).(wildcard := None) == st;
  }

  lemma BuildTarget(env: Env, all: bool, target: Target, k: seq<Item>, st: State, depth: nat)
    requires st.wildcard == Some(all)
    ensures var rules := TargetRules(env, target);
      BuildLoop(env, [TargetItem(target)] + k, st, depth)
      == if rules.Err? then Err(rules.error)
         else BuildLoop(env.Skip(if target.Them? then 1 else 0), k,
                        Push(st.(wildcard := None), Quantify(all, rules.value)), depth)
  {
    assert ([TargetItem(target)] + k)[1..] == k;
  }

  lemma {:induction false} BuildFactor(env: Env, f: Factor, k: seq<Item>, st: State, depth: nat)
    requires Idle(st) && depth + NestingAtom(f.atom) <= MAX_RECURSION_DEPTH
    ensures BuildLoop(env, PrintFactor(f, k), st, depth)
            == match CompileFactor(env, f)
               case Err(e) => Err(e)
               case Ok(node) => BuildLoop(env.Skip(ThemsAtom(f.atom)), k, Add(st, [node]), depth)
    decreases f
  {
    if f.negated {
      assert PrintFactor(f, k)[1..] == PrintAtom(f.atom, k);
    }
    BuildAtom(env, f.atom, k, st.(negated := f.negated), depth);
  }

  lemma AddTwice(st: State, node: Node, nodes: seq<Node>)
    ensures Add(Add(st, [node]), nodes) == Add(st, [node] + nodes)
  {
    assert st.ands + [node] + nodes == st.ands + ([node] + nodes);
  }

  lemma ConnectiveSkipped(env: Env, k: seq<Item>, st: State, depth: nat)
    ensures BuildLoop(env, [AND] + k, st, depth) == BuildLoop(env, k, st, depth)
  {
    assert ([AND] + k)[1..] == k;
  }

  lemma {:induction false} BuildConj(env: Env, c: Conj, k: seq<Item>, st: State, depth: nat)
    requires Idle(st) && depth + NestingConj(c) <= MAX_RECURSION_DEPTH
    ensures BuildLoop(env, PrintConj(c, k), st, depth)
            == match CompileConj(env, c)
               case Err(e) => Err(e)
               case Ok(nodes) => BuildLoop(env.Skip(ThemsConj(c)), k, Add(st, nodes), depth)
    decreases c
  {
    match c
    case Single(f) => BuildFactor(env, f, k, st, depth);
    case And(f, rest) =>
      var tail := [AND] + PrintConj(rest, k);
      BuildFactor(env, f, tail, st, depth);
      var node := CompileFactor(env, f);
      if node.Ok? {
        var env' := env.Skip(ThemsAtom(f.atom));
        ConnectiveSkipped(env', PrintConj(rest, k), Add(st, [node.value]), depth);
        BuildConj(env', rest, k, Add(st, [node.value]), depth);
        var nodes := CompileConj(env', rest);
        if nodes.Ok? {
          AddTwice(st, node.value, nodes.value);
          assert env'.Skip(ThemsConj(rest)) == env.Skip(ThemsConj(c));
        }
      }
  }

  /** At `or` the gathered conjunction becomes a term. */
  lemma OrStep(env: Env, k: seq<Item>, st: State, nodes: seq<Node>, depth: nat)
    requires Idle(st) && st.ands == [] && nodes != []
    ensures BuildLoop(env, [OR] + k, Add(st, nodes), depth)
            == BuildLoop(env, k, State([], st.ors + [ReduceAnd(nodes).value], false, None), depth)
  {
    assert ([OR] + k)[1..] == k && [] + nodes == nodes;
  }

  lemma EndStep(env: Env, st: State, nodes: seq<Node>, depth: nat)
    requires Idle(st) && st.ands == [] && nodes != []
    ensures BuildLoop(env, [], Add(st, nodes), depth) == FinishOr(st.ors + [ReduceAnd(nodes).value])
  {
    assert [] + nodes == nodes;
  }

  lemma {:induction false} BuildTerms(env: Env, c: Cond, st: State, depth: nat)
    requires Idle(st) && st.ands == [] && depth + Nesting(c) <= MAX_RECURSION_DEPTH
    ensures BuildLoop(env, Print(c), st, depth)
            == match CompileTerms(env, c)
               case Err(e) => Err(e)
               case Ok(nodes) => FinishOr(st.ors + nodes)
    decreases c, 0
  {
    var tail := if c.Term? then [] else [OR] + Print(c.rest);
    BuildConj(env, c.conj, tail, st, depth);
    var nodes := CompileConj(env, c.conj);
    if nodes.Ok? {
      if c.Term? {
        EndStep(env.Skip(ThemsConj(c.conj)), st, nodes.value, depth);
      } else {
        var node := ReduceAnd(nodes.value).value;
        var st' := State([], st.ors + [node], false, None);
        var env' := env.Skip(ThemsConj(c.conj));
        OrStep(env', Print(c.rest), st, nodes.value, depth);
        BuildTerms(env', c.rest, st', depth);
        var terms := CompileTerms(env', c.rest);
        if terms.Ok? {
          assert st'.ors + terms.value == st.ors + ([node] + terms.value);
        }
      }
    }
  }

  /** The token loop builds a printed condition exactly as the grammar compiles it, failures included. */
  lemma {:induction false} BuildPrinting(env: Env, c: Cond, depth: nat)
    requires depth + Nesting(c) <= MAX_RECURSION_DEPTH
    ensures Build(env, Print(c), depth) == CompileCond(env, c)
    decreases c, 1
  {
    BuildTerms(env, c, START, depth);
    var nodes := CompileTerms(env, c);
    if nodes.Ok? {
      assert [] + nodes.value == nodes.value;
    }
  }

  // ----- meaning, three-valued

  /** What names, `them` and wildcard names mean on one event; nothing where they do not compile. Every `them` draws its
      own expansion, from left to right. */
  datatype Denotation = Denotation(
    leaf: string -> Option<MatchResult>,
    all: nat -> Option<seq<MatchResult>>,
    wild: string -> Option<seq<MatchResult>>,
    drawn: nat)
  {
    /** After `n` more expansions. */
    function Skip(n: nat): Denotation {
      this.(drawn := drawn + n)
    }
  }

  function MeanTarget(d: Denotation, target: Target): Option<seq<MatchResult>> {
    match target
    case Them => d.all(d.drawn)
    case Pattern(p) => d.wild(p)
  }

  function MeanAtom(d: Denotation, a: Atom): Option<MatchResult>
    decreases a
  {
    match a
    case Name(n) => d.leaf(n)
    case Group(c) => MeanCond(d, c)
    case Quantified(all, target) =>
      match MeanTarget(d, target)
      case None => None
      case Some(rs) => Some(if all then AllOf(rs) else AnyOf(rs))
  }

  function MeanFactor(d: Denotation, f: Factor): Option<MatchResult>
    decreases f
  {
    match MeanAtom(d, f.atom)
    case None => None
    case Some(r) => Some(if f.negated then Negation(r) else r)
  }

  function MeanFactors(d: Denotation, c: Conj): Option<seq<MatchResult>>
    decreases c, 0
  {
    match c
    case Single(f) => (
      match MeanFactor(d, f)
      case None => None
      case Some(r) => Some([r]))
    case And(f, rest) =>
      match (MeanFactor(d, f), MeanFactors(d.Skip(ThemsAtom(f.atom)), rest))
      case (Some(r), Some(rs)) => Some([r] + rs)
      case _ => None
  }

  function MeanTerms(d: Denotation, c: Cond): Option<seq<MatchResult>>
    decreases c, 0
  {
    match c
    case Term(conj) => (
      match MeanFactors(d, conj)
      case None => None
      case Some(rs) => Some([AllOf(rs)]))
    case Or(conj, rest) =>
      match (MeanFactors(d, conj), MeanTerms(d.Skip(ThemsConj(conj)), rest))
      case (Some(rs), Some(terms)) => Some([AllOf(rs)] + terms)
      case _ => None
  }

  /** A condition is the any-of of its terms, a term the all-of of its factors. */
  function MeanCond(d: Denotation, c: Cond): Option<MatchResult>
    decreases c, 1
  {
    match MeanTerms(d, c)
    case None => None
    case Some(terms) => Some(AnyOf(terms))
  }

  predicate AllAgree(rules: Result<seq<Node>, ParseError>, readings: Option<seq<MatchResult>>, event: Event) {
    match rules
    case Err(_) => readings == None
    case Ok(nodes) => readings == Some(EvalEach(nodes, event))
  }

  /** The environment's nodes evaluate to what the denotation says. */
  ghost predicate Denotes(env: Env, d: Denotation, event: Event) {
    && (forall n :: Agrees(env.leaf(n), d.leaf(n), event))
    && env.drawn == d.drawn
    && (forall i :: AllAgree(env.all(i), d.all(i), event))
    && (forall p :: AllAgree(env.wild(p), d.wild(p), event))
  }

  lemma EvalEachCons(node: Node, nodes: seq<Node>, event: Event)
    ensures EvalEach([node] + nodes, event) == [Eval(node, event)] + EvalEach(nodes, event)
    ensures EvalEach([node], event) == [Eval(node, event)]
  {
  }

  lemma {:induction false} AtomMeaning(env: Env, d: Denotation, a: Atom, event: Event)
    requires Denotes(env, d, event)
    ensures Agrees(CompileAtom(env, a), MeanAtom(d, a), event)
    decreases a
  {
    match a
    case Name(n) =>
    case Group(c) => CondMeaning(env, d, c, event);
    case Quantified(all, target) =>
      var rules := TargetRules(env, target);
      assert AllAgree(rules, MeanTarget(d, target), event);
      if rules.Ok? {
        ReduceAndPreserves(rules.value, event);
        ReduceOrPreserves(rules.value, event);
      }
  }

  lemma {:induction false} FactorMeaning(env: Env, d: Denotation, f: Factor, event: Event)
    requires Denotes(env, d, event)
    ensures Agrees(CompileFactor(env, f), MeanFactor(d, f), event)
    decreases f
  {
    AtomMeaning(env, d, f.atom, event);
  }

  lemma {:induction false} ConjMeaning(env: Env, d: Denotation, c: Conj, event: Event)
    requires Denotes(env, d, event)
    ensures AllAgree(CompileConj(env, c), MeanFactors(d, c), event)
    decreases c
  {
    FactorMeaning(env, d, c.factor, event);
    var node := CompileFactor(env, c.factor);
    if c.Single? {
      if node.Ok? {
        EvalEachCons(node.value, [], event);
      }
    } else {
      var env', d' := env.Skip(ThemsAtom(c.factor.atom)), d.Skip(ThemsAtom(c.factor.atom));
      ConjMeaning(env', d', c.rest, event);
      var nodes := CompileConj(env', c.rest);
      if node.Ok? && nodes.Ok? {
        EvalEachCons(node.value, nodes.value, event);
      }
    }
  }

  lemma {:induction false} TermsMeaning(env: Env, d: Denotation, c: Cond, event: Event)
    requires Denotes(env, d, event)
    ensures AllAgree(CompileTerms(env, c), MeanTerms(d, c), event)
    decreases c, 0
  {
    ConjMeaning(env, d, c.conj, event);
    var nodes := CompileConj(env, c.conj);
    if nodes.Ok? {
      ReduceAndPreserves(nodes.value, event);
    }
    var node := CompileTerm(env, c.conj);
    if c.Term? {
      if node.Ok? {
        EvalEachCons(node.value, [], event);
      }
    } else {
      var env', d' := env.Skip(ThemsConj(c.conj)), d.Skip(ThemsConj(c.conj));
      TermsMeaning(env', d', c.rest, event);
      var terms := CompileTerms(env', c.rest);
      if node.Ok? && terms.Ok? {
        EvalEachCons(node.value, terms.value, event);
      }
    }
  }

  /** The compiled node exists exactly when the condition has a meaning, and evaluates to it. */
  lemma {:induction false} CondMeaning(env: Env, d: Denotation, c: Cond, event: Event)
    requires Denotes(env, d, event)
    ensures Agrees(CompileCond(env, c), MeanCond(d, c), event)
    decreases c, 1
  {
    TermsMeaning(env, d, c, event);
    var nodes := CompileTerms(env, c);
    if nodes.Ok? {
      ReduceOrPreserves(nodes.value, event);
    }
  }
}
