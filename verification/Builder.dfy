/** The second compiler (`src/tree/builder.rs`, `build_branch`), compared with the first on every checked token list. */
module TreeBuilder {
  import opened Wrappers
  import opened Tokens
  import opened Errors
  import opened LexerProperties
  import opened Grammar
  import opened LocalChecks
  import opened Nodes
  import opened Detections
  import opened DetectionMeaning
  import opened Validation
  import opened Building
  import opened Parsing
  import opened Compilation
  import opened EndToEnd
  import opened Acceptance
  import opened KeyOrder

  const MAX_BRANCHES := 1000
  const MAX_GLOB_WILDCARDS := 10

  /** How names, `them` and wildcard names become nodes here; `globCompiles` is the glob library's answer. */
  datatype BuilderEnv = BuilderEnv(
    leaf: string -> Result<Node, ParseError>,
    all: Result<seq<Node>, ParseError>,
    globCompiles: string -> bool,
    wild: string -> Result<seq<Node>, ParseError>)

  /** `reduce_branches`. */
  function ReduceBranches(branches: seq<Node>, conj: bool): Result<Node, ParseError> {
    match |branches|
    case 0 => Err(EmptyNode)
    case 1 => Ok(branches[0])
    case 2 => Ok(if conj then Node.And(branches[0], branches[1]) else Node.Or(branches[0], branches[1]))
    case _ => Ok(if conj then SimpleAnd(branches) else SimpleOr(branches))
  }

  function CountWildcards(pattern: string): nat {
    if pattern == "" then 0
    else (if pattern[0] == '*' || pattern[0] == '?' then 1 else 0) + CountWildcards(pattern[1..])
  }

  predicate ContainsText(s: string, part: string) {
    part <= s || (s != "" && ContainsText(s[1..], part))
  }

  /** `validate_glob_pattern`. */
  predicate AllowedGlob(pattern: string) {
    && CountWildcards(pattern) <= MAX_GLOB_WILDCARDS
    && !ContainsText(pattern, "**") && !ContainsText(pattern, "*?*") && !ContainsText(pattern, "?*?")
  }

  predicate OccursAt(part: string, pattern: string, i: int) {
    0 <= i <= |pattern| - |part| && pattern[i..i + |part|] == part
  }

  lemma {:induction false} CountIsMultiplicity(pattern: string)
    ensures CountWildcards(pattern) == multiset(pattern)['*'] + multiset(pattern)['?']
  {
    if pattern != "" {
      CountIsMultiplicity(pattern[1..]);
      assert pattern == [pattern[0]] + pattern[1..];
    }
  }

  lemma {:induction false} ContainsIsOccurrence(s: string, part: string)
    ensures ContainsText(s, part) <==> exists i :: OccursAt(part, s, i)
  {
    if part <= s {
      assert OccursAt(part, s, 0);
    } else if s != "" {
      ContainsIsOccurrence(s[1..], part);
      if i :| OccursAt(part, s[1..], i) {
        assert s[1..][i..i + |part|] == s[i + 1..i + 1 + |part|];
        assert OccursAt(part, s, i + 1);
      }
      if i :| OccursAt(part, s, i) {
        assert i != 0;
        assert s[1..][i - 1..i - 1 + |part|] == s[i..i + |part|];
        assert OccursAt(part, s[1..], i - 1);
      }
    }
  }

  /** A pattern is refused exactly if it has more than ten wildcards or if "**", "*?*" or "?*?" occurs in it. */
  lemma GlobsAllowedExactly(pattern: string)
    ensures AllowedGlob(pattern)
            <==> multiset(pattern)['*'] + multiset(pattern)['?'] <= 10
                 && forall i ::
                      !OccursAt("**", pattern, i) && !OccursAt("*?*", pattern, i) && !OccursAt("?*?", pattern, i)
  {
    CountIsMultiplicity(pattern);
    ContainsIsOccurrence(pattern, "**");
    ContainsIsOccurrence(pattern, "*?*");
    ContainsIsOccurrence(pattern, "?*?");
  }

  function PushReduced(st: State, rules: Result<seq<Node>, ParseError>, all: bool): Result<State, ParseError> {
    match rules
    case Err(e) => Err(e)
    case Ok(branches) =>
      match ReduceBranches(branches, all)
      case Err(e) => Err(e)
      case Ok(node) => Ok(Push(st, node))
  }

  /** One token other than an opening parenthesis. The statement stays pending after `them`, not after a wildcard. */
  function TreeStep(env: BuilderEnv, item: Item, st: State): Result<State, ParseError> {
    match item.token
    case Identifier => (
      match env.leaf(item.value)
      case Err(e) => Err(e)
      case Ok(node) => Ok(Push(st, node)))
    case KeywordAnd => Ok(st)
    case KeywordOr => (
      match ReduceBranches(st.ands, true)
      case Err(e) => Err(e)
      case Ok(node) => Ok(st.(ands := [], ors := st.ors + [node])))
    case KeywordNot => Ok(st.(negated := true))
    case IdentifierAll =>
      if st.wildcard == None then Err(InvalidWildcardContext) else PushReduced(st, env.all, st.wildcard.value)
    case IdentifierWithWildcard =>
      if !AllowedGlob(item.value) || !env.globCompiles(item.value) then Err(InvalidGlobPattern(item.value))
      else if st.wildcard == None then Err(InvalidWildcardContext)
      else (
        match PushReduced(st, env.wild(item.value), st.wildcard.value)
        case Err(e) => Err(e)
        case Ok(st') => Ok(st'.(wildcard := None)))
    case StmtAllOf => Ok(st.(wildcard := Some(true)))
    case StmtOneOf => Ok(st.(wildcard := Some(false)))
    case SepRpar => Err(UnexpectedToken(SepRpar))
    case _ => Err(UnsupportedToken(item.token))
  }

  function TreeFinish(st: State): Result<Node, ParseError> {
    if |st.ands| + |st.ors| > MAX_BRANCHES then Err(TooManyBranches(|st.ands| + |st.ors|))
    else
      match ReduceBranches(st.ands, true)
      case Err(e) => Err(e)
      case Ok(node) =>
        var ors := st.ors + [node];
        if st.negated then Ok(Not(ors[|ors| - 1])) else ReduceBranches(ors, false)
  }

  function BuildTree(env: BuilderEnv, ts: seq<Item>, depth: nat): Result<Node, ParseError>
    decreases |ts|, 1
  {
    if depth > MAX_RECURSION_DEPTH then Err(RecursionLimitExceeded(depth, MAX_RECURSION_DEPTH))
    else TreeLoop(env, ts, START, depth)
  }

  function TreeLoop(env: BuilderEnv, ts: seq<Item>, st: State, depth: nat): Result<Node, ParseError>
    decreases |ts|, 0
  {
    if ts == [] then TreeFinish(st)
    else if ts[0].token == SepLpar then
      match SplitGroup(ts[1..], 1)
      case None => Err(UnbalancedParentheses)
      case Some((group, rest)) =>
        match BuildTree(env, group, depth + 1)
        case Err(e) => Err(e)
        case Ok(node) => TreeLoop(env, rest, Push(st, node), depth)
    else
      match TreeStep(env, ts[0], st)
      case Err(e) => Err(e)
      case Ok(st') => TreeLoop(env, ts[1..], st', depth)
  }

  /** `extract_group_items`: the closing parenthesis is never pushed, where `extract_group` pushes and pops it. */
  method ExtractGroupItems(ts: seq<Item>, start: nat) returns (group: Option<seq<Item>>, next: nat)
    requires start <= |ts|
    ensures match SplitGroup(ts[start..], 1)
            case None => group == None && next == |ts|
            case Some((g, rest)) => group == Some(g) && next <= |ts| && ts[next..] == rest
  {
    var items: seq<Item> := [];
    var balance: nat := 1;
    ghost var whole := SplitGroup(ts[start..], 1);
    Prepended(whole);
    for i := start to |ts|
      invariant balance > 0
      invariant whole == Prepend(items, SplitGroup(ts[i..], balance))
    {
      assert ts[i..][1..] == ts[i + 1..];
      var item := ts[i];
      if item.token == SepLpar {
        balance := balance + 1;
        items := items + [item];
      } else if item.token == SepRpar {
        balance := balance - 1;
        if balance == 0 {
          assert items + [] == items;
          return Some(items), i + 1;
        }
        items := items + [item];
      } else {
        items := items + [item];
      }
      PrependedTwice(items[..|items| - 1], item, SplitGroup(ts[i + 1..], balance));
    }
    return None, |ts|;
  }

  /** `build_branch`. */
  method BuildBranch(env: BuilderEnv, tokens: seq<Item>, depth: nat) returns (r: Result<Node, ParseError>)
    ensures r == BuildTree(env, tokens, depth)
    decreases |tokens|
  {
    if depth > MAX_RECURSION_DEPTH {
      return Err(RecursionLimitExceeded(depth, MAX_RECURSION_DEPTH));
    }
    var andNodes: seq<Node>, orNodes: seq<Node> := [], [];
    var negated, wildcard: Option<bool> := false, None;
    var i := 0;
    assert tokens[0..] == tokens;
    while i < |tokens|
      invariant 0 <= i <= |tokens|
      invariant TreeLoop(env, tokens[i..], State(andNodes, orNodes, negated, wildcard), depth)
                == BuildTree(env, tokens, depth)
    {
      assert tokens[i..][1..] == tokens[i + 1..];
      if tokens[i].token == SepLpar {
        var group, next := ExtractGroupItems(tokens, i + 1);
        if group == None {
          return Err(UnbalancedParentheses);
        }
        var branch := BuildBranch(env, group.value, depth + 1);
        if branch.Err? {
          return Err(branch.error);
        }
        andNodes := andNodes + [Negate(negated, branch.value)];
        negated := false;
        i := next;
      } else {
        var error;
        error, andNodes, orNodes, negated, wildcard :=
          TakeTreeToken(env, tokens[i], andNodes, orNodes, negated, wildcard);
        if error.Some? {
          return Err(error.value);
        }
        i := i + 1;
      }
    }
    if |andNodes| + |orNodes| > MAX_BRANCHES {
      return Err(TooManyBranches(|andNodes| + |orNodes|));
    }
    var andBranch := ReduceBranches(andNodes, true);
    if andBranch.Err? {
      return Err(andBranch.error);
    }
    orNodes := orNodes + [andBranch.value];
    if negated {
      r := Ok(Not(orNodes[|orNodes| - 1]));
    } else {
      r := ReduceBranches(orNodes, false);
    }
  }

  /** The loop's reaction to a token other than an opening parenthesis. */
  method TakeTreeToken(env: BuilderEnv, item: Item, ands: seq<Node>, ors: seq<Node>, negated: bool,
                       wildcard: Option<bool>)
    returns (error: Option<ParseError>, ands': seq<Node>, ors': seq<Node>, negated': bool, wildcard': Option<bool>)
    requires item.token != SepLpar
    ensures match TreeStep(env, item, State(ands, ors, negated, wildcard))
            case Err(e) => error == Some(e)
            case Ok(st) => error == None && State(ands', ors', negated', wildcard') == st
  {
    error, ands', ors', negated', wildcard' := None, ands, ors, negated, wildcard;
    match item.token {
      case Identifier =>
        match env.leaf(item.value) {
          case Err(e) => error := Some(e);
          case Ok(branch) => ands', negated' := ands + [Negate(negated, branch)], false;
        }
      case KeywordAnd =>
      case KeywordOr =>
        match ReduceBranches(ands, true) {
          case Err(e) => error := Some(e);
          case Ok(branch) => ands', ors' := [], ors + [branch];
        }
      case KeywordNot => negated' := true;
      case IdentifierAll =>
        if wildcard == None {
          error := Some(InvalidWildcardContext);
        } else {
          error, ands', negated' := TakeRules(env.all, ands, negated, wildcard.value);
        }
      case IdentifierWithWildcard =>
        if !AllowedGlob(item.value) || !env.globCompiles(item.value) {
          error := Some(InvalidGlobPattern(item.value));
        } else if wildcard == None {
          error := Some(InvalidWildcardContext);
        } else {
          error, ands', negated' := TakeRules(env.wild(item.value), ands, negated, wildcard.value);
          wildcard' := None;
        }
      case StmtAllOf => wildcard' := Some(true);
      case StmtOneOf => wildcard' := Some(false);
      case SepRpar => error := Some(UnexpectedToken(SepRpar));
      case _ => error := Some(UnsupportedToken(item.token));
    }
  }

  /** What the cases of `them` and of a wildcard do with the rules they have found. */
  method TakeRules(rules: Result<seq<Node>, ParseError>, ands: seq<Node>, negated: bool, all: bool)
    returns (error: Option<ParseError>, ands': seq<Node>, negated': bool)
    ensures match PushReduced(State(ands, [], negated, None), rules, all)
            case Err(e) => error == Some(e)
            case Ok(st) => error == None && State(ands', [], negated', None) == st
  {
    error, ands', negated' := None, ands, negated;
    match rules {
      case Err(e) => error := Some(e);
      case Ok(branches) =>
        match ReduceBranches(branches, all) {
          case Err(e) => error := Some(e);
          case Ok(branch) => ands', negated' := ands + [Negate(negated, branch)], false;
        }
    }
  }

  lemma ReduceBranchesPreserves(branches: seq<Node>, conj: bool, event: Event)
    ensures ReduceBranches(branches, conj).Ok? <==> branches != []
    ensures branches != [] ==>
      Eval(ReduceBranches(branches, conj).value, event)
      == if conj then AllOf(EvalEach(branches, event)) else AnyOf(EvalEach(branches, event))
  {
    ReduceAndPreserves(branches, event);
    ReduceOrPreserves(branches, event);
  }

  // ----- what the two must have in common: the parts that occur in the list, on one event

  /** The same result, or both fail. */
  predicate SameVerdict(first: Result<Node, ParseError>, second: Result<Node, ParseError>, event: Event) {
    (first.Ok? <==> second.Ok?) && (first.Ok? ==> Eval(first.value, event) == Eval(second.value, event))
  }

  /** The same all-of and the same any-of, in whatever order; the second compiler reports an empty expansion only when
      it reduces it. */
  predicate SameRules(first: Result<seq<Node>, ParseError>, second: Result<seq<Node>, ParseError>, event: Event) {
    && (first.Ok? <==> second.Ok? && second.value != [])
    && (first.Ok? ==>
          && AllOf(EvalEach(first.value, event)) == AllOf(EvalEach(second.value, event))
          && AnyOf(EvalEach(first.value, event)) == AnyOf(EvalEach(second.value, event)))
  }

  predicate GlobAllowed(tree: BuilderEnv, item: Item) {
    item.token == IdentifierWithWildcard ==> AllowedGlob(item.value) && tree.globCompiles(item.value)
  }

  predicate SamePart(env: Env, tree: BuilderEnv, item: Item, event: Event) {
    match item.token
    case Identifier => SameVerdict(env.leaf(item.value), tree.leaf(item.value), event)
    case IdentifierAll => SameRules(env.all(env.drawn), tree.all, event)
    case IdentifierWithWildcard =>
      GlobAllowed(tree, item) ==> SameRules(env.wild(item.value), tree.wild(item.value), event)
    case _ => true
  }

  predicate SameParts(env: Env, tree: BuilderEnv, ts: seq<Item>, event: Event)
    decreases |ts|
  {
    ts == [] || (SamePart(env, tree, ts[0], event) && SameParts(env.Skip(Draws(ts[0])), tree, ts[1..], event))
  }

  // ----- what only the second compiler looks at

  predicate GlobsAllowed(tree: BuilderEnv, ts: seq<Item>) {
    ts == [] || (GlobAllowed(tree, ts[0]) && GlobsAllowed(tree, ts[1..]))
  }

  /** The lengths of the two node vectors after a token. */
  function AndsAfter(t: Token, ands: nat): nat {
    match t
    case Identifier => ands + 1
    case IdentifierAll => ands + 1
    case IdentifierWithWildcard => ands + 1
    case KeywordOr => 0
    case _ => ands
  }

  function OrsAfter(t: Token, ors: nat): nat {
    if t == KeywordOr then ors + 1 else ors
  }

  /** The list and every group in it stay within the branch limit. */
  predicate WithinLimits(ts: seq<Item>, ands: nat, ors: nat)
    decreases |ts|
  {
    if ts == [] then ands + ors <= 1000
    else if ts[0].token == SepLpar then
      match SplitGroup(ts[1..], 1)
      case None => true
      case Some((group, rest)) => WithinLimits(group, 0, 0) && WithinLimits(rest, ands + 1, ors)
    else WithinLimits(ts[1..], AndsAfter(ts[0].token, ands), OrsAfter(ts[0].token, ors))
  }

  // ----- where the two part: a statement used up by `them` stays pending in the second compiler only

  /** The last statement of this group has been used up by `them`. */
  predicate SpentAfter(t: Token, spent: bool) {
    t == IdentifierAll || (spent && !IsStatement(t) && t != IdentifierWithWildcard)
  }

  /** No wildcard stands where the last statement of its group has been used up by `them`. */
  predicate Unspent(ts: seq<Item>, spent: bool)
    decreases |ts|
  {
    if ts == [] then true
    else if ts[0].token == SepLpar then
      match SplitGroup(ts[1..], 1)
      case None => true
      case Some((group, rest)) => Unspent(group, false) && Unspent(rest, spent)
    else !(spent && ts[0].token == IdentifierWithWildcard) && Unspent(ts[1..], SpentAfter(ts[0].token, spent))
  }

  // ----- when the second compiler succeeds, on its own terms

  /** Whether a statement is pending in the second compiler after a token: `them` keeps it. */
  predicate PendingAfter(t: Token, pending: bool) {
    IsStatement(t) || (pending && t != IdentifierWithWildcard)
  }

  /** Every `them` and every wildcard has a pending statement in its group, and no group is empty. */
  predicate Backed(ts: seq<Item>, pending: bool)
    decreases |ts|
  {
    if ts == [] then true
    else if ts[0].token == SepLpar then
      match SplitGroup(ts[1..], 1)
      case None => true
      case Some((group, rest)) => group != [] && Backed(group, false) && Backed(rest, pending)
    else (IsTarget(ts[0].token) ==> pending) && Backed(ts[1..], PendingAfter(ts[0].token, pending))
  }

  /** What the item stands for compiles and, where a target is expanded, is not empty. */
  predicate PartCompiles(tree: BuilderEnv, item: Item) {
    match item.token
    case Identifier => tree.leaf(item.value).Ok?
    case IdentifierAll => tree.all.Ok? && tree.all.value != []
    case IdentifierWithWildcard =>
      GlobAllowed(tree, item) && tree.wild(item.value).Ok? && tree.wild(item.value).value != []
    case _ => true
  }

  predicate PartsCompile(tree: BuilderEnv, ts: seq<Item>) {
    ts == [] || (PartCompiles(tree, ts[0]) && PartsCompile(tree, ts[1..]))
  }

  predicate Accepted(tree: BuilderEnv, ts: seq<Item>, pending: bool, ands: nat, ors: nat) {
    Backed(ts, pending) && PartsCompile(tree, ts) && WithinLimits(ts, ands, ors)
  }

  /** All that a checked list needs to be built by the second compiler. */
  predicate TreeAccepts(tree: BuilderEnv, ts: seq<Item>) {
    ts != [] && ts[0].token != KeywordOr && Accepted(tree, ts, false, 0, 0)
  }

  // ----- both loops, side by side

  /** The loops' variables evaluate alike; only a used-up statement may be pending on one side. */
  predicate Related(st: State, st': State, spent: bool, event: Event) {
    && EvalEach(st.ands, event) == EvalEach(st'.ands, event)
    && EvalEach(st.ors, event) == EvalEach(st'.ors, event)
    && st.negated == st'.negated
    && (if spent then st.wildcard == None && st'.wildcard.Some? else st.wildcard == st'.wildcard)
  }

  /** Something has been gathered, and no negation is pending, behind a token that ends an atom. */
  predicate Gathered(prev: Token, st: State) {
    EndsAtom(prev) ==> st.ands != [] && !st.negated
  }

  /** The second result against the first on what is left of a list. */
  predicate Agree(tree: BuilderEnv, ts: seq<Item>, spent: bool, ands: nat, ors: nat,
                  first: Result<Node, ParseError>, second: Result<Node, ParseError>, event: Event) {
    Unspent(ts, spent) ==>
      && (second.Ok? <==> first.Ok? && GlobsAllowed(tree, ts) && WithinLimits(ts, ands, ors))
      && (second.Ok? ==> Eval(second.value, event) == Eval(first.value, event))
  }

  lemma PushAlike(st: State, st': State, spent: bool, node: Node, node': Node, event: Event)
    requires Related(st, st', spent, event) && Eval(node, event) == Eval(node', event)
    ensures Related(Push(st, node), Push(st', node'), spent, event)
    ensures Push(st, node).ands != [] && |Push(st, node).ands| == |st.ands| + 1
  {
    EvalEachPush(st.ands, Negate(st.negated, node), event);
    EvalEachPush(st'.ands, Negate(st'.negated, node'), event);
  }

  /** One token other than an opening parenthesis. */
  lemma StepsAlike(env: Env, tree: BuilderEnv, item: Item, st: State, st': State, spent: bool, event: Event)
    requires item.token != SepLpar && Related(st, st', spent, event) && SamePart(env, tree, item, event)
    requires spent ==> item.token != IdentifierAll
    ensures var next, next' := Step(env, item, st), TreeStep(tree, item, st');
      if spent && item.token == IdentifierWithWildcard then next.Err?
      else
        && (next'.Ok? <==> next.Ok? && GlobAllowed(tree, item))
        && (next'.Ok? ==>
              && Related(next.value, next'.value, SpentAfter(item.token, spent), event)
              && Gathered(item.token, next.value)
              && |next.value.ands| == AndsAfter(item.token, |st.ands|)
              && |next.value.ors| == OrsAfter(item.token, |st.ors|))
  {
    match item.token
    case Identifier =>
      if env.leaf(item.value).Ok? {
        PushAlike(st, st', spent, env.leaf(item.value).value, tree.leaf(item.value).value, event);
      }
    case KeywordOr => OrAlike(st, st', event);
    case IdentifierAll =>
      if st.wildcard.Some? {
        TargetAlike(st, st', env.all(env.drawn), tree.all, st.wildcard.value, event);
      }
    case IdentifierWithWildcard =>
      if GlobAllowed(tree, item) && st.wildcard.Some? {
        TargetAlike(st, st', env.wild(item.value), tree.wild(item.value), st.wildcard.value, event);
      }
    case _ =>
  }

  lemma OrAlike(st: State, st': State, event: Event)
    requires EvalEach(st.ands, event) == EvalEach(st'.ands, event)
             && EvalEach(st.ors, event) == EvalEach(st'.ors, event)
    ensures SameVerdict(ReduceAnd(st.ands), ReduceBranches(st'.ands, true), event)
    ensures ReduceAnd(st.ands).Ok? <==> st.ands != []
    ensures st.ands != [] ==>
      EvalEach(st.ors + [ReduceAnd(st.ands).value], event)
      == EvalEach(st'.ors + [ReduceBranches(st'.ands, true).value], event)
  {
    assert |EvalEach(st.ands, event)| == |st.ands| && |EvalEach(st'.ands, event)| == |st'.ands|;
    ReduceAndPreserves(st.ands, event);
    ReduceBranchesPreserves(st'.ands, true, event);
    if st.ands != [] {
      EvalEachPush(st.ors, ReduceAnd(st.ands).value, event);
      EvalEachPush(st'.ors, ReduceBranches(st'.ands, true).value, event);
    }
  }

  lemma TargetAlike(st: State, st': State, rules: Result<seq<Node>, ParseError>, rules': Result<seq<Node>, ParseError>,
                    all: bool, event: Event)
    requires Related(st, st', false, event) && SameRules(rules, rules', event) && st.wildcard == Some(all)
    ensures var next, next' := PushTarget(st, rules), PushReduced(st', rules', all);
      && (next'.Ok? <==> next.Ok?)
      && (next.Ok? ==>
            && Related(next.value, next'.value.(wildcard := None), false, event)
            && next'.value.wildcard == Some(all)
            && next.value.ands != [] && !next.value.negated
            && |next.value.ands| == |st.ands| + 1 && |next.value.ors| == |st.ors|)
  {
    if rules.Ok? {
      ReduceAndPreserves(rules.value, event);
      ReduceOrPreserves(rules.value, event);
      ReduceBranchesPreserves(rules'.value, all, event);
      PushAlike(st, st', false, Quantify(all, rules.value), ReduceBranches(rules'.value, all).value, event);
    } else if rules'.Ok? {
      ReduceBranchesPreserves(rules'.value, all, event);
    }
  }

  /** The end of both loops, behind a token that ends an atom. */
  lemma FinishAlike(st: State, st': State, spent: bool, event: Event)
    requires Related(st, st', spent, event) && st.ands != [] && !st.negated
    ensures var first, second := Finish(st), TreeFinish(st');
      && first.Ok? && (second.Ok? <==> |st.ands| + |st.ors| <= MAX_BRANCHES)
      && (second.Ok? ==> Eval(second.value, event) == Eval(first.value, event))
  {
    assert |EvalEach(st.ands, event)| == |st.ands| && |EvalEach(st'.ands, event)| == |st'.ands|;
    assert |EvalEach(st.ors, event)| == |st.ors| && |EvalEach(st'.ors, event)| == |st'.ors|;
    OrAlike(st, st', event);
    ReduceOrPreserves(st.ors + [ReduceAnd(st.ands).value], event);
    ReduceBranchesPreserves(st'.ors + [ReduceBranches(st'.ands, true).value], false, event);
  }

  // ----- along a group

  /** Neighbours agree; nothing is asked of the first token. */
  predicate PairsWithin(ts: seq<Item>) {
    ts == [] || PairsOk(ts[0].token, ts[1..])
  }

  /** The last token ends an atom. */
  predicate EndsWell(prev: Token, ts: seq<Item>) {
    EndsAtom(if ts == [] then prev else ts[|ts| - 1].token)
  }

  lemma {:induction false} PairsAlong(prev: Token, ts: seq<Item>, n: nat)
    requires n < |ts| && PairsOk(prev, ts)
    ensures PairsOk(prev, ts[..n]) && PairsOk(ts[n].token, ts[n + 1..])
    ensures ValidTokenSequence(if n == 0 then prev else ts[n - 1].token, ts[n].token)
    decreases n
  {
    if n > 0 {
      PairsAlong(ts[0].token, ts[1..], n - 1);
      assert ts[..n][1..] == ts[1..][..n - 1] && ts[1..][n..] == ts[n + 1..];
    }
  }

  /** A balanced list does not end on an opening parenthesis. */
  lemma {:induction false} BalancedEnds(ts: seq<Item>, depth: nat, limit: nat)
    requires ts != [] && ParenCheck(ts, depth, limit) == None
    ensures ts[|ts| - 1].token != SepLpar
    decreases |ts|
  {
    if |ts| > 1 {
      var depth' := if ts[0].token == SepLpar then depth + 1 else if ts[0].token == SepRpar then depth - 1 else depth;
      BalancedEnds(ts[1..], depth', limit);
    } else {
      assert ts[1..] == [];
    }
  }

  lemma {:induction false} PartsAlong(env: Env, tree: BuilderEnv, ts: seq<Item>, n: nat, event: Event)
    requires n < |ts| && SameParts(env, tree, ts, event)
    ensures SameParts(env, tree, ts[..n], event)
    ensures SameParts(env.Skip(Thems(ts[..n]) + Draws(ts[n])), tree, ts[n + 1..], event)
    decreases n
  {
    if n > 0 {
      var next := env.Skip(Draws(ts[0]));
      PartsAlong(next, tree, ts[1..], n - 1, event);
      assert ts[..n][1..] == ts[1..][..n - 1] && ts[1..][n..] == ts[n + 1..];
      assert next.Skip(Thems(ts[1..][..n - 1]) + Draws(ts[n])) == env.Skip(Thems(ts[..n]) + Draws(ts[n]));
    }
  }

  lemma {:induction false} GlobsAlong(tree: BuilderEnv, ts: seq<Item>, n: nat)
    requires n < |ts|
    ensures GlobsAllowed(tree, ts)
            <==> GlobsAllowed(tree, ts[..n]) && GlobAllowed(tree, ts[n]) && GlobsAllowed(tree, ts[n + 1..])
    decreases n
  {
    if n > 0 {
      GlobsAlong(tree, ts[1..], n - 1);
      assert ts[..n][1..] == ts[1..][..n - 1] && ts[1..][n..] == ts[n + 1..];
    }
  }

  /** In a checked list, a group and what follows it are checked lists too, and end well. */
  lemma GroupChecked(ts: seq<Item>, limit: nat) returns (group: seq<Item>, rest: seq<Item>)
    requires ts != [] && ts[0].token == SepLpar && ParenCheck(ts, 0, limit) == None && PairsWithin(ts)
    ensures SplitGroup(ts[1..], 1) == Some((group, rest)) && |group| + |rest| + 1 < |ts|
    ensures limit > 0 && ParenCheck(group, 0, limit - 1) == None && ParenCheck(rest, 0, limit) == None
    ensures PairsWithin(group) && PairsWithin(rest) && (group != [] ==> EndsWell(Nil, group))
    ensures EndsWell(Nil, ts) ==> EndsWell(SepRpar, rest)
    ensures rest != [] ==> rest[0].token != IdentifierAll
  {
    var tail := ts[1..];
    GroupIsBalanced(tail, 1, 1, limit);
    group, rest := SplitGroup(tail, 1).value.0, SplitGroup(tail, 1).value.1;
    GroupShape(tail, 1);
    var n := |group|;
    PairsAlong(SepLpar, tail, n);
    if group != [] {
      BalancedEnds(group, 0, limit - 1);
      assert group[n - 1] == tail[n - 1];
    }
    if rest != [] {
      assert rest[|rest| - 1] == ts[|ts| - 1];
    }
  }

  /** What a list and its expansions have in common, its groups have. */
  lemma GroupParts(env: Env, tree: BuilderEnv, ts: seq<Item>, group: seq<Item>, rest: seq<Item>, event: Event)
    requires ts != [] && ts[0].token == SepLpar && SplitGroup(ts[1..], 1) == Some((group, rest))
    requires SameParts(env, tree, ts, event)
    ensures SameParts(env, tree, group, event) && SameParts(env.Skip(Thems(group)), tree, rest, event)
    ensures GlobsAllowed(tree, ts) <==> GlobsAllowed(tree, group) && GlobsAllowed(tree, rest)
  {
    GroupShape(ts[1..], 1);
    PartsAlong(env, tree, ts[1..], |group|, event);
    GlobsAlong(tree, ts[1..], |group|);
  }

  // ----- a wildcard without a statement of its own

  /** The first compiler fails wherever a wildcard stands behind a statement that `them` has used up. */
  lemma {:induction false} SpentFails(env: Env, ts: seq<Item>, st: State, spent: bool, depth: nat)
    requires (spent ==> st.wildcard == None) && !Unspent(ts, spent)
    ensures BuildLoop(env, ts, st, depth).Err?
    decreases |ts|
  {
    if ts[0].token == SepLpar {
      var (group, rest) := SplitGroup(ts[1..], 1).value;
      var node := Build(env, group, depth + 1);
      if !Unspent(group, false) {
        SpentFails(env, group, START, false, depth + 1);
      } else if node.Ok? {
        SpentFails(env.Skip(Thems(group)), rest, Push(st, node.value), spent, depth);
      }
    } else {
      var item, next := ts[0], Step(env, ts[0], st);
      if next.Ok? {
        SpentFails(env.Skip(Draws(item)), ts[1..], next.value, SpentAfter(item.token, spent), depth);
      }
    }
  }

  // ----- on every checked list

  lemma {:induction false} LoopsAgree(env: Env, tree: BuilderEnv, prev: Token, ts: seq<Item>, st: State, st': State,
                                      spent: bool, depth: nat, event: Event)
    requires depth <= MAX_RECURSION_DEPTH && ParenCheck(ts, 0, MAX_RECURSION_DEPTH - depth) == None
    requires PairsWithin(ts) && EndsWell(prev, ts) && Gathered(prev, st)
    requires spent && ts != [] ==> ts[0].token != IdentifierAll
    requires Related(st, st', spent, event) && SameParts(env, tree, ts, event)
    ensures Agree(tree, ts, spent, |st.ands|, |st.ors|, BuildLoop(env, ts, st, depth),
                  TreeLoop(tree, ts, st', depth), event)
    decreases |ts|, 1
  {
    if ts == [] {
      FinishAlike(st, st', spent, event);
    } else if ts[0].token == SepLpar {
      GroupsAgree(env, tree, ts, st, st', spent, depth, event);
    } else {
      var item, rest := ts[0], ts[1..];
      StepsAlike(env, tree, item, st, st', spent, event);
      var next, next' := Step(env, item, st), TreeStep(tree, item, st');
      if next.Ok? && next'.Ok? {
        LoopsAgree(env.Skip(Draws(item)), tree, item.token, rest, next.value, next'.value,
                   SpentAfter(item.token, spent), depth, event);
      }
    }
  }

  lemma {:induction false} GroupsAgree(env: Env, tree: BuilderEnv, ts: seq<Item>, st: State, st': State, spent: bool,
                                       depth: nat, event: Event)
    requires depth <= MAX_RECURSION_DEPTH && ParenCheck(ts, 0, MAX_RECURSION_DEPTH - depth) == None
    requires ts != [] && ts[0].token == SepLpar && PairsWithin(ts) && EndsWell(Nil, ts)
    requires Related(st, st', spent, event) && SameParts(env, tree, ts, event)
    ensures Agree(tree, ts, spent, |st.ands|, |st.ors|, BuildLoop(env, ts, st, depth),
                  TreeLoop(tree, ts, st', depth), event)
    decreases |ts|, 0
  {
    var group, rest := GroupChecked(ts, MAX_RECURSION_DEPTH - depth);
    GroupParts(env, tree, ts, group, rest, event);
    ListsAgree(env, tree, group, depth + 1, event);
    var node, node' := Build(env, group, depth + 1), BuildTree(tree, group, depth + 1);
    if Unspent(group, false) && node.Ok? && node'.Ok? {
      PushAlike(st, st', spent, node.value, node'.value, event);
      LoopsAgree(env.Skip(Thems(group)), tree, SepRpar, rest, Push(st, node.value), Push(st', node'.value), spent,
                 depth, event);
    }
  }

  /** The two compilers on any list whose neighbours agree and whose parentheses are balanced. */
  lemma {:induction false} ListsAgree(env: Env, tree: BuilderEnv, ts: seq<Item>, depth: nat, event: Event)
    requires depth <= MAX_RECURSION_DEPTH && ParenCheck(ts, 0, MAX_RECURSION_DEPTH - depth) == None
    requires PairsWithin(ts) && (ts != [] ==> EndsWell(Nil, ts)) && SameParts(env, tree, ts, event)
    ensures Agree(tree, ts, false, 0, 0, Build(env, ts, depth), BuildTree(tree, ts, depth), event)
    decreases |ts|, 2
  {
    if ts != [] {
      LoopsAgree(env, tree, Nil, ts, START, START, false, depth, event);
    }
  }

  // ----- the second loop on its own

  lemma {:induction false} CompileAlong(tree: BuilderEnv, ts: seq<Item>, n: nat)
    requires n < |ts|
    ensures PartsCompile(tree, ts)
            <==> PartsCompile(tree, ts[..n]) && PartCompiles(tree, ts[n]) && PartsCompile(tree, ts[n + 1..])
    decreases n
  {
    if n > 0 {
      CompileAlong(tree, ts[1..], n - 1);
      assert ts[..n][1..] == ts[1..][..n - 1] && ts[1..][n..] == ts[n + 1..];
    }
  }

  /** A token that something may follow, or that ends an atom, is one the loops know. */
  lemma KnownToken(ts: seq<Item>, limit: nat)
    requires ts != [] && PairsWithin(ts) && EndsWell(Nil, ts) && ParenCheck(ts, 0, limit) == None
    ensures ts[0].token in {SepLpar, KeywordAnd, KeywordOr, KeywordNot, StmtOneOf, StmtAllOf,
                            Identifier, IdentifierAll, IdentifierWithWildcard}
  {
    if |ts| > 1 {
      assert ValidTokenSequence(ts[0].token, ts[1..][0].token);
    }
  }

  lemma TreeStepSucceeds(tree: BuilderEnv, item: Item, st: State)
    requires item.token in {KeywordAnd, KeywordOr, KeywordNot, StmtOneOf, StmtAllOf,
                            Identifier, IdentifierAll, IdentifierWithWildcard}
    requires item.token == KeywordOr ==> st.ands != []
    ensures var next := TreeStep(tree, item, st);
      && (next.Ok? <==> PartCompiles(tree, item) && (IsTarget(item.token) ==> st.wildcard.Some?))
      && (next.Ok? ==>
            && Gathered(item.token, next.value)
            && next.value.wildcard.Some? == PendingAfter(item.token, st.wildcard.Some?)
            && |next.value.ands| == AndsAfter(item.token, |st.ands|)
            && |next.value.ors| == OrsAfter(item.token, |st.ors|))
  {
  }

  lemma {:induction false} TreeLoopSucceeds(tree: BuilderEnv, prev: Token, ts: seq<Item>, st: State, depth: nat)
    requires depth <= MAX_RECURSION_DEPTH && ParenCheck(ts, 0, MAX_RECURSION_DEPTH - depth) == None
    requires PairsWithin(ts) && EndsWell(prev, ts) && Gathered(prev, st)
    requires ts != [] && ts[0].token == KeywordOr ==> st.ands != []
    ensures TreeLoop(tree, ts, st, depth).Ok?
            <==> Accepted(tree, ts, st.wildcard.Some?, |st.ands|, |st.ors|)
    decreases |ts|, 1
  {
    if ts == [] {
    } else if ts[0].token == SepLpar {
      TreeGroupSucceeds(tree, ts, st, depth);
    } else {
      var item, next := ts[0], TreeStep(tree, ts[0], st);
      KnownToken(ts, MAX_RECURSION_DEPTH - depth);
      TreeStepSucceeds(tree, item, st);
      if next.Ok? {
        TreeLoopSucceeds(tree, item.token, ts[1..], next.value, depth);
      }
    }
  }

  lemma {:induction false} TreeGroupSucceeds(tree: BuilderEnv, ts: seq<Item>, st: State, depth: nat)
    requires depth <= MAX_RECURSION_DEPTH && ParenCheck(ts, 0, MAX_RECURSION_DEPTH - depth) == None
    requires ts != [] && ts[0].token == SepLpar && PairsWithin(ts) && EndsWell(Nil, ts)
    ensures TreeLoop(tree, ts, st, depth).Ok?
            <==> Accepted(tree, ts, st.wildcard.Some?, |st.ands|, |st.ors|)
    decreases |ts|, 0
  {
    var group, rest := GroupChecked(ts, MAX_RECURSION_DEPTH - depth);
    GroupAccepted(tree, ts, group, rest, st.wildcard.Some?, |st.ands|, |st.ors|);
    AfterTreeGroup(tree, ts, group, rest, st, depth);
    if group != [] {
      NoLeadingOr(ts, group, rest);
      TreeLoopSucceeds(tree, Nil, group, START, depth + 1);
      var node := BuildTree(tree, group, depth + 1);
      if node.Ok? {
        PushCounts(st, node.value);
        TreeLoopSucceeds(tree, SepRpar, rest, Push(st, node.value), depth);
      }
    }
  }

  lemma PushCounts(st: State, node: Node)
    ensures var next := Push(st, node);
      && |next.ands| == |st.ands| + 1 && next.ors == st.ors && next.wildcard == st.wildcard
      && Gathered(SepRpar, next)
  {
  }

  lemma AfterTreeGroup(tree: BuilderEnv, ts: seq<Item>, group: seq<Item>, rest: seq<Item>, st: State, depth: nat)
    requires ts != [] && ts[0].token == SepLpar && SplitGroup(ts[1..], 1) == Some((group, rest))
    ensures var node := BuildTree(tree, group, depth + 1);
      && (node.Err? ==> TreeLoop(tree, ts, st, depth).Err?)
      && (node.Ok? ==> TreeLoop(tree, ts, st, depth) == TreeLoop(tree, rest, Push(st, node.value), depth))
    ensures group == [] ==> BuildTree(tree, group, depth + 1).Err?
  {
  }

  lemma GroupAccepted(tree: BuilderEnv, ts: seq<Item>, group: seq<Item>, rest: seq<Item>, pending: bool,
                      ands: nat, ors: nat)
    requires ts != [] && ts[0].token == SepLpar && SplitGroup(ts[1..], 1) == Some((group, rest))
    ensures Accepted(tree, ts, pending, ands, ors)
            <==> group != [] && Accepted(tree, group, false, 0, 0) && Accepted(tree, rest, pending, ands + 1, ors)
  {
    GroupShape(ts[1..], 1);
    CompileAlong(tree, ts[1..], |group|);
  }

  lemma NoLeadingOr(ts: seq<Item>, group: seq<Item>, rest: seq<Item>)
    requires ts != [] && ts[0].token == SepLpar && SplitGroup(ts[1..], 1) == Some((group, rest))
    requires PairsWithin(ts) && group != []
    ensures group[0].token != KeywordOr
  {
    GroupShape(ts[1..], 1);
    assert ts[1..][0] == group[0];
  }

  /** Exactly when the second compiler builds a checked list: it does not begin with `or`, every target has a pending
      statement, no group is empty, its parts compile and the branch limit holds. */
  lemma TreeBuildsExactly(tree: BuilderEnv, ts: seq<Item>)
    requires ts != [] ==> PairsOk(ts[0].token, ts[1..] + [Item(LitEof, "")])
    requires ParenCheck(ts, 0, MAX_RECURSION_DEPTH) == None
    ensures BuildTree(tree, ts, 0).Ok? <==> TreeAccepts(tree, ts)
  {
    if ts != [] {
      PairsEndWell(ts[0].token, ts[1..]);
      PairsOfPrefix(ts[0].token, ts[1..]);
      if ts[0].token != KeywordOr {
        TreeLoopSucceeds(tree, Nil, ts, START, 0);
      }
    }
  }

  // ----- the comparison

  /** The two compilers on every list the parser's pair and parenthesis checks let through, whatever its spelling and
      its first token. If no wildcard stands behind a statement that `them` has used up, the second succeeds exactly
      when the first does and the list is within the branch limit and its globs are allowed, and the trees give equal
      results. If one does, the first fails, and the second succeeds exactly on what it accepts. */
  lemma CompilersCompared(env: Env, tree: BuilderEnv, ts: seq<Item>, event: Event)
    requires ts != [] ==> PairsOk(ts[0].token, ts[1..] + [Item(LitEof, "")])
    requires ParenCheck(ts, 0, MAX_RECURSION_DEPTH) == None && SameParts(env, tree, ts, event)
    ensures var first, second := Build(env, ts, 0), BuildTree(tree, ts, 0);
      if Unspent(ts, false) then
        && (second.Ok? <==> first.Ok? && GlobsAllowed(tree, ts) && WithinLimits(ts, 0, 0))
        && (second.Ok? ==> Eval(second.value, event) == Eval(first.value, event))
      else first.Err? && (second.Ok? <==> TreeAccepts(tree, ts))
  {
    if ts != [] {
      PairsEndWell(ts[0].token, ts[1..]);
      PairsOfPrefix(ts[0].token, ts[1..]);
    }
    ListsAgree(env, tree, ts, 0, event);
    TreeBuildsExactly(tree, ts);
    if !Unspent(ts, false) {
      SpentFails(env, ts, START, false, 0);
    }
  }

  /** Where the two part: only the second succeeds exactly on the lists it accepts in which a wildcard stands behind a
      statement that `them` has used up; of the lists the first builds, the second refuses exactly those with a glob
      that is not allowed or too many branches. */
  lemma CompilersPart(env: Env, tree: BuilderEnv, ts: seq<Item>, event: Event)
    requires ts != [] ==> PairsOk(ts[0].token, ts[1..] + [Item(LitEof, "")])
    requires ParenCheck(ts, 0, MAX_RECURSION_DEPTH) == None && SameParts(env, tree, ts, event)
    ensures var first, second := Build(env, ts, 0), BuildTree(tree, ts, 0);
      && (first.Err? && second.Ok? <==> TreeAccepts(tree, ts) && !Unspent(ts, false))
      && (first.Ok? && second.Err? <==> first.Ok? && !(GlobsAllowed(tree, ts) && WithinLimits(ts, 0, 0)))
  {
    CompilersCompared(env, tree, ts, event);
    TreeBuildsExactly(tree, ts);
  }

  lemma {:induction false} PairsEndWell(prev: Token, ts: seq<Item>)
    requires PairsOk(prev, ts + [Item(LitEof, "")])
    ensures EndsWell(prev, ts)
    decreases |ts|
  {
    if ts != [] {
      assert (ts + [Item(LitEof, "")])[1..] == ts[1..] + [Item(LitEof, "")];
      PairsEndWell(ts[0].token, ts[1..]);
    }
  }

  // ----- on conditions

  lemma {:induction false} DisciplinedAlong(prev: Token, ts: seq<Item>, n: nat)
    requires n < |ts| && Disciplined(prev, ts)
    ensures Disciplined(prev, ts[..n]) && Disciplined(ts[n].token, ts[n + 1..])
    decreases n
  {
    if n > 0 {
      DisciplinedAlong(ts[0].token, ts[1..], n - 1);
      assert ts[..n][1..] == ts[1..][..n - 1] && ts[1..][n..] == ts[n + 1..];
    }
  }

  /** Where every wildcard directly follows a statement, none stands behind a used-up one. */
  lemma {:induction false} DisciplinedIsUnspent(prev: Token, ts: seq<Item>, spent: bool)
    requires Disciplined(prev, ts) && (spent ==> !IsStatement(prev))
    ensures Unspent(ts, spent)
    decreases |ts|
  {
    if ts == [] {
    } else if ts[0].token == SepLpar {
      var split := SplitGroup(ts[1..], 1);
      if split.Some? {
        GroupShape(ts[1..], 1);
        DisciplinedAlong(SepLpar, ts[1..], |split.value.0|);
        DisciplinedIsUnspent(SepLpar, split.value.0, false);
        DisciplinedIsUnspent(SepRpar, split.value.1, spent);
      }
    } else {
      DisciplinedIsUnspent(ts[0].token, ts[1..], SpentAfter(ts[0].token, spent));
    }
  }

  /** The two compilers agree: on every token list that is a condition, in any spelling, and any detection to whose
      parts in the condition the second compiler gives the same results on an event, the second succeeds exactly when
      the first does, the branch limit holds and the globs are allowed; its tree then evaluates to the condition's
      meaning. */
  lemma CompilersAgree(cfg: Config, det: Detection, tree: BuilderEnv, ts: seq<Item>, event: Event)
    requires det.Valid() && PassesLocalChecks(ts) && SameParts(DetectionEnv(cfg, det), tree, ts, event)
    ensures var first, second := Build(DetectionEnv(cfg, det), ts, 0), BuildTree(tree, ts, 0);
      && (second.Ok? <==> first.Ok? && GlobsAllowed(tree, ts) && WithinLimits(ts, 0, 0))
      && Parse(ts).Some?
      && Agrees(first, MeanCond(DetectionDenotation(cfg, det, event), Parse(ts).value), event)
      && (second.Ok? ==> Agrees(second, MeanCond(DetectionDenotation(cfg, det, event), Parse(ts).value), event))
  {
    var env := DetectionEnv(cfg, det);
    DisciplinedIsUnspent(Nil, ts, false);
    CompilersCompared(env, tree, ts, event);
    CheckedListBuilds(env, ts);
    DetectionDenotes(cfg, det, event);
    CondMeaning(env, DetectionDenotation(cfg, det, event), Parse(ts).value, event);
  }

  /** The detection's own items, `them` expanded in the order of the map itself. */
  function OwnParts(cfg: Config, det: Detection): BuilderEnv
    requires det.Valid()
  {
    BuilderEnv(
      name => LeafOf(cfg, det, name),
      RulesOf(cfg, det.entries, det.order),
      pattern => cfg.engine.identifiers(pattern).Some?,
      pattern => WildcardRules(cfg, det, pattern))
  }

  /** With the same items the second compiler's parts are the first's on every event whose items are not mixed, although
      the one expands `them` in the map's order and the other in the order of a copy. */
  lemma {:induction false} OwnPartsAreTheSame(cfg: Config, det: Detection, ts: seq<Item>, drawn: nat, event: Event)
    requires det.Valid() && !MixedItems(cfg, det, event)
    ensures SameParts(DetectionEnv(cfg, det).Skip(drawn), OwnParts(cfg, det), ts, event)
    decreases |ts|
  {
    if ts != [] {
      var env := DetectionEnv(cfg, det);
      OwnPartIsTheSame(cfg, det, ts[0], drawn, event);
      OwnPartsAreTheSame(cfg, det, ts[1..], drawn + Draws(ts[0]), event);
      assert env.Skip(drawn).Skip(Draws(ts[0])) == env.Skip(drawn + Draws(ts[0]));
    }
  }

  lemma OwnPartIsTheSame(cfg: Config, det: Detection, item: Item, drawn: nat, event: Event)
    requires det.Valid() && !MixedItems(cfg, det, event)
    ensures SamePart(DetectionEnv(cfg, det).Skip(drawn), OwnParts(cfg, det), item, event)
  {
    OwnExpansionIsTheSame(cfg, det, drawn, event);
  }

  lemma OwnExpansionIsTheSame(cfg: Config, det: Detection, i: nat, event: Event)
    requires det.Valid() && !MixedItems(cfg, det, event)
    ensures SameRules(AllRules(cfg, det, i), RulesOf(cfg, det.entries, det.order), event)
  {
    var keys, keys' := det.extractOrders(i), det.order;
    OrdersAgree(det, keys, keys');
    RulesDenote(cfg, det.entries, keys, event);
    RulesDenote(cfg, det.entries, keys', event);
    ReadingsOfSameKeys(cfg, det.entries, keys, keys', event);
    ExpansionNotMixed(cfg, det, keys, event);
    var rs, rs' := ReadingsOf(cfg, det.entries, keys, event), ReadingsOf(cfg, det.entries, keys', event);
    if SomeReadings(rs).Some? {
      AllOfIgnoresOrder(rs.value, rs'.value);
      AnyOfIgnoresOrder(rs.value, rs'.value);
    }
  }

  // ----- the branch limit and the globs of a condition

  function TermCount(c: Cond): nat {
    if c.Term? then 1 else 1 + TermCount(c.rest)
  }

  function FactorCount(c: Conj): nat {
    if c.Single? then 1 else 1 + FactorCount(c.rest)
  }

  function LastTerm(c: Cond): Conj {
    if c.Term? then c.conj else LastTerm(c.rest)
  }

  /** The branch limit, in this condition and every group in it: all terms but the last, plus the factors of the
      last. */
  predicate WithinBranches(c: Cond)
    decreases c, 1
  {
    TermCount(c) - 1 + FactorCount(LastTerm(c)) <= 1000 && TermsWithin(c)
  }

  predicate TermsWithin(c: Cond)
    decreases c, 0
  {
    ConjWithin(c.conj) && (c.Or? ==> TermsWithin(c.rest))
  }

  predicate ConjWithin(c: Conj) {
    AtomWithin(c.factor.atom) && (c.And? ==> ConjWithin(c.rest))
  }

  predicate AtomWithin(a: Atom) {
    a.Group? ==> WithinBranches(a.cond)
  }

  lemma {:induction false} LimitsOfAtom(a: Atom, k: seq<Item>, ands: nat, ors: nat)
    ensures WithinLimits(PrintAtom(a, k), ands, ors) <==> AtomWithin(a) && WithinLimits(k, ands + 1, ors)
    decreases a
  {
    match a
    case Name(n) => assert PrintAtom(a, k)[1..] == k;
    case Group(c) =>
      assert PrintAtom(a, k)[1..] == PrintCond(c, [RPAR] + k);
      assert SplitGroup([RPAR] + k, 1) == Some(([], k)) by { assert ([RPAR] + k)[1..] == k; }
      SplitCond(c, [RPAR] + k, 1);
      LimitsOfTerms(c, 0);
    case Quantified(all, target) =>
      var tail := [TargetItem(target)] + k;
      assert PrintAtom(a, k)[1..] == tail && tail[1..] == k;
  }

  lemma {:induction false} LimitsOfConj(c: Conj, k: seq<Item>, ands: nat, ors: nat)
    ensures WithinLimits(PrintConj(c, k), ands, ors) <==> ConjWithin(c) && WithinLimits(k, ands + FactorCount(c), ors)
    decreases c
  {
    match c
    case Single(f) => LimitsOfFactor(f, k, ands, ors);
    case And(f, rest) =>
      LimitsOfFactor(f, [AND] + PrintConj(rest, k), ands, ors);
      ConnectiveFree(PrintConj(rest, k), ands + 1, ors);
      LimitsOfConj(rest, k, ands + 1, ors);
      assert ands + 1 + FactorCount(rest) == ands + FactorCount(c);
  }

  lemma LimitsOfFactor(f: Factor, k: seq<Item>, ands: nat, ors: nat)
    ensures WithinLimits(PrintFactor(f, k), ands, ors) <==> AtomWithin(f.atom) && WithinLimits(k, ands + 1, ors)
    decreases f
  {
    LimitsOfAtom(f.atom, k, ands, ors);
    if f.negated {
      assert PrintFactor(f, k)[1..] == PrintAtom(f.atom, k);
    }
  }

  lemma ConnectiveFree(k: seq<Item>, ands: nat, ors: nat)
    ensures WithinLimits([AND] + k, ands, ors) == WithinLimits(k, ands, ors)
  {
    assert ([AND] + k)[1..] == k;
  }

  lemma {:induction false} LimitsOfTerms(c: Cond, ors: nat)
    ensures WithinLimits(Print(c), 0, ors)
            <==> TermsWithin(c) && ors + TermCount(c) - 1 + FactorCount(LastTerm(c)) <= MAX_BRANCHES
    decreases c
  {
    var tail := if c.Term? then [] else [OR] + Print(c.rest);
    LimitsOfConj(c.conj, tail, 0, ors);
    if c.Or? {
      assert tail[1..] == Print(c.rest);
      LimitsOfTerms(c.rest, ors + 1);
    }
  }

  /** On a printed condition the limit is one on its structure. */
  lemma LimitsOfCondition(c: Cond)
    ensures WithinLimits(Print(c), 0, 0) <==> WithinBranches(c)
  {
    LimitsOfTerms(c, 0);
  }

  /** Why the second compiler needs a wildcard to have a statement of its own: after `them` it keeps the statement
      pending and the first does not, so on "1 of them and" a bare wildcard only the second succeeds. */
  lemma CompilersDifferOnAPendingStatement(env: Env, tree: BuilderEnv, node: Node, one: Item, them: Item, sel: Item)
    requires one.token == StmtOneOf && them.token == IdentifierAll && sel.token == IdentifierWithWildcard
    requires env.all(env.drawn) == tree.all == env.wild(sel.value) == tree.wild(sel.value) == Ok([node])
    requires AllowedGlob(sel.value) && tree.globCompiles(sel.value)
    ensures var ts := [one] + ([them] + ([AND] + [sel]));
      !Unspent(ts, false) && Build(env, ts, 0).Err? && BuildTree(tree, ts, 0).Ok?
  {
    var third, second := [AND] + [sel], [them] + ([AND] + [sel]);
    var ts := [one] + second;
    assert ts[1..] == second && second[1..] == third && third[1..] == [sel];
    assert !Unspent([sel], true) && !Unspent(third, true) && !Unspent(second, false);
    SpentFails(env, ts, START, false, 0);
    var pending := START.(wildcard := Some(false));
    assert TreeLoop(tree, ts, START, 0) == TreeLoop(tree, second, pending, 0);
    assert TreeLoop(tree, second, pending, 0) == TreeLoop(tree, third, Push(pending, node), 0);
    TreeEndsOnAWildcard(tree, node, sel, Push(pending, node));
  }

  lemma TreeEndsOnAWildcard(tree: BuilderEnv, node: Node, sel: Item, st: State)
    requires sel.token == IdentifierWithWildcard && tree.wild(sel.value) == Ok([node])
    requires AllowedGlob(sel.value) && tree.globCompiles(sel.value)
    requires |st.ands| == 1 && st.ors == [] && !st.negated && st.wildcard.Some?
    ensures TreeLoop(tree, [AND] + [sel], st, 0).Ok?
  {
    var next := Push(st, node).(wildcard := None);
    assert ([AND] + [sel])[1..] == [sel] && [sel][1..] == [];
    assert TreeLoop(tree, [sel], st, 0) == TreeLoop(tree, [], next, 0);
    assert |next.ands| == 2;
  }

  const THEM := Item(IdentifierAll, "them")
  const STARRED := Item(IdentifierWithWildcard, "s*")

  lemma LayoutOfThemAndStarred()
    ensures Layout([ONE, THEM, AND, STARRED], ["", " ", " ", " ", ""]) == "1 of them and s*"
  {
    LayoutOfAndStarred();
    assert [THEM, AND, STARRED][1..] == [AND, STARRED] && [" ", " ", " ", ""][1..] == [" ", " ", ""];
    assert Layout([THEM, AND, STARRED], [" ", " ", " ", ""]) == " them and s*";
    assert [ONE, THEM, AND, STARRED][1..] == [THEM, AND, STARRED];
    assert ["", " ", " ", " ", ""][1..] == [" ", " ", " ", ""];
  }

  lemma LayoutOfAndStarred()
    ensures Layout([AND, STARRED], [" ", " ", ""]) == " and s*"
  {
    assert Layout([], [""]) == "";
    assert [STARRED][1..] == [] && [" ", ""][1..] == [""];
    assert Layout([STARRED], [" ", ""]) == " s*";
    assert [AND, STARRED][1..] == [STARRED] && [" ", " ", ""][1..] == [" ", ""];
  }

  lemma PairsOfThemAndStarred()
    ensures PairsOk(ONE.token, [THEM, AND, STARRED])
  {
    assert [STARRED][1..] == [];
    assert PairsOk(AND.token, [STARRED]);
    assert [AND, STARRED][1..] == [STARRED];
    assert PairsOk(THEM.token, [AND, STARRED]);
    assert [THEM, AND, STARRED][1..] == [AND, STARRED];
  }

  lemma WordsOfThemAndStarred()
    ensures ProperItem(THEM) && ProperItem(AND) && ProperItem(STARRED)
  {
    assert CheckKeyword("and") == KeywordAnd && CheckKeyword("them") == IdentifierAll;
    assert CheckKeyword("s*") == IdentifierWithWildcard by {
      assert "s*"[1] == '*';
    }
  }

  lemma ItemsOfThemAndStarred(text: string)
    requires text == "1 of them and s*"
    ensures TokensOf(text) == [ONE] + ([THEM] + ([AND] + [STARRED]))
  {
    var ts, gaps := [ONE, THEM, AND, STARRED], ["", " ", " ", " ", ""];
    LayoutOfThemAndStarred();
    WordsOfThemAndStarred();
    assert ProperItem(ONE) && forall i :: 0 <= i < |ts| ==> ProperItem(ts[i]);
    PairsOfThemAndStarred();
    assert ts[1..] == [THEM, AND, STARRED];
    LexReadsLayout(ts, gaps);
  }

  lemma StarredIsAllowed()
    ensures AllowedGlob("s*")
  {
    assert "s*"[1..] == "*" && "*"[1..] == "";
    assert CountWildcards("*") == 1 && CountWildcards("s*") == 1;
    assert !ContainsText("", "**") && !ContainsText("", "*?*") && !ContainsText("", "?*?");
    assert !ContainsText("*", "**") && !ContainsText("*", "*?*") && !ContainsText("*", "?*?");
  }

  /** A text and a detection: with one item that compiles and that the wildcard selects, the first compiler refuses
      "1 of them and s*" and the second, working with the same item, builds it. */
  lemma CompilersDifferOnAText(limits: Limits, cfg: Config, det: Detection, key: string, text: string)
    requires text == "1 of them and s*"
    requires det.Valid() && det.order == [key] && key in det.entries && RuleOf(cfg, key, det.entries[key]).Ok?
    requires cfg.engine.identifiers("s*").Some? && cfg.engine.identifiers("s*").value(key)
    ensures RunResult(limits, DetectionEnv(cfg, det), text).Err?
    ensures Build(DetectionEnv(cfg, det), TokensOf(text), 0).Err?
    ensures BuildTree(OwnParts(cfg, det), TokensOf(text), 0).Ok?
  {
    ItemsOfThemAndStarred(text);
    StarredIsAllowed();
    OneRule(cfg, det, key);
    var env, tree := DetectionEnv(cfg, det), OwnParts(cfg, det);
    CompilersDifferOnAPendingStatement(env, tree, RuleOf(cfg, key, det.entries[key]).value, ONE, THEM, STARRED);
    AcceptedTokens(limits, env, text);
  }

  lemma OneRule(cfg: Config, det: Detection, key: string)
    requires det.Valid() && det.order == [key] && key in det.entries && RuleOf(cfg, key, det.entries[key]).Ok?
    requires cfg.engine.identifiers("s*").Some? && cfg.engine.identifiers("s*").value(key)
    ensures var rules := Ok([RuleOf(cfg, key, det.entries[key]).value]);
      && RulesOf(cfg, det.entries, [key]) == rules && AllRules(cfg, det, 0) == rules
      && WildcardRules(cfg, det, "s*") == rules
  {
    RulesOfOne(cfg, det.entries, key);
    OneOrder(det, key);
    SelectedOne(key, cfg.engine.identifiers("s*").value);
  }

  lemma RulesOfOne(cfg: Config, entries: map<string, Json>, key: string)
    requires key in entries && RuleOf(cfg, key, entries[key]).Ok?
    ensures RulesOf(cfg, entries, [key]) == Ok([RuleOf(cfg, key, entries[key]).value])
  {
    assert [key][..0] == [];
    assert RulesOf(cfg, entries, []) == Ok([]);
    var rule := RuleOf(cfg, key, entries[key]).value;
    assert [] + [rule] == [rule];
  }

  lemma SelectedOne(key: string, test: string -> bool)
    requires test(key)
    ensures Selected([key], test) == [key]
  {
    assert Selected([key][..0], test) == [];
  }

  lemma OneOrder(det: Detection, key: string)
    requires det.Valid() && det.order == [key]
    ensures det.extractOrders(0) == [key]
  {
    var keys := det.extractOrders(0);
    assert key in det.order && key in keys;
    assert forall k :: k in keys ==> k in det.order;
    assert forall i :: 0 <= i < |keys| ==> keys[i] in keys;
    assert keys[0] == key && keys[|keys| - 1] == key;
  }
}
