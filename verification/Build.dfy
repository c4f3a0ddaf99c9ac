/** From a checked token list to a node (`src/parser/mod.rs`, `new_branch`): what the loop computes, independent of how
    detection items become nodes. */
module Building {
  import opened Wrappers
  import opened Tokens
  import opened Errors
  import opened LocalChecks
  import opened Nodes

  /** How names, `them` and wildcard names become nodes. Every `them` draws its own expansion: the items come from a
      fresh hash map each time, in that map's order. `drawn` counts the expansions drawn so far. */
  datatype Env = Env(
    leaf: string -> Result<Node, ParseError>,
    all: nat -> Result<seq<Node>, ParseError>,
    wild: string -> Result<seq<Node>, ParseError>,
    drawn: nat)
  {
    /** After `n` more expansions. */
    function Skip(n: nat): Env {
      this.(drawn := drawn + n)
    }
  }

  /** 1 for a `them`. */
  function Draws(item: Item): nat {
    if item.token == IdentifierAll then 1 else 0
  }

  /** How many expansions a token list draws. */
  function Thems(ts: seq<Item>): nat {
    if ts == [] then 0 else Draws(ts[0]) + Thems(ts[1..])
  }

  /** The loop's variables; the wildcard is the pending statement, `true` for "all of". */
  datatype State = State(ands: seq<Node>, ors: seq<Node>, negated: bool, wildcard: Option<bool>)

  const START := State([], [], false, None)

  function Negate(negated: bool, node: Node): Node {
    if negated then Not(node) else node
  }

  function Push(st: State, node: Node): State {
    st.(ands := st.ands + [Negate(st.negated, node)], negated := false)
  }

  function Quantify(all: bool, branches: seq<Node>): Node {
    if all then SimpleAnd(branches) else SimpleOr(branches)
  }

  /** A target's rules under the pending statement. */
  function PushTarget(st: State, rules: Result<seq<Node>, ParseError>): Result<State, ParseError> {
    match rules
    case Err(e) => Err(e)
    case Ok(branches) =>
      match st.wildcard
      case None => Err(InvalidWildcardContext)
      case Some(all) => Ok(Push(st, Quantify(all, branches)).(wildcard := None))
  }

  /** One token other than an opening parenthesis. */
  function Step(env: Env, item: Item, st: State): Result<State, ParseError> {
    match item.token
    case Identifier => (
      match env.leaf(item.value)
      case Err(e) => Err(e)
      case Ok(node) => Ok(Push(st, node)))
    case KeywordAnd => Ok(st)
    case KeywordOr => (
      match ReduceAnd(st.ands)
      case Err(e) => Err(e)
      case Ok(node) => Ok(st.(ands := [], ors := st.ors + [node])))
    case KeywordNot => Ok(st.(negated := true))
    case StmtAllOf => Ok(st.(wildcard := Some(true)))
    case StmtOneOf => Ok(st.(wildcard := Some(false)))
    case IdentifierAll => PushTarget(st, env.all(env.drawn))
    case IdentifierWithWildcard => PushTarget(st, env.wild(item.value))
    case _ => Err(UnsupportedToken(item.token))
  }

  /** The end of the loop: the last conjunction joins the disjunction. */
  function Finish(st: State): Result<Node, ParseError> {
    if st.ands == [] then FinishOr(st.ors)
    else match ReduceAnd(st.ands)
      case Err(e) => Err(e)
      case Ok(node) => FinishOr(st.ors + [node])
  }

  function FinishOr(ors: seq<Node>): Result<Node, ParseError> {
    if ors == [] then Err(NoValidBranches) else ReduceOr(ors)
  }

  /** The tokens up to the parenthesis that closes `balance` open ones, and those after it. */
  function SplitGroup(ts: seq<Item>, balance: nat): (r: Option<(seq<Item>, seq<Item>)>)
    requires balance > 0
    ensures r.Some? ==> |r.value.0| + |r.value.1| < |ts|
  {
    if ts == [] then None
    else if ts[0].token == SepRpar && balance == 1 then Some(([], ts[1..]))
    else
      var balance' := match ts[0].token case SepLpar => balance + 1 case SepRpar => balance - 1 case _ => balance;
      Prepend([ts[0]], SplitGroup(ts[1..], balance'))
  }

  /** `extract_group`, over a position in the token list instead of an iterator. */
  method ExtractGroup(ts: seq<Item>, start: nat) returns (group: Option<seq<Item>>, next: nat)
    requires start <= |ts|
    ensures match SplitGroup(ts[start..], 1)
            case None => group == None && next == |ts|
            case Some((g, rest)) => group == Some(g) && next <= |ts| && ts[next..] == rest
  {
    var items: seq<Item> := [];
    var balance: nat := 1;
    ghost var whole := SplitGroup(ts[start..], 1);
    Prepended(whole);
    for i := start to |ts|
      invariant balance > 0
      invariant whole == Prepend(items, SplitGroup(ts[i..], balance))
    {
      assert ts[i..][1..] == ts[i + 1..];
      var item := ts[i];
      if balance > 0 {
        items := items + [item];
      }
      if item.token == SepLpar {
        balance := balance + 1;
      } else if item.token == SepRpar {
        balance := balance - 1;
        if balance == 0 {
          items := items[..|items| - 1];
          assert items + [] == items;
          return Some(items), i + 1;
        }
      }
      PrependedTwice(items[..|items| - 1], item, SplitGroup(ts[i + 1..], balance));
    }
    return None, |ts|;
  }

  function Prepend(items: seq<Item>, split: Option<(seq<Item>, seq<Item>)>): Option<(seq<Item>, seq<Item>)> {
    match split
    case None => None
    case Some((group, rest)) => Some((items + group, rest))
  }

  lemma Prepended(split: Option<(seq<Item>, seq<Item>)>)
    ensures Prepend([], split) == split
  {
    if split.Some? {
      assert [] + split.value.0 == split.value.0;
    }
  }

  lemma PrependedTwice(items: seq<Item>, item: Item, split: Option<(seq<Item>, seq<Item>)>)
    ensures Prepend(items, Prepend([item], split)) == Prepend(items + [item], split)
  {
    if split.Some? {
      assert items + ([item] + split.value.0) == (items + [item]) + split.value.0;
    }
  }

  function Build(env: Env, ts: seq<Item>, depth: nat): Result<Node, ParseError>
    decreases |ts|, 1
  {
    if depth > MAX_RECURSION_DEPTH then Err(RecursionLimitExceeded(depth, MAX_RECURSION_DEPTH))
    else BuildLoop(env, ts, START, depth)
  }

  function BuildLoop(env: Env, ts: seq<Item>, st: State, depth: nat): Result<Node, ParseError>
    decreases |ts|, 0
  {
    if ts == [] then Finish(st)
    else if ts[0].token == SepLpar then
      match SplitGroup(ts[1..], 1)
      case None => Err(UnbalancedParentheses)
      case Some((group, rest)) =>
        match Build(env, group, depth + 1)
        case Err(e) => Err(e)
        case Ok(node) => BuildLoop(env.Skip(Thems(group)), rest, Push(st, node), depth)
    else
      match Step(env, ts[0], st)
      case Err(e) => Err(e)
      case Ok(st') => BuildLoop(env.Skip(Draws(ts[0])), ts[1..], st', depth)
  }

  lemma AfterGroup(env: Env, ts: seq<Item>, tail: seq<Item>, st: State, depth: nat)
    requires ts != [] && ts[0].token == SepLpar && tail == ts[1..]
    ensures match SplitGroup(tail, 1)
            case None => BuildLoop(env, ts, st, depth) == Err(UnbalancedParentheses)
            case Some((group, others)) =>
              var node := Build(env, group, depth + 1);
              BuildLoop(env, ts, st, depth)
              == if node.Err? then Err(node.error)
                 else BuildLoop(env.Skip(Thems(group)), others, Push(st, node.value), depth)
  {
  }

  lemma AfterToken(env: Env, ts: seq<Item>, st: State, depth: nat)
    requires ts != [] && ts[0].token != SepLpar
    ensures var st' := Step(env, ts[0], st);
      BuildLoop(env, ts, st, depth)
      == if st'.Err? then Err(st'.error) else BuildLoop(env.Skip(Draws(ts[0])), ts[1..], st'.value, depth)
  {
  }

  // ----- on lists that pass the parenthesis check

  /** The extracted group and the rest are the list around one closing parenthesis. */
  lemma {:induction false} GroupShape(ts: seq<Item>, balance: nat)
    requires balance > 0 && SplitGroup(ts, balance).Some?
    ensures var (group, rest) := SplitGroup(ts, balance).value;
      && |ts| == |group| + 1 + |rest| && ts[..|group|] == group
      && ts[|group|].token == SepRpar && ts[|group| + 1..] == rest
    decreases |ts|
  {
    if !(ts[0].token == SepRpar && balance == 1) {
      var balance' := match ts[0].token case SepLpar => balance + 1 case SepRpar => balance - 1 case _ => balance;
      GroupShape(ts[1..], balance');
      var (group, rest) := SplitGroup(ts[1..], balance').value;
      assert ts == [ts[0]] + ts[1..];
    }
  }

  /** The expansions a list draws are those its parts draw. */
  lemma {:induction false} ThemsAlong(ts: seq<Item>, n: nat)
    requires n < |ts|
    ensures Thems(ts) == Thems(ts[..n]) + Draws(ts[n]) + Thems(ts[n + 1..])
    decreases n
  {
    if n > 0 {
      ThemsAlong(ts[1..], n - 1);
      assert ts[..n][1..] == ts[1..][..n - 1] && ts[1..][n..] == ts[n + 1..];
    }
  }

  /** On a list that passes the check the group is found; it is itself balanced, one level less deep, and so is what
      follows it. */
  lemma {:induction false} GroupIsBalanced(ts: seq<Item>, balance: nat, depth: nat, limit: nat)
    requires 0 < balance <= depth <= limit
    requires ParenCheck(ts, depth, limit) == None
    ensures SplitGroup(ts, balance).Some?
    ensures var (group, rest) := SplitGroup(ts, balance).value;
      && ParenCheck(group, balance - 1, limit - (depth - balance + 1)) == None
      && ParenCheck(rest, depth - balance, limit) == None
    decreases |ts|
  {
    if !(ts[0].token == SepRpar && balance == 1) {
      var down := ts[0].token == SepRpar;
      var up := ts[0].token == SepLpar;
      var balance' := if up then balance + 1 else if down then balance - 1 else balance;
      var depth' := if up then depth + 1 else if down then depth - 1 else depth;
      GroupIsBalanced(ts[1..], balance', depth', limit);
      var group := SplitGroup(ts[1..], balance').value.0;
      assert ([ts[0]] + group)[1..] == group;
    }
  }

  /** An error that only parentheses could cause. */
  predicate IsParenthesisError(e: ParseError) {
    || e.RecursionLimitExceeded?
    || e == UnbalancedParentheses
    || e == UnsupportedToken(SepRpar)
  }

  ghost predicate NoParenthesisErrors(env: Env) {
    && (forall n :: env.leaf(n).Err? ==> !IsParenthesisError(env.leaf(n).error))
    && (forall i :: env.all(i).Err? ==> !IsParenthesisError(env.all(i).error))
    && (forall p :: env.wild(p).Err? ==> !IsParenthesisError(env.wild(p).error))
  }

  /** A list that passes the parenthesis check is built without reaching the depth limit, an unbalanced group or a
      stray closing parenthesis, whatever else is wrong with it. */
  lemma {:induction false} CheckedListsBuildWithoutParenthesisErrors(env: Env, ts: seq<Item>, depth: nat)
    requires NoParenthesisErrors(env)
    requires depth <= MAX_RECURSION_DEPTH && ParenCheck(ts, 0, MAX_RECURSION_DEPTH - depth) == None
    ensures Build(env, ts, depth).Err? ==> !IsParenthesisError(Build(env, ts, depth).error)
    decreases |ts|, 1
  {
    CheckedLoop(env, ts, START, depth);
  }

  lemma {:induction false} CheckedLoop(env: Env, ts: seq<Item>, st: State, depth: nat)
    requires NoParenthesisErrors(env)
    requires depth <= MAX_RECURSION_DEPTH && ParenCheck(ts, 0, MAX_RECURSION_DEPTH - depth) == None
    ensures var r := BuildLoop(env, ts, st, depth); r.Err? ==> !IsParenthesisError(r.error)
    decreases |ts|, 0
  {
    if ts == [] {
    } else if ts[0].token == SepLpar {
      GroupIsBalanced(ts[1..], 1, 1, MAX_RECURSION_DEPTH - depth);
      var (group, rest) := SplitGroup(ts[1..], 1).value;
      CheckedListsBuildWithoutParenthesisErrors(env, group, depth + 1);
      var node := Build(env, group, depth + 1);
      if node.Ok? {
        CheckedLoop(env.Skip(Thems(group)), rest, Push(st, node.value), depth);
      }
    } else {
      var st' := Step(env, ts[0], st);
      if st'.Ok? {
        CheckedLoop(env.Skip(Draws(ts[0])), ts[1..], st'.value, depth);
      }
    }
  }
}
