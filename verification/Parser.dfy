/** The parser (`src/parser/mod.rs`): lexing and checking the condition, then building its node. */
module Parsing {
  import opened Wrappers
  import opened Tokens
  import opened Validation
  import opened Lexing
  import opened Errors
  import opened LocalChecks
  import opened Nodes
  import opened Detections
  import opened Building

  /** The limits on collecting; an item costs its structure plus overhead plus its value. */
  datatype Limits = Limits(itemOverhead: nat, maxTokens: nat, maxMemory: nat)
  {
    function ItemSize(item: Item): nat {
      itemOverhead + |item.value|
    }
  }

  const BEGIN := Item(Identifier, "<begin>")

  /** The tokens of the remaining items after those kept, or the first complaint. */
  function CollectFrom(limits: Limits, prev: Item, kept: seq<Item>, memory: nat, items: seq<Item>)
    : Result<seq<Item>, ParseError>
    decreases |items|
  {
    if items == [] then if prev.token == LitEof then Ok(kept) else Err(IncompleteSequence(prev))
    else
      var item, size := items[0], limits.ItemSize(items[0]);
      if item.token == Unsupported then Err(UnsupportedItem(item.value))
      else if prev.value != BEGIN.value && !ValidTokenSequence(prev.token, item.token) then
        Err(InvalidTokenSequence(prev, item))
      else if item.token == LitEof then CollectFrom(limits, item, kept, memory, items[1..])
      else if |kept| >= limits.maxTokens then Err(TokenLimitExceeded(|kept|, limits.maxTokens))
      else if memory + size > limits.maxMemory then Err(MemoryLimitExceeded(memory + size, limits.maxMemory))
      else CollectFrom(limits, item, kept + [item], memory + size, items[1..])
  }

  function Collected(limits: Limits, condition: string): Result<seq<Item>, ParseError> {
    CollectFrom(limits, BEGIN, [], 0, Lex("", condition))
  }

  lemma CollectNext(limits: Limits, prev: Item, kept: seq<Item>, memory: nat, items: seq<Item>)
    requires items != []
    ensures var item, size := items[0], limits.ItemSize(items[0]);
      CollectFrom(limits, prev, kept, memory, items)
      == if item.token == Unsupported then Err(UnsupportedItem(item.value))
         else if prev.value != BEGIN.value && !ValidTokenSequence(prev.token, item.token) then
           Err(InvalidTokenSequence(prev, item))
         else if item.token == LitEof then CollectFrom(limits, item, kept, memory, items[1..])
         else if |kept| >= limits.maxTokens then Err(TokenLimitExceeded(|kept|, limits.maxTokens))
         else if memory + size > limits.maxMemory then Err(MemoryLimitExceeded(memory + size, limits.maxMemory))
         else CollectFrom(limits, item, kept + [item], memory + size, items[1..])
  {
  }

  /** What a run of the parser yields, whatever detection items compile to. */
  function RunResult(limits: Limits, env: Env, condition: string): Result<Node, ParseError> {
    match Collected(limits, condition)
    case Err(e) => Err(e)
    case Ok(tokens) =>
      match ParenCheck(tokens, 0, MAX_RECURSION_DEPTH)
      case Some(e) => Err(e)
      case None => Build(env, tokens, 0)
  }

  /** Names are looked up in the detection. */
  function DetectionEnv(cfg: Config, det: Detection): Env
    requires det.Valid()
  {
    Env(name => LeafOf(cfg, det, name), (call: nat) => AllRules(cfg, det, call),
        pattern => WildcardRules(cfg, det, pattern), 0)
  }

  function LeafOf(cfg: Config, det: Detection, name: string): Result<Node, ParseError> {
    if name in det.entries then RuleOf(cfg, name, det.entries[name]) else Err(MissingConditionItem(name))
  }

  class Parser {
    const detection: Detection
    const cfg: Config
    const condition: string
    const limits: Limits
    var tokens: seq<Item>
    var previous: Option<Item>
    var memoryUsed: nat
    var result: Option<Node>

    constructor (detection: Detection, cfg: Config, limits: Limits)
      ensures this.detection == detection && this.cfg == cfg && this.limits == limits
      ensures if "condition" in detection.entries && detection.entries["condition"].Str?
              then condition == detection.entries["condition"].s else condition == ""
      ensures tokens == [] && previous == None && memoryUsed == 0 && result == None
    {
      this.detection, this.cfg, this.limits := detection, cfg, limits;
      condition := ConditionOf(detection);
      tokens, previous, memoryUsed, result := [], None, 0, None;
    }

    /** `run`. */
    method Run() returns (error: Option<ParseError>)
      requires detection.Valid() && tokens == [] && memoryUsed == 0
      modifies this
      ensures match RunResult(limits, DetectionEnv(cfg, detection), condition)
              case Err(e) => error == Some(e)
              case Ok(node) => error == None && result == Some(node)
    {
      error := Collect();
      if error == None {
        error := Parse();
      }
    }

    /** `collect`: the lexer's items are checked one by one against the one before. */
    method Collect() returns (error: Option<ParseError>)
      requires tokens == [] && memoryUsed == 0
      modifies this`tokens, this`previous, this`memoryUsed
      ensures match Collected(limits, condition)
              case Err(e) => error == Some(e)
              case Ok(collected) => error == None && tokens == collected
    {
      var lexer := new Lexer(condition);
      lexer.Scan();
      var items := lexer.items;
      previous := Some(BEGIN);
      ghost var whole := Collected(limits, condition);
      assert items[0..] == items;
      for i := 0 to |items|
        invariant previous.Some?
        invariant CollectFrom(limits, previous.value, tokens, memoryUsed, items[i..]) == whole
      {
        ghost var rest := items[i..];
        assert rest[0] == items[i] && rest[1..] == items[i + 1..];
        CollectNext(limits, previous.value, tokens, memoryUsed, rest);
        var item := items[i];
        if item.token == Unsupported {
          return Some(UnsupportedItem(item.value));
        }
        var prev := previous.value;
        var isBegin := prev.value == "<begin>";
        if !isBegin && !ValidTokenSequence(prev.token, item.token) {
          return Some(InvalidTokenSequence(prev, item));
        }
        if item.token != LitEof {
          if |tokens| >= limits.maxTokens {
            return Some(TokenLimitExceeded(|tokens|, limits.maxTokens));
          }
          var size := limits.ItemSize(item);
          if memoryUsed + size > limits.maxMemory {
            return Some(MemoryLimitExceeded(memoryUsed + size, limits.maxMemory));
          }
          tokens := tokens + [item];
          memoryUsed := memoryUsed + size;
        }
        previous := Some(item);
      }
      if previous.value.token != LitEof {
        return Some(IncompleteSequence(previous.value));
      }
      return None;
    }

    /** `parse`: parentheses first, then the tree. */
    method Parse() returns (error: Option<ParseError>)
      requires detection.Valid()
      modifies this`result
      ensures match ParenCheck(tokens, 0, MAX_RECURSION_DEPTH)
              case Some(e) => error == Some(e)
              case None =>
                match Build(DetectionEnv(cfg, detection), tokens, 0)
                case Err(e) => error == Some(e)
                case Ok(node) => error == None && result == Some(node)
    {
      error := ValidateParentheses(tokens);
      if error == None {
        var node, _ := NewBranch(cfg, detection, tokens, 0, 0);
        match node
        case Err(e) => error := Some(e);
        case Ok(n) => result := Some(n);
      }
    }
  }

  /** The condition text, empty when it is missing or not a string. */
  function ConditionOf(detection: Detection): string {
    if "condition" in detection.entries && detection.entries["condition"].Str? then detection.entries["condition"].s
    else ""
  }

  /** `new_branch`, after `calls` calls of `extract`; `calls'` counts those made in it too. */
  method NewBranch(cfg: Config, det: Detection, tokens: seq<Item>, depth: nat, calls: nat)
    returns (r: Result<Node, ParseError>, calls': nat)
    requires det.Valid()
    ensures r == Build(DetectionEnv(cfg, det).Skip(calls), tokens, depth)
    ensures r.Ok? ==> calls' == calls + Thems(tokens)
    decreases |tokens|, 1
  {
    calls' := calls;
    if depth > MAX_RECURSION_DEPTH {
      return Err(RecursionLimitExceeded(depth, MAX_RECURSION_DEPTH)), calls';
    }
    ghost var env := DetectionEnv(cfg, det);
    ghost var here, whole := env.Skip(calls), Build(env.Skip(calls), tokens, depth);
    var andBranches: seq<Node>, orBranches: seq<Node> := [], [];
    var negated, wildcard: Option<bool> := false, None;
    var i := 0;
    assert tokens[0..] == tokens;
    while i < |tokens|
      invariant 0 <= i <= |tokens|
      invariant here == env.Skip(calls')
      invariant BuildLoop(here, tokens[i..], State(andBranches, orBranches, negated, wildcard), depth) == whole
      invariant calls' + Thems(tokens[i..]) == calls + Thems(tokens)
    {
      assert tokens[i..][1..] == tokens[i + 1..];
      if tokens[i].token == SepLpar {
        var branch, next, more := TakeGroup(cfg, det, tokens, i + 1, depth, calls');
        AfterGroup(here, tokens[i..], tokens[i + 1..], State(andBranches, orBranches, negated, wildcard), depth);
        if branch.Err? {
          return Err(branch.error), more;
        }
        ghost var pushed := Push(State(andBranches, orBranches, negated, wildcard), branch.value);
        andBranches := andBranches + [Negate(negated, branch.value)];
        negated := false;
        assert State(andBranches, orBranches, negated, wildcard) == pushed;
        ghost var group := SplitGroup(tokens[i + 1..], 1).value.0;
        assert here.Skip(Thems(group)) == env.Skip(more);
        i, calls', here := next, more, env.Skip(more);
      } else {
        AfterToken(here, tokens[i..], State(andBranches, orBranches, negated, wildcard), depth);
        var error;
        error, andBranches, orBranches, negated, wildcard, calls' :=
          TakeToken(cfg, det, tokens[i], andBranches, orBranches, negated, wildcard, calls');
        if error.Some? {
          return Err(error.value), calls';
        }
        assert here.Skip(Draws(tokens[i])) == env.Skip(calls');
        i, here := i + 1, env.Skip(calls');
      }
    }
    r := FinishBranches(andBranches, orBranches);
  }

  /** The group after an opening parenthesis, built, and where the list goes on. */
  method TakeGroup(cfg: Config, det: Detection, tokens: seq<Item>, start: nat, depth: nat, calls: nat)
    returns (r: Result<Node, ParseError>, next: nat, calls': nat)
    requires det.Valid() && 0 < start <= |tokens|
    ensures match SplitGroup(tokens[start..], 1)
            case None => r == Err(UnbalancedParentheses)
            case Some((group, rest)) =>
              && r == Build(DetectionEnv(cfg, det).Skip(calls), group, depth + 1)
              && start <= next <= |tokens| && tokens[next..] == rest
              && (r.Ok? ==> calls' == calls + Thems(group) && Thems(tokens[start..]) == Thems(group) + Thems(rest))
    decreases |tokens|, 0
  {
    var group;
    group, next := ExtractGroup(tokens, start);
    if group == None {
      return Err(UnbalancedParentheses), next, calls;
    }
    GroupThems(tokens[start..], group.value, tokens[next..]);
    r, calls' := NewBranch(cfg, det, group.value, depth + 1, calls);
  }

  /** The loop's reaction to a token other than an opening parenthesis. */
  method TakeToken(cfg: Config, det: Detection, item: Item, ands: seq<Node>, ors: seq<Node>, negated: bool,
                   wildcard: Option<bool>, calls: nat)
    returns (error: Option<ParseError>, ands': seq<Node>, ors': seq<Node>, negated': bool, wildcard': Option<bool>,
             calls': nat)
    requires det.Valid() && item.token != SepLpar
    ensures match Step(DetectionEnv(cfg, det).Skip(calls), item, State(ands, ors, negated, wildcard))
            case Err(e) => error == Some(e)
            case Ok(st) => error == None && State(ands', ors', negated', wildcard') == st
    ensures calls' == calls + Draws(item)
  {
    error, ands', ors', negated', wildcard', calls' := None, ands, ors, negated, wildcard, calls + Draws(item);
    match item.token {
      case KeywordAnd =>
      case KeywordNot => negated' := true;
      case StmtAllOf => wildcard' := Some(true);
      case StmtOneOf => wildcard' := Some(false);
      case KeywordOr =>
        var andNode := ReduceAnd(ands);
        match andNode {
          case Err(e) => error := Some(e);
          case Ok(node) => ands', ors' := [], ors + [node];
        }
      case Identifier =>
        var rule := BranchOfName(cfg, det, item.value);
        match rule {
          case Err(e) => error := Some(e);
          case Ok(node) => ands', negated' := ands + [Negate(negated, node)], false;
        }
      case IdentifierAll =>
        var branches := ExtractAllToRules(cfg, det, calls);
        error, ands', negated', wildcard' := TakeTarget(branches, ands, negated, wildcard);
      case IdentifierWithWildcard =>
        var branches := BranchesOfWildcard(cfg, det, item.value);
        error, ands', negated', wildcard' := TakeTarget(branches, ands, negated, wildcard);
      case _ => error := Some(UnsupportedToken(item.token));
    }
  }

  /** What the cases of `them` and of a wildcard do with the rules they have found. */
  method TakeTarget(branches: Result<seq<Node>, ParseError>, ands: seq<Node>, negated: bool, wildcard: Option<bool>)
    returns (error: Option<ParseError>, ands': seq<Node>, negated': bool, wildcard': Option<bool>)
    ensures match PushTarget(State(ands, [], negated, wildcard), branches)
            case Err(e) => error == Some(e)
            case Ok(st) => error == None && State(ands', [], negated', wildcard') == st
  {
    error, ands', negated', wildcard' := None, ands, negated, wildcard;
    if branches.Err? {
      error := Some(branches.error);
    } else if wildcard == None {
      error := Some(InvalidWildcardContext);
    } else {
      ands' := ands + [Negate(negated, Quantify(wildcard.value, branches.value))];
      negated', wildcard' := false, None;
    }
  }

  /** The end of `new_branch`, after its loop. */
  method FinishBranches(andBranches: seq<Node>, orBranches: seq<Node>) returns (r: Result<Node, ParseError>)
    ensures r == Finish(State(andBranches, orBranches, false, None))
  {
    var branches := orBranches;
    if |andBranches| > 0 {
      var andNode := ReduceAnd(andBranches);
      if andNode.Err? {
        return Err(andNode.error);
      }
      branches := branches + [andNode.value];
    }
    if |branches| == 0 {
      return Err(NoValidBranches);
    }
    r := ReduceOr(branches);
  }

  lemma GroupThems(ts: seq<Item>, group: seq<Item>, rest: seq<Item>)
    requires SplitGroup(ts, 1) == Some((group, rest))
    ensures Thems(ts) == Thems(group) + Thems(rest)
  {
    GroupShape(ts, 1);
    ThemsAlong(ts, |group|);
  }

  method BranchOfName(cfg: Config, det: Detection, name: string) returns (r: Result<Node, ParseError>)
    ensures r == LeafOf(cfg, det, name)
  {
    if name !in det.entries {
      return Err(MissingConditionItem(name));
    }
    r := CreateRuleFromIdent(cfg, name, det.entries[name]);
  }

  method BranchesOfWildcard(cfg: Config, det: Detection, pattern: string) returns (r: Result<seq<Node>, ParseError>)
    requires det.Valid()
    ensures r == WildcardRules(cfg, det, pattern)
  {
    match cfg.engine.identifiers(pattern)
    case None => r := Err(WildcardCompilationError(pattern));
    case Some(test) => r := ExtractWildcardIdents(cfg, det, test);
  }

  // ----- parenthesis errors

  /** A detection value fails to compile for its pattern, its fields or its type, never for parentheses. */
  lemma RulesHaveNoParenthesisErrors(cfg: Config, key: string, value: Json)
    ensures RuleOf(cfg, key, value).Err?
            ==> RuleOf(cfg, key, value).error in {PatternCreationFailed, NoValidFieldPatterns, UnsupportedValue}
  {
  }

  lemma {:induction false} RuleListsHaveNoParenthesisErrors(cfg: Config, entries: map<string, Json>, keys: seq<string>)
    requires forall k :: k in keys ==> k in entries
    ensures RulesOf(cfg, entries, keys).Err? ==> !IsParenthesisError(RulesOf(cfg, entries, keys).error)
  {
    if keys != [] {
      var n := |keys| - 1;
      RuleListsHaveNoParenthesisErrors(cfg, entries, keys[..n]);
      RulesHaveNoParenthesisErrors(cfg, keys[n], entries[keys[n]]);
    }
  }

  lemma DetectionsHaveNoParenthesisErrors(cfg: Config, det: Detection)
    requires det.Valid()
    ensures NoParenthesisErrors(DetectionEnv(cfg, det))
  {
    var env := DetectionEnv(cfg, det);
    forall n ensures env.leaf(n).Err? ==> !IsParenthesisError(env.leaf(n).error) {
      if n in det.entries {
        RulesHaveNoParenthesisErrors(cfg, n, det.entries[n]);
      }
    }
    forall i ensures env.all(i).Err? ==> !IsParenthesisError(env.all(i).error) {
      RuleListsHaveNoParenthesisErrors(cfg, det.entries, det.extractOrders(i));
    }
    forall p ensures env.wild(p).Err? ==> !IsParenthesisError(env.wild(p).error) {
      match cfg.engine.identifiers(p)
      case None =>
      case Some(test) => RuleListsHaveNoParenthesisErrors(cfg, det.entries, Selected(det.order, test));
    }
  }

  /** Whatever the detection, `new_branch` on tokens that pass the parenthesis check never fails with its depth limit,
      an unbalanced group or a stray closing parenthesis. */
  lemma CheckedTokensRaiseNoParenthesisErrors(cfg: Config, det: Detection, tokens: seq<Item>)
    requires det.Valid() && ParenCheck(tokens, 0, MAX_RECURSION_DEPTH) == None
    ensures var r := Build(DetectionEnv(cfg, det), tokens, 0); r.Err? ==> !IsParenthesisError(r.error)
  {
    DetectionsHaveNoParenthesisErrors(cfg, det);
    CheckedListsBuildWithoutParenthesisErrors(DetectionEnv(cfg, det), tokens, 0);
  }
}
