/** What a detection value means on an event, without nodes, and that compiling it keeps that meaning. */
module DetectionMeaning {
  import opened Wrappers
  import opened Errors
  import opened Patterns
  import opened Nodes
  import opened Detections

  /** A test of one field applies when the event has the field. */
  function TextVerdict(event: Event, name: string, m: StringMatcher): MatchResult {
    match event.select(name)
    case None => NOT_APPLICABLE
    case Some(v) => MatchResult(m.StringMatch(v.text), true)
  }

  function NumberVerdict(event: Event, name: string, n: int): MatchResult {
    match event.select(name)
    case None => NOT_APPLICABLE
    case Some(v) => MatchResult(v.number == Some(n), true)
  }

  function TextReading(cfg: Config, k: FieldKey, modifier: Modifier, pattern: string, event: Event)
    : Option<MatchResult>
  {
    match SingleMatcher(cfg.engine, modifier, cfg.noCollapseWs, pattern)
    case None => None
    case Some(m) => Some(TextVerdict(event, k.name, m))
  }

  /** A scalar is read as a test of its field; it has no reading when its pattern does not compile. */
  function ScalarReading(cfg: Config, k: FieldKey, value: Json, event: Event): Option<MatchResult>
    requires value.Str? || value.Number? || value.Bool? || value.Null?
  {
    if value.Number? && value.asI64.Some? then
      Some(NumberVerdict(event, k.name, value.asI64.value))
    else
      var (modifier, pattern) := ScalarPattern(cfg, k, value);
      TextReading(cfg, k, modifier, pattern, event)
  }

  /** An object is the all-of of its fields, an array the any-of of its elements, strings under `|all` the all-of of
      theirs. Parts without a reading are left out, unless they are strings under `|all`; a composite of nothing has no
      reading. */
  function Reading(cfg: Config, key: string, value: Json, event: Event): Option<MatchResult>
    decreases value, 1
  {
    var k := ParsedKey(key);
    match value
    case Array(items) => (
      var rs := ElementReadings(cfg, k, items, event);
      if k.all && items != [] && AllStrings(items) then
        if |rs| == |items| then Some(AllOf(rs)) else None
      else if rs == [] then None else Some(AnyOf(rs)))
    case Object(fields) => ObjectReading(cfg, fields, event)
    case Null => None
    case _ => ScalarReading(cfg, k, value, event)
  }

  function ElementReadings(cfg: Config, k: FieldKey, items: seq<Json>, event: Event): (rs: seq<MatchResult>)
    ensures |rs| <= |items|
    decreases items, 2
  {
    if items == [] then []
    else
      var n := |items| - 1;
      var r := ElementReading(cfg, k, items[n], event);
      ElementReadings(cfg, k, items[..n], event) + (if r.Some? then [r.value] else [])
  }

  function ElementReading(cfg: Config, k: FieldKey, value: Json, event: Event): Option<MatchResult>
    decreases value, 1
  {
    match value
    case Array(_) => None
    case Object(fields) => ObjectReading(cfg, fields, event)
    case _ => ScalarReading(cfg, k, value, event)
  }

  function ObjectReading(cfg: Config, fields: seq<Property>, event: Event): Option<MatchResult>
    decreases fields, 3
  {
    var rs := FieldReadings(cfg, fields, event);
    if rs == [] then None else Some(AllOf(rs))
  }

  function FieldReadings(cfg: Config, fields: seq<Property>, event: Event): seq<MatchResult>
    decreases fields, 2
  {
    if fields == [] then []
    else
      var n := |fields| - 1;
      var r := Reading(cfg, fields[n].key, fields[n].value, event);
      FieldReadings(cfg, fields[..n], event) + (if r.Some? then [r.value] else [])
  }

  /** A compiled result and a reading agree: both exist or neither does, and the node evaluates to the reading. */
  predicate Agrees(rule: Result<Node, ParseError>, reading: Option<MatchResult>, event: Event) {
    match rule
    case Err(_) => reading == None
    case Ok(node) => reading == Some(Eval(node, event))
  }

  lemma ScalarAgrees(cfg: Config, k: FieldKey, value: Json, event: Event)
    requires value.Str? || value.Number? || value.Bool? || value.Null?
    ensures Agrees(ScalarRule(cfg, k, value), ScalarReading(cfg, k, value, event), event)
  {
    if !(value.Number? && value.asI64.Some?) {
      var (modifier, pattern) := ScalarPattern(cfg, k, value);
      MatcherOfOne(cfg.engine, modifier, k.all, cfg.noCollapseWs, pattern);
    }
  }

  /** Strings under `|all` compile to one matcher; it gives what the conjunction of the separate tests gives. */
  lemma AllStringsAgree(cfg: Config, k: FieldKey, items: seq<Json>, event: Event)
    requires items != [] && AllStrings(items)
    ensures var rs := ElementReadings(cfg, k, items, event);
      Agrees(TextLeaf(cfg, k.name, ModifierOr(k.modifier), true, ProcessedAll(cfg, items)),
             if |rs| == |items| then Some(AllOf(rs)) else None, event)
  {
    var patterns, m := ProcessedAll(cfg, items), ModifierOr(k.modifier);
    StringElements(cfg, k, items, event);
    StringReadings(cfg, k, m, patterns, event);
    var ms := SingleMatchers(cfg.engine, m, cfg.noCollapseWs, patterns);
    var rs := PatternReadings(cfg, k, m, patterns, event);
    if |rs| == |patterns| {
      ConjunctionVerdict(cfg, k, m, patterns, ms.value, rs, event);
    }
  }

  /** The readings of the patterns that compile. */
  function PatternReadings(cfg: Config, k: FieldKey, modifier: Modifier, patterns: seq<string>, event: Event)
    : (rs: seq<MatchResult>)
    ensures |rs| <= |patterns|
  {
    if patterns == [] then []
    else
      var n := |patterns| - 1;
      var r := TextReading(cfg, k, modifier, patterns[n], event);
      PatternReadings(cfg, k, modifier, patterns[..n], event) + (if r.Some? then [r.value] else [])
  }

  lemma {:induction false} StringElements(cfg: Config, k: FieldKey, items: seq<Json>, event: Event)
    requires AllStrings(items)
    ensures ElementReadings(cfg, k, items, event)
            == PatternReadings(cfg, k, ModifierOr(k.modifier), ProcessedAll(cfg, items), event)
  {
    if items != [] {
      var n := |items| - 1;
      StringElements(cfg, k, items[..n], event);
      assert ProcessedAll(cfg, items)[..n] == ProcessedAll(cfg, items[..n]);
      assert items[n].Str?;
    }
  }

  /** All patterns are read exactly when all compile, each reading being its matcher's verdict. */
  lemma {:induction false} StringReadings(cfg: Config, k: FieldKey, m: Modifier, patterns: seq<string>, event: Event)
    ensures var rs := PatternReadings(cfg, k, m, patterns, event);
      var ms := SingleMatchers(cfg.engine, m, cfg.noCollapseWs, patterns);
      && (|rs| == |patterns| <==> ms.Some?)
      && (ms.Some? ==> forall i :: 0 <= i < |rs| ==> rs[i] == TextVerdict(event, k.name, ms.value[i]))
  {
    if patterns != [] {
      var n := |patterns| - 1;
      StringReadings(cfg, k, m, patterns[..n], event);
    }
  }

  lemma ConjunctionVerdict(cfg: Config, k: FieldKey, m: Modifier, patterns: seq<string>,
                           ms: seq<StringMatcher>, rs: seq<MatchResult>, event: Event)
    requires patterns != [] && SingleMatchers(cfg.engine, m, cfg.noCollapseWs, patterns) == Some(ms)
    requires |rs| == |ms| && forall i :: 0 <= i < |rs| ==> rs[i] == TextVerdict(event, k.name, ms[i])
    ensures TextVerdict(event, k.name, MatcherOf(cfg.engine, m, true, cfg.noCollapseWs, patterns).value) == AllOf(rs)
  {
    AllOfMatched(rs);
    if event.select(k.name).Some? {
      var text := event.select(k.name).value.text;
      MatcherMeaning(cfg.engine, m, true, cfg.noCollapseWs, patterns, text);
      assert forall i :: 0 <= i < |rs| ==> rs[i] == MatchResult(ms[i].StringMatch(text), true);
    } else {
      assert rs[0] == NOT_APPLICABLE;
    }
  }

  lemma EvalEachPush(branches: seq<Node>, node: Node, event: Event)
    ensures EvalEach(branches + [node], event) == EvalEach(branches, event) + [Eval(node, event)]
    ensures EvalEach([], event) == []
  {
  }

  /** Compiling a detection value preserves its meaning, whatever it nests: the node exists exactly when the value has
      a reading, and evaluates to it. */
  lemma {:induction false} RulePreservesMeaning(cfg: Config, key: string, value: Json, event: Event)
    ensures Agrees(RuleOf(cfg, key, value), Reading(cfg, key, value, event), event)
    decreases value, 1
  {
    var k := ParsedKey(key);
    match value
    case Array(items) =>
      if k.all && items != [] && AllStrings(items) {
        AllStringsAgree(cfg, k, items, event);
      } else {
        ElementsPreserveMeaning(cfg, k, items, event);
        ReduceOrPreserves(ElementNodes(cfg, k, items), event);
      }
    case Object(fields) => ObjectPreservesMeaning(cfg, fields, event);
    case Null =>
    case _ => ScalarAgrees(cfg, k, value, event);
  }

  lemma {:induction false} ElementsPreserveMeaning(cfg: Config, k: FieldKey, items: seq<Json>, event: Event)
    ensures EvalEach(ElementNodes(cfg, k, items), event) == ElementReadings(cfg, k, items, event)
    decreases items, 2
  {
    if items == [] {
      EvalEachPush([], SimpleAnd([]), event);
    } else {
      var n := |items| - 1;
      ElementsPreserveMeaning(cfg, k, items[..n], event);
      ElementPreservesMeaning(cfg, k, items[n], event);
      var rule := ElementRule(cfg, k, items[n]);
      if rule.Ok? {
        EvalEachPush(ElementNodes(cfg, k, items[..n]), rule.value, event);
      } else {
        assert ElementNodes(cfg, k, items) == ElementNodes(cfg, k, items[..n]);
      }
    }
  }

  lemma {:induction false} ElementPreservesMeaning(cfg: Config, k: FieldKey, value: Json, event: Event)
    ensures Agrees(ElementRule(cfg, k, value), ElementReading(cfg, k, value, event), event)
    decreases value, 1
  {
    match value
    case Array(_) =>
    case Object(fields) => ObjectPreservesMeaning(cfg, fields, event);
    case _ => ScalarAgrees(cfg, k, value, event);
  }

  lemma {:induction false} ObjectPreservesMeaning(cfg: Config, fields: seq<Property>, event: Event)
    ensures Agrees(ObjectRule(cfg, fields), ObjectReading(cfg, fields, event), event)
    decreases fields, 3
  {
    FieldsPreserveMeaning(cfg, fields, event);
    ReduceAndPreserves(FieldNodes(cfg, fields), event);
  }

  lemma {:induction false} FieldsPreserveMeaning(cfg: Config, fields: seq<Property>, event: Event)
    ensures EvalEach(FieldNodes(cfg, fields), event) == FieldReadings(cfg, fields, event)
    decreases fields, 2
  {
    if fields == [] {
      EvalEachPush([], SimpleAnd([]), event);
    } else {
      var n := |fields| - 1;
      FieldsPreserveMeaning(cfg, fields[..n], event);
      RulePreservesMeaning(cfg, fields[n].key, fields[n].value, event);
      var rule := RuleOf(cfg, fields[n].key, fields[n].value);
      if rule.Ok? {
        EvalEachPush(FieldNodes(cfg, fields[..n]), rule.value, event);
      } else {
        assert FieldNodes(cfg, fields) == FieldNodes(cfg, fields[..n]);
      }
    }
  }
}
