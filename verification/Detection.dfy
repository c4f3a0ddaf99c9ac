/** Detection values compiled to nodes (`src/parser/mod.rs`): an object needs all of its fields, an array any of its
    elements, strings under `|all` all of them. */
module Detections {
  import opened Wrappers
  import opened Text
  import opened Errors
  import opened Patterns
  import opened Nodes

  datatype Config = Config(engine: Engine, noCollapseWs: bool)

  datatype Json =
    | Null
    | Bool(b: bool)
    | Number(asI64: Option<int>, text: string)
    | Str(s: string)
    | Array(items: seq<Json>)
    | Object(fields: seq<Property>)  // in the map's iteration order

  datatype Property = Property(key: string, value: Json)

  // ----- keys

  datatype FieldKey = FieldKey(name: string, modifier: Option<Modifier>, all: bool)

  function IndexOf(s: string, c: char): (i: nat)
    ensures i <= |s| && (i < |s| ==> s[i] == c)
    ensures forall j :: 0 <= j < i ==> s[j] != c
  {
    if s == "" || s[0] == c then 0 else 1 + IndexOf(s[1..], c)
  }

  function SplitOn(s: string, c: char): (parts: seq<string>)
    ensures |parts| > 0
    decreases |s|
  {
    var i := IndexOf(s, c);
    if i == |s| then [s] else [s[..i]] + SplitOn(s[i + 1..], c)
  }

  function PartModifier(part: string): Option<Modifier> {
    if EqIgnoreCase(part, "contains") then Some(Contains)
    else if EqIgnoreCase(part, "prefix") || EqIgnoreCase(part, "startswith") then Some(Prefix)
    else if EqIgnoreCase(part, "suffix") || EqIgnoreCase(part, "endswith") then Some(Suffix)
    else if EqIgnoreCase(part, "re") || EqIgnoreCase(part, "regex") then Some(Regex)
    else if EqIgnoreCase(part, "keyword") then Some(Keyword)
    else None
  }

  predicate IsAllFlag(part: string) {
    EqIgnoreCase(part, "all")
  }

  /** The last part that names a modifier decides. */
  function LastModifier(parts: seq<string>): Option<Modifier> {
    if parts == [] then None
    else if PartModifier(parts[|parts| - 1]).Some? then PartModifier(parts[|parts| - 1])
    else LastModifier(parts[..|parts| - 1])
  }

  predicate HasAllFlag(parts: seq<string>) {
    parts != [] && (IsAllFlag(parts[|parts| - 1]) || HasAllFlag(parts[..|parts| - 1]))
  }

  /** The field name is what stands before the first `|`, the parts after it are modifiers. */
  function ParsedKey(field: string): FieldKey {
    var i := IndexOf(field, '|');
    if i == |field| then FieldKey(field, None, false)
    else
      var parts := SplitOn(field[i + 1..], '|');
      FieldKey(field[..i], LastModifier(parts), HasAllFlag(parts))
  }

  /** `parse_field_modifier`. */
  method ParseFieldModifier(field: string) returns (r: FieldKey)
    ensures r == ParsedKey(field)
  {
    var i := IndexOf(field, '|');
    if i == |field| {
      return FieldKey(field, None, false);
    }
    var parts := SplitOn(field[i + 1..], '|');
    var modifier: Option<Modifier>, all := None, false;
    for k := 0 to |parts|
      invariant modifier == LastModifier(parts[..k]) && all == HasAllFlag(parts[..k])
    {
      NextPart(parts, k);
      var part := parts[k];
      if IsAllFlag(part) {
        all := true;
      } else {
        var m := PartModifier(part);
        if m.Some? {
          modifier := m;
        }
      }
    }
    assert parts[..|parts|] == parts;
    r := FieldKey(field[..i], modifier, all);
  }

  /** One more part: `all` is no modifier, and the last modifier wins. */
  lemma NextPart(parts: seq<string>, k: nat)
    requires k < |parts|
    ensures IsAllFlag(parts[k]) ==> PartModifier(parts[k]) == None
    ensures LastModifier(parts[..k + 1])
            == if PartModifier(parts[k]).Some? then PartModifier(parts[k]) else LastModifier(parts[..k])
    ensures HasAllFlag(parts[..k + 1]) == (IsAllFlag(parts[k]) || HasAllFlag(parts[..k]))
  {
    assert parts[..k + 1][..k] == parts[..k];
  }

  // ----- values

  function SplitWhitespace(s: string): seq<string>
    decreases |s|
  {
    var t := TrimStart(s);
    if t == "" then []
    else
      var n := WordLength(t);
      [t[..n]] + SplitWhitespace(t[n..])
  }

  function WordLength(s: string): (n: nat)
    ensures n <= |s| && (s != "" && !IsWhitespace(s[0]) ==> n > 0)
  {
    if s == "" || IsWhitespace(s[0]) then 0 else 1 + WordLength(s[1..])
  }

  function Join(words: seq<string>): string {
    if words == [] then ""
    else if |words| == 1 then words[0]
    else words[0] + " " + Join(words[1..])
  }

  /** `process_string_value`. */
  function Processed(cfg: Config, s: string): string {
    if cfg.noCollapseWs then s else Join(SplitWhitespace(s))
  }

  function ProcessedAll(cfg: Config, items: seq<Json>): (r: seq<string>)
    requires AllStrings(items)
    ensures |r| == |items|
    ensures forall i :: 0 <= i < |items| ==> r[i] == Processed(cfg, items[i].s)
  {
    seq(|items|, i requires 0 <= i < |items| => Processed(cfg, items[i].s))
  }

  predicate AllStrings(items: seq<Json>) {
    forall i :: 0 <= i < |items| ==> items[i].Str?
  }

  function ModifierOr(m: Option<Modifier>): Modifier {
    if m.Some? then m.value else NoModifier
  }

  function TextLeaf(cfg: Config, name: string, modifier: Modifier, all: bool, patterns: seq<string>)
    : Result<Node, ParseError>
  {
    match MatcherOf(cfg.engine, modifier, all, cfg.noCollapseWs, patterns)
    case None => Err(PatternCreationFailed)
    case Some(m) => Ok(Leaf(FieldRule(name, FieldPattern.Text(m))))
  }

  /** The pattern and modifier of a text comparison; null, inside an array, compares with the empty text. */
  function ScalarPattern(cfg: Config, k: FieldKey, value: Json): (Modifier, string)
    requires value.Str? || value.Number? || value.Bool? || value.Null?
  {
    match value
    case Str(s) => (ModifierOr(k.modifier), Processed(cfg, s))
    case Number(_, text) => (NoModifier, text)
    case Bool(b) => (NoModifier, if b then "true" else "false")
    case Null => (NoModifier, "")
  }

  function ScalarRule(cfg: Config, k: FieldKey, value: Json): Result<Node, ParseError>
    requires value.Str? || value.Number? || value.Bool? || value.Null?
  {
    if value.Number? && value.asI64.Some? then
      Ok(Leaf(FieldRule(k.name, Numeric(value.asI64.value))))
    else
      var (modifier, pattern) := ScalarPattern(cfg, k, value);
      TextLeaf(cfg, k.name, modifier, k.all, [pattern])
  }

  /** The node of a value under a key. */
  function RuleOf(cfg: Config, key: string, value: Json): Result<Node, ParseError>
    decreases value, 1
  {
    var k := ParsedKey(key);
    match value
    case Array(items) => (
      if k.all && items != [] && AllStrings(items) then
        TextLeaf(cfg, k.name, ModifierOr(k.modifier), true, ProcessedAll(cfg, items))
      else
        var branches := ElementNodes(cfg, k, items);
        if branches == [] then Err(NoValidFieldPatterns) else ReduceOr(branches))
    case Object(fields) => ObjectRule(cfg, fields)
    case Null => Err(UnsupportedValue)
    case _ => ScalarRule(cfg, k, value)
  }

  /** The nodes of the elements that compile; an array inside an array does not. */
  function ElementNodes(cfg: Config, k: FieldKey, items: seq<Json>): seq<Node>
    decreases items, 2
  {
    if items == [] then []
    else
      var n := |items| - 1;
      var rule := ElementRule(cfg, k, items[n]);
      ElementNodes(cfg, k, items[..n]) + (if rule.Ok? then [rule.value] else [])
  }

  function ElementRule(cfg: Config, k: FieldKey, value: Json): Result<Node, ParseError>
    decreases value, 1
  {
    match value
    case Array(_) => Err(UnsupportedValue)
    case Object(fields) => ObjectRule(cfg, fields)
    case _ => ScalarRule(cfg, k, value)
  }

  /** The conjunction of the fields that compile. */
  function ObjectRule(cfg: Config, fields: seq<Property>): Result<Node, ParseError>
    decreases fields, 3
  {
    var branches := FieldNodes(cfg, fields);
    if branches == [] then Err(NoValidFieldPatterns) else ReduceAnd(branches)
  }

  function FieldNodes(cfg: Config, fields: seq<Property>): seq<Node>
    decreases fields, 2
  {
    if fields == [] then []
    else
      var n := |fields| - 1;
      var rule := RuleOf(cfg, fields[n].key, fields[n].value);
      FieldNodes(cfg, fields[..n]) + (if rule.Ok? then [rule.value] else [])
  }

  // ----- the same as the source builds it, with loops

  method CreateTextLeaf(cfg: Config, name: string, modifier: Modifier, all: bool, patterns: seq<string>)
    returns (r: Result<Node, ParseError>)
    ensures r == TextLeaf(cfg, name, modifier, all, patterns)
  {
    var matcher := NewStringMatcher(cfg.engine, modifier, all, cfg.noCollapseWs, patterns);
    match matcher
    case None => r := Err(PatternCreationFailed);
    case Some(m) => r := Ok(Leaf(FieldRule(name, FieldPattern.Text(m))));
  }

  method CreateScalarRule(cfg: Config, k: FieldKey, value: Json) returns (r: Result<Node, ParseError>)
    requires value.Str? || value.Number? || value.Bool? || value.Null?
    ensures r == ScalarRule(cfg, k, value)
  {
    if value.Number? && value.asI64.Some? {
      r := Ok(Leaf(FieldRule(k.name, Numeric(value.asI64.value))));
    } else {
      var (modifier, pattern) := ScalarPattern(cfg, k, value);
      r := CreateTextLeaf(cfg, k.name, modifier, k.all, [pattern]);
    }
  }

  /** `create_rule_from_ident`. */
  method CreateRuleFromIdent(cfg: Config, key: string, value: Json) returns (r: Result<Node, ParseError>)
    ensures r == RuleOf(cfg, key, value)
    decreases value, 1
  {
    var k := ParseFieldModifier(key);
    match value
    case Array(items) => r := CreateArrayRule(cfg, k, items);
    case Object(fields) => r := CreateComplexFieldRule(cfg, fields);
    case Null => r := Err(UnsupportedValue);
    case _ => r := CreateScalarRule(cfg, k, value);
  }

  /** The array case of `create_rule_from_ident`: first a look for uniform strings, then element by element. */
  method CreateArrayRule(cfg: Config, k: FieldKey, items: seq<Json>) returns (r: Result<Node, ParseError>)
    ensures r ==
      if k.all && items != [] && AllStrings(items) then
        TextLeaf(cfg, k.name, ModifierOr(k.modifier), true, ProcessedAll(cfg, items))
      else if ElementNodes(cfg, k, items) == [] then Err(NoValidFieldPatterns)
      else ReduceOr(ElementNodes(cfg, k, items))
    decreases items, 3
  {
    var patterns: seq<string> := [];
    var mixed := false;
    var i := 0;
    while i < |items| && !mixed
      invariant 0 <= i <= |items|
      invariant !mixed ==> AllStrings(items[..i]) && patterns == ProcessedAll(cfg, items[..i])
      invariant mixed ==> i < |items| && !items[i].Str?
      decreases |items| - i, !mixed
    {
      if items[i].Str? {
        patterns := patterns + [Processed(cfg, items[i].s)];
        i := i + 1;
      } else {
        mixed := true;
      }
    }
    assert !mixed ==> items[..i] == items;
    if !mixed && patterns != [] && k.all {
      r := CreateTextLeaf(cfg, k.name, ModifierOr(k.modifier), true, patterns);
      return;
    }

    var branches: seq<Node> := [];
    for j := 0 to |items|
      invariant branches == ElementNodes(cfg, k, items[..j])
    {
      assert items[..j + 1][..j] == items[..j];
      var rule := CreateElementRule(cfg, k, items[j]);
      if rule.Ok? {
        branches := branches + [rule.value];
      }
    }
    assert items[..|items|] == items;
    if |branches| == 0 {
      return Err(NoValidFieldPatterns);
    }
    r := ReduceOr(branches);
  }

  method CreateElementRule(cfg: Config, k: FieldKey, value: Json) returns (r: Result<Node, ParseError>)
    ensures r == ElementRule(cfg, k, value)
    decreases value, 1
  {
    match value
    case Array(_) => r := Err(UnsupportedValue);
    case Object(fields) => r := CreateComplexFieldRule(cfg, fields);
    case _ => r := CreateScalarRule(cfg, k, value);
  }

  /** `create_complex_field_rule`. */
  method CreateComplexFieldRule(cfg: Config, fields: seq<Property>) returns (r: Result<Node, ParseError>)
    ensures r == ObjectRule(cfg, fields)
    decreases fields, 3
  {
    var branches: seq<Node> := [];
    for j := 0 to |fields|
      invariant branches == FieldNodes(cfg, fields[..j])
    {
      assert fields[..j + 1][..j] == fields[..j];
      var rule := CreateRuleFromIdent(cfg, fields[j].key, fields[j].value);
      if rule.Ok? {
        branches := branches + [rule.value];
      }
    }
    assert fields[..|fields|] == fields;
    if |branches| == 0 {
      return Err(NoValidFieldPatterns);
    }
    r := ReduceAnd(branches);
  }

  // ----- a rule's detection section

  /** The entries of a detection and the orders in which hash maps hand out the keys other than `condition`: the map
      itself always in the same order, the copies that `extract` makes each in its own. */
  datatype Detection = Detection(entries: map<string, Json>, order: seq<string>, extractOrders: nat -> seq<string>)
  {
    ghost predicate Valid() {
      IsOrder(order) && forall i :: IsOrder(extractOrders(i))
    }

    /** Every key but `condition`, each once. */
    ghost predicate IsOrder(keys: seq<string>) {
      && (forall k :: k in keys <==> k in entries && k != "condition")
      && (forall i, j :: 0 <= i < j < |keys| ==> keys[i] != keys[j])
    }
  }

  /** Every map of entries is some detection's. */
  lemma EveryMapIsADetection(entries: map<string, Json>) returns (det: Detection)
    ensures det.Valid() && det.entries == entries
  {
    var keys := Listed(entries.Keys - {"condition"});
    det := Detection(entries, keys, _ => keys);
    assert det.IsOrder(keys);
  }

  lemma {:induction false} Listed(s: set<string>) returns (keys: seq<string>)
    ensures forall k :: k in keys <==> k in s
    ensures forall i, j :: 0 <= i < j < |keys| ==> keys[i] != keys[j]
    decreases s
  {
    keys := [];
    if k :| k in s {
      var rest := Listed(s - {k});
      keys := rest + [k];
    }
  }

  /** The rules of the listed keys, or the first failure. */
  function RulesOf(cfg: Config, entries: map<string, Json>, keys: seq<string>): Result<seq<Node>, ParseError>
    requires forall k :: k in keys ==> k in entries
  {
    if keys == [] then Ok([])
    else
      var n := |keys| - 1;
      match RulesOf(cfg, entries, keys[..n])
      case Err(e) => Err(e)
      case Ok(rules) =>
        match RuleOf(cfg, keys[n], entries[keys[n]])
        case Err(e) => Err(e)
        case Ok(rule) => Ok(rules + [rule])
  }

  /** The keys a glob selects, in order. */
  function Selected(keys: seq<string>, test: string -> bool): (r: seq<string>)
    ensures forall k :: k in r <==> k in keys && test(k)
  {
    if keys == [] then []
    else
      var n := |keys| - 1;
      Selected(keys[..n], test) + (if test(keys[n]) then [keys[n]] else [])
  }

  /** Every detection item, for the `i`-th `them`. */
  function AllRules(cfg: Config, det: Detection, i: nat): Result<seq<Node>, ParseError>
    requires det.Valid()
  {
    match RulesOf(cfg, det.entries, det.extractOrders(i))
    case Err(e) => Err(e)
    case Ok(rules) => if rules == [] then Err(NoDetectionFields) else Ok(rules)
  }

  /** Every detection item whose name matches a glob. */
  function WildcardRules(cfg: Config, det: Detection, pattern: string): Result<seq<Node>, ParseError>
    requires det.Valid()
  {
    match cfg.engine.identifiers(pattern)
    case None => Err(WildcardCompilationError(pattern))
    case Some(test) => (
      match RulesOf(cfg, det.entries, Selected(det.order, test))
      case Err(e) => Err(e)
      case Ok(rules) => if rules == [] then Err(NoMatchingIdentifiers) else Ok(rules))
  }

  /** `extract_all_to_rules`; `call` tells which copy of the map this call makes. */
  method ExtractAllToRules(cfg: Config, det: Detection, call: nat) returns (r: Result<seq<Node>, ParseError>)
    requires det.Valid()
    ensures r == AllRules(cfg, det, call)
  {
    var rules: seq<Node> := [];
    var keys := det.extractOrders(call);
    for i := 0 to |keys|
      invariant RulesOf(cfg, det.entries, keys[..i]) == Ok(rules)
    {
      assert keys[..i + 1][..i] == keys[..i];
      var rule := CreateRuleFromIdent(cfg, keys[i], det.entries[keys[i]]);
      if rule.Err? {
        FailurePersists(cfg, det.entries, keys, i + 1);
        return Err(rule.error);
      }
      rules := rules + [rule.value];
    }
    assert keys[..|keys|] == keys;
    if |rules| == 0 {
      return Err(NoDetectionFields);
    }
    return Ok(rules);
  }

  /** A failed prefix fails the whole list in the same way. */
  lemma {:induction false} FailurePersists(cfg: Config, entries: map<string, Json>, keys: seq<string>, i: nat)
    requires forall k :: k in keys ==> k in entries
    requires i <= |keys| && RulesOf(cfg, entries, keys[..i]).Err?
    ensures RulesOf(cfg, entries, keys) == RulesOf(cfg, entries, keys[..i])
    decreases |keys| - i
  {
    if i == |keys| {
      assert keys[..i] == keys;
    } else {
      assert keys[..i + 1][..i] == keys[..i];
      FailurePersists(cfg, entries, keys, i + 1);
    }
  }

  /** `extract_wildcard_idents`, after the glob has compiled. */
  method ExtractWildcardIdents(cfg: Config, det: Detection, test: string -> bool)
    returns (r: Result<seq<Node>, ParseError>)
    requires det.Valid()
    ensures r == match RulesOf(cfg, det.entries, Selected(det.order, test))
                 case Err(e) => Err(e)
                 case Ok(rules) => if rules == [] then Err(NoMatchingIdentifiers) else Ok(rules)
  {
    var rules: seq<Node> := [];
    var keys := det.order;
    for i := 0 to |keys|
      invariant RulesOf(cfg, det.entries, Selected(keys[..i], test)) == Ok(rules)
    {
      SelectedStep(cfg, det.entries, keys, test, i);
      if test(keys[i]) {
        var rule := CreateRuleFromIdent(cfg, keys[i], det.entries[keys[i]]);
        if rule.Err? {
          SelectedFailure(cfg, det.entries, keys, test, i + 1);
          return Err(rule.error);
        }
        rules := rules + [rule.value];
      }
    }
    assert keys[..|keys|] == keys;
    if |rules| == 0 {
      return Err(NoMatchingIdentifiers);
    }
    return Ok(rules);
  }

  /** One more key: its rule is added if the glob selects it. */
  lemma SelectedStep(cfg: Config, entries: map<string, Json>, keys: seq<string>, test: string -> bool, i: nat)
    requires forall k :: k in keys ==> k in entries
    requires i < |keys| && RulesOf(cfg, entries, Selected(keys[..i], test)).Ok?
    ensures RulesOf(cfg, entries, Selected(keys[..i + 1], test))
            == if !test(keys[i]) then RulesOf(cfg, entries, Selected(keys[..i], test))
               else
                 var rule := RuleOf(cfg, keys[i], entries[keys[i]]);
                 if rule.Err? then Err(rule.error)
                 else Ok(RulesOf(cfg, entries, Selected(keys[..i], test)).value + [rule.value])
  {
    SelectNext(keys, test, i);
    if test(keys[i]) {
      RulesNext(cfg, entries, Selected(keys[..i], test), keys[i]);
    }
  }

  lemma SelectNext(keys: seq<string>, test: string -> bool, i: nat)
    requires i < |keys|
    ensures Selected(keys[..i + 1], test)
            == if test(keys[i]) then Selected(keys[..i], test) + [keys[i]] else Selected(keys[..i], test)
  {
    assert keys[..i + 1][..i] == keys[..i];
  }

  lemma RulesNext(cfg: Config, entries: map<string, Json>, keys: seq<string>, key: string)
    requires key in entries && forall k :: k in keys ==> k in entries
    requires RulesOf(cfg, entries, keys).Ok?
    ensures RulesOf(cfg, entries, keys + [key])
            == if RuleOf(cfg, key, entries[key]).Err? then Err(RuleOf(cfg, key, entries[key]).error)
               else Ok(RulesOf(cfg, entries, keys).value + [RuleOf(cfg, key, entries[key]).value])
  {
    assert (keys + [key])[..|keys|] == keys;
  }

  lemma SelectedFailure(cfg: Config, entries: map<string, Json>, keys: seq<string>, test: string -> bool, i: nat)
    requires forall k :: k in keys ==> k in entries
    requires i <= |keys| && RulesOf(cfg, entries, Selected(keys[..i], test)).Err?
    ensures RulesOf(cfg, entries, Selected(keys, test)) == RulesOf(cfg, entries, Selected(keys[..i], test))
  {
    SelectedPrefix(keys, test, i);
    var n := |Selected(keys[..i], test)|;
    assert Selected(keys, test)[..n] == Selected(keys[..i], test);
    FailurePersists(cfg, entries, Selected(keys, test), n);
  }

  lemma {:induction false} SelectedPrefix(keys: seq<string>, test: string -> bool, i: nat)
    requires i <= |keys|
    ensures Selected(keys[..i], test) <= Selected(keys, test)
    decreases |keys| - i
  {
    if i == |keys| {
      assert keys[..i] == keys;
    } else {
      assert keys[..i + 1][..i] == keys[..i];
      SelectedPrefix(keys, test, i + 1);
    }
  }
}
