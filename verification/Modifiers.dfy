/** What the modifiers of a field key mean: which words name them, which of several decides, and what a value with a
    modifier asks of an event's field (`parse_field_modifier` and `create_rule_from_ident` in `src/parser/mod.rs`). */
module Modifiers {
  import opened Wrappers
  import opened Text
  import opened Escaping
  import opened Patterns
  import opened Nodes
  import opened Detections
  import opened DetectionMeaning
  import opened Whitespace

  // ----- keys

  function Words(m: Modifier): seq<string> {
    match m
    case Contains => ["contains"]
    case Prefix => ["prefix", "startswith"]
    case Suffix => ["suffix", "endswith"]
    case Regex => ["re", "regex"]
    case Keyword => ["keyword"]
    case _ => []
  }

  /** The part is a word for the modifier, in any letter case. */
  ghost predicate Names(part: string, m: Modifier) {
    exists i :: 0 <= i < |Words(m)| && SameLetters(part, Words(m)[i])
  }

  /** The last part that names a modifier names this one. */
  ghost predicate LastNamed(parts: seq<string>, m: Modifier) {
    exists i :: LastNamedAt(parts, m, i)
  }

  ghost predicate LastNamedAt(parts: seq<string>, m: Modifier, i: int) {
    && 0 <= i < |parts| && Names(parts[i], m)
    && forall j :: i < j < |parts| ==> NamesNothing(parts[j])
  }

  ghost predicate NamesNothing(part: string) {
    forall m :: !Names(part, m)
  }

  ghost predicate NoneNamed(parts: seq<string>) {
    forall j :: 0 <= j < |parts| ==> NamesNothing(parts[j])
  }

  ghost predicate SaysAll(parts: seq<string>) {
    exists i :: 0 <= i < |parts| && SameLetters(parts[i], "all")
  }

  lemma PartNames(part: string, m: Modifier)
    ensures PartModifier(part) == Some(m) <==> Names(part, m)
  {
    EqIgnoreCaseIsSameLetters(part, "contains");
    EqIgnoreCaseIsSameLetters(part, "prefix");
    EqIgnoreCaseIsSameLetters(part, "startswith");
    EqIgnoreCaseIsSameLetters(part, "suffix");
    EqIgnoreCaseIsSameLetters(part, "endswith");
    EqIgnoreCaseIsSameLetters(part, "re");
    EqIgnoreCaseIsSameLetters(part, "regex");
    EqIgnoreCaseIsSameLetters(part, "keyword");
    OneWord(part);
    if PartModifier(part) == Some(m) {
      assert |Words(m)| > 0;
      assert SameLetters(part, Words(m)[0]) || SameLetters(part, Words(m)[1]);
    }
  }

  /** The words differ in their length or their first letter. */
  lemma OneWord(part: string)
    ensures EqIgnoreCase(part, "contains") ==> LowerAscii(part[0]) == 'c'
    ensures EqIgnoreCase(part, "prefix") ==> LowerAscii(part[0]) == 'p'
    ensures EqIgnoreCase(part, "startswith") ==> LowerAscii(part[0]) == 's' && |part| == 10
    ensures EqIgnoreCase(part, "suffix") ==> LowerAscii(part[0]) == 's' && |part| == 6
    ensures EqIgnoreCase(part, "endswith") ==> LowerAscii(part[0]) == 'e'
    ensures EqIgnoreCase(part, "re") || EqIgnoreCase(part, "regex") ==> LowerAscii(part[0]) == 'r'
    ensures EqIgnoreCase(part, "keyword") ==> LowerAscii(part[0]) == 'k'
  {
  }

  /** Where the deciding part stands. */
  lemma {:induction false} LastModifierAt(parts: seq<string>) returns (i: int)
    ensures -1 <= i < |parts|
    ensures LastModifier(parts) == if i == -1 then None else PartModifier(parts[i])
    ensures i >= 0 ==> PartModifier(parts[i]).Some?
    ensures forall j :: i < j < |parts| ==> PartModifier(parts[j]) == None
  {
    var n := |parts| - 1;
    if parts == [] || PartModifier(parts[n]).Some? {
      i := n;
    } else {
      i := LastModifierAt(parts[..n]);
    }
  }

  lemma PartNamesNothing(part: string)
    ensures PartModifier(part) == None <==> NamesNothing(part)
  {
    if PartModifier(part).Some? {
      PartNames(part, PartModifier(part).value);
    } else {
      forall m ensures !Names(part, m) {
        PartNames(part, m);
      }
    }
  }

  lemma LastModifierIs(parts: seq<string>, m: Modifier)
    ensures LastModifier(parts) == Some(m) <==> LastNamed(parts, m)
    ensures LastModifier(parts) == None <==> NoneNamed(parts)
  {
    var i := LastModifierAt(parts);
    forall j | 0 <= j < |parts| ensures PartModifier(parts[j]) == None <==> NamesNothing(parts[j]) {
      PartNamesNothing(parts[j]);
    }
    if i >= 0 {
      PartNames(parts[i], m);
      if Names(parts[i], m) {
        assert LastNamedAt(parts, m, i);
      }
    }
    if k :| LastNamedAt(parts, m, k) {
      PartNames(parts[k], m);
      assert k == i;
    }
  }

  lemma {:induction false} AllFlagIs(parts: seq<string>)
    ensures HasAllFlag(parts) <==> SaysAll(parts)
  {
    if parts != [] {
      var n := |parts| - 1;
      AllFlagIs(parts[..n]);
      EqIgnoreCaseIsSameLetters(parts[n], "all");
      assert forall i :: 0 <= i < n ==> parts[..n][i] == parts[i];
    }
  }

  function Bars(parts: seq<string>): string {
    if parts == [] then "" else "|" + (parts[0] + Bars(parts[1..]))
  }

  /** A field name and the parts behind it, each after a bar. */
  function KeyText(name: string, parts: seq<string>): string {
    name + Bars(parts)
  }

  predicate Plain(name: string, parts: seq<string>) {
    '|' !in name && forall i :: 0 <= i < |parts| ==> '|' !in parts[i]
  }

  lemma IndexOfBar(name: string, rest: string)
    requires '|' !in name && (rest == "" || rest[0] == '|')
    ensures IndexOf(name + rest, '|') == |name|
  {
    var i, all := IndexOf(name + rest, '|'), name + rest;
    assert forall j :: 0 <= j < |name| ==> all[j] == name[j];
    if rest != "" {
      assert all[|name|] == rest[0];
    }
  }

  lemma {:induction false} SplitBars(part: string, parts: seq<string>)
    requires '|' !in part && Plain("", parts)
    ensures SplitOn(part + Bars(parts), '|') == [part] + parts
    decreases |parts|
  {
    IndexOfBar(part, Bars(parts));
    var all := part + Bars(parts);
    if parts == [] {
      assert all == part && [part] + parts == [part];
    } else {
      assert all[..|part|] == part && all[|part| + 1..] == parts[0] + Bars(parts[1..]);
      SplitBars(parts[0], parts[1..]);
      assert [parts[0]] + parts[1..] == parts;
    }
  }

  /** The name is what stands before the first bar, the last part that names a modifier decides, and `all` counts
      wherever it stands. */
  lemma KeyIsRead(name: string, parts: seq<string>, m: Modifier)
    requires Plain(name, parts)
    ensures var k := ParsedKey(KeyText(name, parts));
      && k.name == name
      && (k.modifier == Some(m) <==> LastNamed(parts, m)) && (k.modifier == None <==> NoneNamed(parts))
      && (k.all <==> SaysAll(parts))
  {
    var key := KeyText(name, parts);
    IndexOfBar(name, Bars(parts));
    LastModifierIs(parts, m);
    AllFlagIs(parts);
    if parts == [] {
      assert key == name;
    } else {
      assert key[..|name|] == name && key[|name| + 1..] == parts[0] + Bars(parts[1..]);
      SplitBars(parts[0], parts[1..]);
      assert [parts[0]] + parts[1..] == parts;
    }
  }

  // ----- what a value asks of an event

  /** A test of the field's text, applicable where the event has the field. */
  ghost predicate Asks(r: Option<MatchResult>, event: Event, name: string, test: string -> bool) {
    match event.select(name)
    case None => r == Some(NOT_APPLICABLE)
    case Some(v) => r == Some(MatchResult(test(v.text), true))
  }

  /** The same where the test has to be compiled first, and whitespace in the text is handled. */
  ghost predicate AsksGlob(r: Option<MatchResult>, event: Event, name: string, cfg: Config, glob: string) {
    match cfg.engine.glob(glob)
    case None => r == None
    case Some(test) => Asks(r, event, name, text => test(HandleWhitespace(text, cfg.noCollapseWs)))
  }

  /** A regular expression sees the text as it is. */
  ghost predicate AsksRegex(r: Option<MatchResult>, event: Event, name: string, cfg: Config, regex: string) {
    match cfg.engine.regex(regex)
    case None => r == None
    case Some(test) => Asks(r, event, name, test)
  }

  predicate BetweenSlashes(value: string) {
    |value| > 2 && value[0] == '/' && value[|value| - 1] == '/'
  }

  ghost predicate Begins(text: string, value: string) {
    exists rest: string :: text == value + rest
  }

  ghost predicate Ends(text: string, value: string) {
    exists before: string :: text == before + value
  }

  lemma BeginsAndEnds(text: string, value: string)
    ensures value <= text <==> Begins(text, value)
    ensures EndsWith(text, value) <==> Ends(text, value)
  {
    if value <= text {
      assert text == value + text[|value|..];
    }
    if EndsWith(text, value) {
      assert text == text[..|text| - |value|] + value;
    }
  }

  /** What a value with a modifier asks: that the text begin or end with it, contain it, match it as a regular
      expression, or equal it; without a modifier, slashes around it make it a regular expression and a star a glob, a
      question mark alone does neither. */
  ghost predicate AsksFor(r: Option<MatchResult>, event: Event, name: string, cfg: Config, m: Modifier, value: string) {
    match m
    case Prefix => Asks(r, event, name, text => Begins(HandleWhitespace(text, cfg.noCollapseWs), value))
    case Suffix => Asks(r, event, name, text => Ends(HandleWhitespace(text, cfg.noCollapseWs), value))
    case Contains => AsksGlob(r, event, name, cfg, "*" + Escaped(value) + "*")
    case Regex => AsksRegex(r, event, name, cfg, value)
    case Keyword =>
      if BetweenSlashes(value) then AsksRegex(r, event, name, cfg, value[1..|value| - 1])
      else AsksGlob(r, event, name, cfg, "*" + Escaped(value) + "*")
    case _ =>
      if BetweenSlashes(value) then AsksRegex(r, event, name, cfg, value[1..|value| - 1])
      else if '*' in value then AsksGlob(r, event, name, cfg, Escaped(value))
      else Asks(r, event, name, text => HandleWhitespace(text, cfg.noCollapseWs) == value)
  }

  lemma TextReadingAsks(cfg: Config, k: FieldKey, m: Modifier, value: string, event: Event)
    ensures AsksFor(TextReading(cfg, k, m, value, event), event, k.name, cfg, m, value)
  {
    if event.select(k.name).Some? {
      BeginsAndEnds(HandleWhitespace(event.select(k.name).value.text, cfg.noCollapseWs), value);
    }
  }

  /** A string under a key: the last part that names a modifier decides what it asks, whatever stands around it. */
  lemma StringMeans(cfg: Config, name: string, parts: seq<string>, s: string, m: Modifier, event: Event)
    requires Plain(name, parts)
    ensures var r, value := Reading(cfg, KeyText(name, parts), Str(s), event), Processed(cfg, s);
      && (LastNamed(parts, m) ==> AsksFor(r, event, name, cfg, m, value))
      && (NoneNamed(parts) ==> AsksFor(r, event, name, cfg, NoModifier, value))
  {
    var k := ParsedKey(KeyText(name, parts));
    KeyIsRead(name, parts, m);
    TextReadingAsks(cfg, k, ModifierOr(k.modifier), Processed(cfg, s), event);
  }

  lemma OneModifier(cfg: Config, name: string, word: string, tail: string, s: string, m: Modifier, event: Event)
    requires '|' !in name && '|' !in word && word in Words(m) && tail == "|" + word
    ensures AsksFor(Reading(cfg, name + tail, Str(s), event), event, name, cfg, m, Processed(cfg, s))
  {
    var i :| 0 <= i < |Words(m)| && Words(m)[i] == word;
    assert SameLetters(word, Words(m)[i]);
    assert Names([word][0], m);
    assert LastNamedAt([word], m, 0);
    assert [word][1..] == [] && Bars([word][1..]) == "" && word + "" == word;
    assert Bars([word]) == tail;
    StringMeans(cfg, name, [word], s, m, event);
  }

  /** `startswith`: the text begins with the value. */
  lemma StartsWithMeans(cfg: Config, name: string, s: string, event: Event)
    requires '|' !in name
    ensures Asks(Reading(cfg, name + "|startswith", Str(s), event), event, name,
                 text => Begins(HandleWhitespace(text, cfg.noCollapseWs), Processed(cfg, s)))
  {
    OneModifier(cfg, name, "startswith", "|startswith", s, Prefix, event);
  }

  /** `endswith`: the text ends with the value. */
  lemma EndsWithMeans(cfg: Config, name: string, s: string, event: Event)
    requires '|' !in name
    ensures Asks(Reading(cfg, name + "|endswith", Str(s), event), event, name,
                 text => Ends(HandleWhitespace(text, cfg.noCollapseWs), Processed(cfg, s)))
  {
    OneModifier(cfg, name, "endswith", "|endswith", s, Suffix, event);
  }

  /** `contains`: the text matches the value between two stars. */
  lemma ContainsMeans(cfg: Config, name: string, s: string, event: Event)
    requires '|' !in name
    ensures AsksGlob(Reading(cfg, name + "|contains", Str(s), event), event, name, cfg,
                     "*" + Escaped(Processed(cfg, s)) + "*")
  {
    OneModifier(cfg, name, "contains", "|contains", s, Contains, event);
  }

  /** `re`: the text, as it is, matches the value as a regular expression. */
  lemma RegexMeans(cfg: Config, name: string, s: string, event: Event)
    requires '|' !in name
    ensures AsksRegex(Reading(cfg, name + "|re", Str(s), event), event, name, cfg, Processed(cfg, s))
  {
    OneModifier(cfg, name, "re", "|re", s, Regex, event);
  }

  /** No modifier: the text equals the value. */
  lemma PlainMeans(cfg: Config, name: string, s: string, event: Event)
    requires '|' !in name && !BetweenSlashes(Processed(cfg, s)) && '*' !in Processed(cfg, s)
    ensures Asks(Reading(cfg, name, Str(s), event), event, name,
                 text => HandleWhitespace(text, cfg.noCollapseWs) == Processed(cfg, s))
  {
    assert name + "" == name;
    StringMeans(cfg, name, [], s, NoModifier, event);
  }

  /** A plain value never matches an event's identical text if that has whitespace at its ends, unless collapsing is
      switched off; otherwise it does. */
  lemma OwnTextMatches(cfg: Config, name: string, s: string, event: Event)
    requires '|' !in name && event.select(name).Some? && event.select(name).value.text == s
    requires !BetweenSlashes(Processed(cfg, s)) && '*' !in Processed(cfg, s)
    ensures Reading(cfg, name, Str(s), event)
            == Some(MatchResult(cfg.noCollapseWs || s == "" || (!IsWhitespace(s[0]) && !IsWhitespace(s[|s| - 1])),
                                true))
  {
    PlainMeans(cfg, name, s, event);
    BothSidesAgree(cfg, s);
  }

  // ----- other values

  /** An integer asks for the same number, a truth value and a number that is no integer for their text. */
  lemma ScalarsMean(cfg: Config, name: string, n: int, b: bool, text: string, event: Event)
    requires '|' !in name && !BetweenSlashes(text) && '*' !in text
    ensures Reading(cfg, name, Number(Some(n), text), event)
            == Some(match event.select(name)
                    case None => NOT_APPLICABLE
                    case Some(v) => MatchResult(v.number == Some(n), true))
    ensures Asks(Reading(cfg, name, Number(None, text), event), event, name,
                 seen => HandleWhitespace(seen, cfg.noCollapseWs) == text)
    ensures Asks(Reading(cfg, name, Bool(b), event), event, name,
                 seen => HandleWhitespace(seen, cfg.noCollapseWs) == if b then "true" else "false")
  {
    assert name + "" == name;
    KeyIsRead(name, [], NoModifier);
    var k := ParsedKey(name);
    TextReadingAsks(cfg, k, NoModifier, text, event);
    TextReadingAsks(cfg, k, NoModifier, if b then "true" else "false", event);
  }

  predicate IsMatch(r: Option<MatchResult>) {
    r.Some? && r.value.matched
  }

  /** A list of strings under `all`: each must compile, and the event meet all of them. */
  lemma ListsUnderAllMean(cfg: Config, name: string, parts: seq<string>, items: seq<Json>, event: Event)
    requires Plain(name, parts) && items != [] && AllStrings(items) && SaysAll(parts)
    ensures var key := KeyText(name, parts);
      var r := Reading(cfg, key, Array(items), event);
      && (r.Some? <==> forall i :: 0 <= i < |items| ==> Reading(cfg, key, items[i], event).Some?)
      && (IsMatch(r) <==> forall i :: 0 <= i < |items| ==> IsMatch(Reading(cfg, key, items[i], event)))
  {
    var key := KeyText(name, parts);
    KeyIsRead(name, parts, NoModifier);
    var k, rs := ParsedKey(key), ElementReadings(cfg, ParsedKey(key), items, event);
    StringsAlone(cfg, key, items, event);
    ElementsInPlace(cfg, k, items, event);
    AllOfMatched(rs);
  }

  /** Any other list: the elements that compile, at least one, and the event must meet one of them. */
  lemma ListsMean(cfg: Config, name: string, parts: seq<string>, items: seq<Json>, event: Event)
    requires Plain(name, parts) && !(items != [] && AllStrings(items) && SaysAll(parts))
    ensures var k, r := ParsedKey(KeyText(name, parts)), Reading(cfg, KeyText(name, parts), Array(items), event);
      && (r.Some? <==> exists i :: 0 <= i < |items| && ElementReading(cfg, k, items[i], event).Some?)
      && (IsMatch(r) <==> exists i :: 0 <= i < |items| && IsMatch(ElementReading(cfg, k, items[i], event)))
  {
    KeyIsRead(name, parts, NoModifier);
    var k := ParsedKey(KeyText(name, parts));
    var rs := ElementReadings(cfg, k, items, event);
    ElementsAreReadings(cfg, k, items, event);
    if rs != [] {
      assert rs[0] in rs;
    }
    if j :| 0 <= j < |rs| && rs[j].matched {
      assert rs[j] in rs;
    }
    if i :| 0 <= i < |items| && IsMatch(ElementReading(cfg, k, items[i], event)) {
      assert ElementReading(cfg, k, items[i], event).value in rs;
    }
  }

  /** An element other than a list is read as it is alone, and null as the empty text. */
  lemma ElementsMean(cfg: Config, key: string, value: Json, event: Event)
    ensures var r := ElementReading(cfg, ParsedKey(key), value, event);
      match value
      case Array(_) => r == None
      case Null => Asks(r, event, ParsedKey(key).name, text => HandleWhitespace(text, cfg.noCollapseWs) == "")
      case _ => r == Reading(cfg, key, value, event)
  {
    TextReadingAsks(cfg, ParsedKey(key), NoModifier, "", event);
  }

  /** An object: the fields that compile, at least one, and the event must meet all of them. */
  lemma ObjectsMean(cfg: Config, key: string, fields: seq<Property>, event: Event)
    ensures var r := Reading(cfg, key, Object(fields), event);
      && (r.Some? <==> exists i :: 0 <= i < |fields| && Reading(cfg, fields[i].key, fields[i].value, event).Some?)
      && (IsMatch(r) <==> r.Some? && forall i :: 0 <= i < |fields| ==>
            var field := Reading(cfg, fields[i].key, fields[i].value, event); field.Some? ==> field.value.matched)
  {
    var rs := FieldReadings(cfg, fields, event);
    FieldsAreReadings(cfg, fields, event);
    AllOfMatched(rs);
    if rs != [] {
      assert rs[0] in rs;
    }
    if j :| 0 <= j < |rs| && !rs[j].matched {
      assert rs[j] in rs;
    }
  }

  lemma StringsAlone(cfg: Config, key: string, items: seq<Json>, event: Event)
    requires AllStrings(items)
    ensures forall i :: 0 <= i < |items|
              ==> ElementReading(cfg, ParsedKey(key), items[i], event) == Reading(cfg, key, items[i], event)
  {
  }

  lemma {:induction false} ElementsInPlace(cfg: Config, k: FieldKey, items: seq<Json>, event: Event)
    ensures var rs := ElementReadings(cfg, k, items, event);
      && (|rs| == |items| <==> forall i :: 0 <= i < |items| ==> ElementReading(cfg, k, items[i], event).Some?)
      && (|rs| == |items| ==> forall i :: 0 <= i < |items| ==> ElementReading(cfg, k, items[i], event) == Some(rs[i]))
  {
    if items != [] {
      ElementsInPlace(cfg, k, items[..|items| - 1], event);
    }
  }

  /** The readings of the elements that have one, and nothing else. */
  lemma {:induction false} ElementsAreReadings(cfg: Config, k: FieldKey, items: seq<Json>, event: Event)
    ensures var rs := ElementReadings(cfg, k, items, event);
      && (forall i :: 0 <= i < |items| && ElementReading(cfg, k, items[i], event).Some?
            ==> ElementReading(cfg, k, items[i], event).value in rs)
      && (forall r :: r in rs ==> exists i :: 0 <= i < |items| && ElementReading(cfg, k, items[i], event) == Some(r))
  {
    if items != [] {
      var n := |items| - 1;
      ElementsAreReadings(cfg, k, items[..n], event);
      assert items == items[..n] + [items[n]];
    }
  }

  lemma {:induction false} FieldsAreReadings(cfg: Config, fields: seq<Property>, event: Event)
    ensures var rs := FieldReadings(cfg, fields, event);
      && (forall i :: 0 <= i < |fields| && Reading(cfg, fields[i].key, fields[i].value, event).Some?
            ==> Reading(cfg, fields[i].key, fields[i].value, event).value in rs)
      && (forall r :: r in rs
            ==> exists i :: 0 <= i < |fields| && Reading(cfg, fields[i].key, fields[i].value, event) == Some(r))
  {
    if fields != [] {
      var n := |fields| - 1;
      FieldsAreReadings(cfg, fields[..n], event);
      assert fields == fields[..n] + [fields[n]];
    }
  }
}
