/** The parser as a whole: text to tree to verdict. */
module EndToEnd {
  import opened Wrappers
  import opened Tokens
  import opened Validation
  import opened Lexing
  import opened Errors
  import opened LexerProperties
  import opened Grammar
  import opened LocalChecks
  import opened Nodes
  import opened Detections
  import opened DetectionMeaning
  import opened Building
  import opened Parsing
  import opened Compilation

  // ----- what collecting accepts

  predicate NoneOf(ts: seq<Item>, t: Token) {
    forall i :: 0 <= i < |ts| ==> ts[i].token != t
  }

  /** The pairwise check as collecting does it: nothing is asked of an item after one spelled `<begin>`. */
  predicate ChainOk(prev: Item, items: seq<Item>)
    decreases |items|
  {
    || items == []
    || ((prev.value == BEGIN.value || ValidTokenSequence(prev.token, items[0].token)) && ChainOk(items[0], items[1..]))
  }

  function Memory(limits: Limits, ts: seq<Item>): nat {
    if ts == [] then 0 else limits.ItemSize(ts[0]) + Memory(limits, ts[1..])
  }

  predicate Fits(limits: Limits, count: nat, memory: nat, ts: seq<Item>) {
    ts == [] || (count + |ts| <= limits.maxTokens && memory + Memory(limits, ts) <= limits.maxMemory)
  }

  lemma NoneOfCons(ts: seq<Item>, t: Token)
    requires ts != []
    ensures NoneOf(ts, t) <==> ts[0].token != t && NoneOf(ts[1..], t)
  {
    var rest := ts[1..];
    assert forall i :: 0 <= i < |rest| ==> rest[i] == ts[i + 1];
    assert forall i :: 0 < i < |ts| ==> ts[i] == rest[i - 1];
  }

  /** Within the limits with one more token taken, which in particular fits itself. */
  lemma FitsNext(limits: Limits, count: nat, memory: nat, ts: seq<Item>)
    requires ts != []
    ensures var memory' := memory + limits.ItemSize(ts[0]);
      Fits(limits, count, memory, ts)
      <==> count < limits.maxTokens && memory' <= limits.maxMemory && Fits(limits, count + 1, memory', ts[1..])
  {
    assert Memory(limits, ts) == limits.ItemSize(ts[0]) + Memory(limits, ts[1..]);
    if |ts| == 1 {
      assert ts[1..] == [];
    }
  }

  /** Collecting succeeds exactly on supported tokens whose neighbours agree, within the limits; it keeps them all. */
  lemma {:induction false} CollectDecides(limits: Limits, prev: Item, kept: seq<Item>, memory: nat, ts: seq<Item>)
    requires NoneOf(ts, LitEof)
    ensures CollectFrom(limits, prev, kept, memory, ts + [END]).Ok?
            <==> NoneOf(ts, Unsupported) && ChainOk(prev, ts + [END]) && Fits(limits, |kept|, memory, ts)
    ensures CollectFrom(limits, prev, kept, memory, ts + [END]).Ok?
            ==> CollectFrom(limits, prev, kept, memory, ts + [END]).value == kept + ts
    decreases |ts|
  {
    if ts == [] {
      assert (ts + [END])[0] == END && (ts + [END])[1..] == [];
      assert kept + ts == kept;
    } else {
      var item, rest := ts[0], ts[1..];
      assert (ts + [END])[0] == item && (ts + [END])[1..] == rest + [END];
      NoneOfCons(ts, LitEof);
      NoneOfCons(ts, Unsupported);
      FitsNext(limits, |kept|, memory, ts);
      CollectDecides(limits, item, kept + [item], memory + limits.ItemSize(item), rest);
      assert kept + [item] + rest == kept + ts;
    }
  }

  /** What is wrong with an item, everything before it being in order: it is unsupported, it may not follow the one
      before it, or it exceeds a limit. */
  function Complaint(limits: Limits, before: Item, item: Item, count: nat, memory: nat): Option<ParseError> {
    if item.token == Unsupported then Some(UnsupportedItem(item.value))
    else if before.value != "<begin>" && !ValidTokenSequence(before.token, item.token) then
      Some(InvalidTokenSequence(before, item))
    else if item.token == LitEof then None
    else if count >= limits.maxTokens then Some(TokenLimitExceeded(count, limits.maxTokens))
    else if memory + limits.itemOverhead + |item.value| > limits.maxMemory then
      Some(MemoryLimitExceeded(memory + limits.itemOverhead + |item.value|, limits.maxMemory))
    else None
  }

  predicate AreInOrder(limits: Limits, prev: Item, count: nat, memory: nat, part: seq<Item>) {
    NoneOf(part, Unsupported) && ChainOk(prev, part) && Fits(limits, count, memory, part)
  }

  /** The items before the `k`-th are in order and this is wrong with it. */
  ghost predicate FirstComplaint(limits: Limits, prev: Item, count: nat, memory: nat, ts: seq<Item>, k: int,
                                 e: ParseError)
  {
    && 0 <= k <= |ts| && AreInOrder(limits, prev, count, memory, ts[..k])
    && var all := [prev] + (ts + [END]);
      Complaint(limits, all[k], all[k + 1], count + k, memory + Memory(limits, ts[..k])) == Some(e)
  }

  ghost predicate Complains(limits: Limits, prev: Item, count: nat, memory: nat, ts: seq<Item>, e: ParseError) {
    exists k :: FirstComplaint(limits, prev, count, memory, ts, k, e)
  }

  lemma InOrderNext(limits: Limits, prev: Item, count: nat, memory: nat, part: seq<Item>)
    requires part != [] && Complaint(limits, prev, part[0], count, memory) == None && part[0].token != LitEof
    requires AreInOrder(limits, part[0], count + 1, memory + limits.ItemSize(part[0]), part[1..])
    ensures AreInOrder(limits, prev, count, memory, part)
    ensures Memory(limits, part) == limits.ItemSize(part[0]) + Memory(limits, part[1..])
  {
    NoneOfCons(part, Unsupported);
    FitsNext(limits, count, memory, part);
  }

  /** The two items around the `k`-th place. */
  lemma PairLater(prev: Item, ts: seq<Item>, k: nat)
    requires k < |ts|
    ensures var all, later := [prev] + (ts + [END]), [ts[0]] + (ts[1..] + [END]);
      all[k + 1] == later[k] && all[k + 2] == later[k + 1]
  {
    assert ([prev] + (ts + [END]))[1..] == [ts[0]] + (ts[1..] + [END]);
  }

  lemma PartLater(limits: Limits, prev: Item, count: nat, memory: nat, ts: seq<Item>, k: nat)
    requires k < |ts| && Complaint(limits, prev, ts[0], count, memory) == None && ts[0].token != LitEof
    requires AreInOrder(limits, ts[0], count + 1, memory + limits.ItemSize(ts[0]), ts[1..][..k])
    ensures AreInOrder(limits, prev, count, memory, ts[..k + 1])
    ensures Memory(limits, ts[..k + 1]) == limits.ItemSize(ts[0]) + Memory(limits, ts[1..][..k])
  {
    var part := ts[..k + 1];
    assert part[0] == ts[0] && part[1..] == ts[1..][..k];
    InOrderNext(limits, prev, count, memory, part);
  }

  lemma ComplainsLater(limits: Limits, prev: Item, count: nat, memory: nat, ts: seq<Item>, e: ParseError)
    requires ts != [] && Complaint(limits, prev, ts[0], count, memory) == None && ts[0].token != LitEof
    requires Complains(limits, ts[0], count + 1, memory + limits.ItemSize(ts[0]), ts[1..], e)
    ensures Complains(limits, prev, count, memory, ts, e)
  {
    var memory' := memory + limits.ItemSize(ts[0]);
    var k :| FirstComplaint(limits, ts[0], count + 1, memory', ts[1..], k, e);
    PartLater(limits, prev, count, memory, ts, k);
    PairLater(prev, ts, k);
    assert memory' + Memory(limits, ts[1..][..k]) == memory + Memory(limits, ts[..k + 1]);
    assert FirstComplaint(limits, prev, count, memory, ts, k + 1, e);
  }

  /** Collecting fails with what is wrong with the first item that something is wrong with; the end token always comes,
      so a sequence is never incomplete. */
  lemma {:induction false} CollectComplains(limits: Limits, prev: Item, kept: seq<Item>, memory: nat, ts: seq<Item>)
    requires NoneOf(ts, LitEof)
    ensures var r := CollectFrom(limits, prev, kept, memory, ts + [END]);
      r.Err? ==> Complains(limits, prev, |kept|, memory, ts, r.error)
    decreases |ts|
  {
    var r := CollectFrom(limits, prev, kept, memory, ts + [END]);
    if r.Err? {
      FirstItemDecides(limits, prev, kept, memory, ts);
      var item := if ts == [] then END else ts[0];
      if Complaint(limits, prev, item, |kept|, memory) == Some(r.error) {
        assert ([prev] + (ts + [END]))[1] == item;
        assert ts[..0] == [] && FirstComplaint(limits, prev, |kept|, memory, ts, 0, r.error);
      } else {
        NoneOfCons(ts, LitEof);
        CollectComplains(limits, item, kept + [item], memory + limits.ItemSize(item), ts[1..]);
        ComplainsLater(limits, prev, |kept|, memory, ts, r.error);
      }
    }
  }

  lemma FirstItemDecides(limits: Limits, prev: Item, kept: seq<Item>, memory: nat, ts: seq<Item>)
    requires NoneOf(ts, LitEof)
    ensures var r, item := CollectFrom(limits, prev, kept, memory, ts + [END]), if ts == [] then END else ts[0];
      match Complaint(limits, prev, item, |kept|, memory)
      case Some(e) => r == Err(e)
      case None =>
        if ts == [] then r == Ok(kept)
        else r == CollectFrom(limits, item, kept + [item], memory + limits.ItemSize(item), ts[1..] + [END])
  {
    var items := ts + [END];
    assert items[0] == if ts == [] then END else ts[0];
    assert items[1..] == if ts == [] then [] else ts[1..] + [END];
  }

  /** Valid pairs are accepted whatever the spelling; without the spelling `<begin>` nothing else is. */
  lemma {:induction false} ChainIsPairs(prev: Item, items: seq<Item>)
    ensures PairsOk(prev.token, items) ==> ChainOk(prev, items)
    ensures prev.value != BEGIN.value && (forall i :: 0 <= i < |items| ==> items[i].value != BEGIN.value)
            ==> (ChainOk(prev, items) ==> PairsOk(prev.token, items))
    decreases |items|
  {
    if items != [] {
      ChainIsPairs(items[0], items[1..]);
    }
  }

  // ----- a printed condition

  lemma {:induction false} JoinedHasNoOddTokens(prev: Token, ts: seq<Item>)
    requires Joined(prev, ts)
    ensures NoneOf(ts, LitEof) && NoneOf(ts, Unsupported)
    decreases |ts|
  {
    if ts != [] {
      NothingFollowsTheEnd(ts);
      JoinedHasNoOddTokens(ts[0].token, ts[1..]);
      assert ts == [ts[0]] + ts[1..];
    }
  }

  lemma NothingFollowsTheEnd(ts: seq<Item>)
    requires ts != [] && Joined(ts[0].token, ts[1..])
    ensures ts[0].token != LitEof && ts[0].token != Unsupported
  {
    if |ts| > 1 {
      assert Follows(ts[0].token, ts[1..][0].token);
    }
  }

  /** Printed with any layout, a condition is scanned and collected into its printing exactly when it is within the
      limits. */
  lemma PrintedConditionCollects(limits: Limits, c: Cond, gaps: seq<string>)
    requires ProperItems(Print(c)) && Spaced(Print(c), gaps)
    ensures var collected := Collected(limits, Layout(Print(c), gaps));
      && (collected.Ok? <==> Fits(limits, 0, 0, Print(c)))
      && (collected.Ok? ==> collected.value == Print(c))
  {
    var ts := Print(c);
    JoinedCond(SepLpar, c, []);
    JoinedHasNoOddTokens(SepLpar, ts);
    JoinedMeans(ts[0].token, ts[1..]);
    PairsOfPrefix(ts[0].token, ts[1..]);
    LexReadsLayout(ts, gaps);
    CollectDecides(limits, BEGIN, [], 0, ts);
    assert (ts + [END])[1..] == ts[1..] + [END];
    ChainIsPairs(ts[0], ts[1..] + [END]);
    assert [] + ts == ts;
  }

  lemma {:induction false} PairsOfPrefix(prev: Token, ts: seq<Item>)
    requires PairsOk(prev, ts + [END])
    ensures PairsOk(prev, ts)
    decreases |ts|
  {
    if ts != [] {
      assert (ts + [END])[1..] == ts[1..] + [END];
      PairsOfPrefix(ts[0].token, ts[1..]);
    }
  }

  /** Scanning, collecting, checking and building a printed condition is compiling it: within the limits and the
      nesting bound the parser returns what the grammar compiles, outside them it fails. */
  lemma PrintedConditionRuns(limits: Limits, env: Env, c: Cond, gaps: seq<string>)
    requires ProperItems(Print(c)) && Spaced(Print(c), gaps)
    ensures var r := RunResult(limits, env, Layout(Print(c), gaps));
      if Fits(limits, 0, 0, Print(c)) && Nesting(c) <= MAX_RECURSION_DEPTH then r == CompileCond(env, c) else r.Err?
  {
    PrintedConditionCollects(limits, c, gaps);
    ParensCond(c, [], 0, MAX_RECURSION_DEPTH);
    if Nesting(c) <= MAX_RECURSION_DEPTH {
      BuildPrinting(env, c, 0);
    }
  }

  // ----- what a detection denotes

  /** The readings of the listed keys, if all have one. */
  function ReadingsOf(cfg: Config, entries: map<string, Json>, keys: seq<string>, event: Event)
    : Option<seq<MatchResult>>
    requires forall k :: k in keys ==> k in entries
  {
    if keys == [] then Some([])
    else
      var n := |keys| - 1;
      match (ReadingsOf(cfg, entries, keys[..n], event), Reading(cfg, keys[n], entries[keys[n]], event))
      case (Some(rs), Some(r)) => Some(rs + [r])
      case _ => None
  }

  function SomeReadings(rs: Option<seq<MatchResult>>): Option<seq<MatchResult>> {
    if rs == Some([]) then None else rs
  }

  function NameReading(cfg: Config, det: Detection, name: string, event: Event): Option<MatchResult> {
    if name in det.entries then Reading(cfg, name, det.entries[name], event) else None
  }

  function WildcardReadings(cfg: Config, det: Detection, pattern: string, event: Event): Option<seq<MatchResult>>
    requires det.Valid()
  {
    match cfg.engine.identifiers(pattern)
    case None => None
    case Some(test) => SomeReadings(ReadingsOf(cfg, det.entries, Selected(det.order, test), event))
  }

  /** Names mean the readings of their values; `them` means all items, in the order of the map drawn for it, a wildcard
      those it selects, if there are any. */
  function DetectionDenotation(cfg: Config, det: Detection, event: Event): Denotation
    requires det.Valid()
  {
    Denotation(
      name => NameReading(cfg, det, name, event),
      (i: nat) => SomeReadings(ReadingsOf(cfg, det.entries, det.extractOrders(i), event)),
      pattern => WildcardReadings(cfg, det, pattern, event),
      0)
  }

  lemma {:induction false} RulesDenote(cfg: Config, entries: map<string, Json>, keys: seq<string>, event: Event)
    requires forall k :: k in keys ==> k in entries
    ensures AllAgree(RulesOf(cfg, entries, keys), ReadingsOf(cfg, entries, keys, event), event)
  {
    if keys != [] {
      var n := |keys| - 1;
      RulesDenote(cfg, entries, keys[..n], event);
      RulePreservesMeaning(cfg, keys[n], entries[keys[n]], event);
      var rules, rule := RulesOf(cfg, entries, keys[..n]), RuleOf(cfg, keys[n], entries[keys[n]]);
      if rules.Ok? && rule.Ok? {
        EvalEachPush(rules.value, rule.value, event);
      }
    }
  }

  lemma DetectionDenotes(cfg: Config, det: Detection, event: Event)
    requires det.Valid()
    ensures Denotes(DetectionEnv(cfg, det), DetectionDenotation(cfg, det, event), event)
  {
    var env, d := DetectionEnv(cfg, det), DetectionDenotation(cfg, det, event);
    forall n ensures Agrees(env.leaf(n), d.leaf(n), event) {
      if n in det.entries {
        RulePreservesMeaning(cfg, n, det.entries[n], event);
      }
    }
    forall i ensures AllAgree(env.all(i), d.all(i), event) {
      RulesDenote(cfg, det.entries, det.extractOrders(i), event);
    }
    forall p ensures AllAgree(env.wild(p), d.wild(p), event) {
      match cfg.engine.identifiers(p)
      case None =>
      case Some(test) => RulesDenote(cfg, det.entries, Selected(det.order, test), event);
    }
  }

  /** End to end: printed with any layout, scanned, collected, checked and built against a detection, a condition
      within the limits yields a tree exactly when it has a meaning, and the tree's three-valued result on every event
      is that meaning. */
  lemma ConditionMeansWhatItSays(limits: Limits, cfg: Config, det: Detection, c: Cond, gaps: seq<string>, event: Event)
    requires det.Valid()
    requires ProperItems(Print(c)) && Spaced(Print(c), gaps)
    requires Fits(limits, 0, 0, Print(c)) && Nesting(c) <= MAX_RECURSION_DEPTH
    ensures Agrees(RunResult(limits, DetectionEnv(cfg, det), Layout(Print(c), gaps)),
                   MeanCond(DetectionDenotation(cfg, det, event), c), event)
  {
    PrintedConditionRuns(limits, DetectionEnv(cfg, det), c, gaps);
    DetectionDenotes(cfg, det, event);
    CondMeaning(DetectionEnv(cfg, det), DetectionDenotation(cfg, det, event), c, event);
  }

  // ----- a detection and its own condition

  /** The detection's `condition` entry is this condition, written with some layout. */
  ghost predicate Says(det: Detection, c: Cond, gaps: seq<string>) {
    && ProperItems(Print(c)) && Spaced(Print(c), gaps)
    && "condition" in det.entries && det.entries["condition"] == Str(Layout(Print(c), gaps))
  }

  /** The values of the items, one after the other. */
  function Spelled(ts: seq<Item>): string {
    if ts == [] then "" else ts[0].value + Spelled(ts[1..])
  }

  lemma {:induction false} MemoryIs(limits: Limits, ts: seq<Item>)
    ensures Memory(limits, ts) == |ts| * limits.itemOverhead + |Spelled(ts)|
  {
    if ts != [] {
      MemoryIs(limits, ts[1..]);
    }
  }

  /** Few enough tokens, little enough memory for them, and no deeper than fifty groups. */
  predicate Readable(limits: Limits, c: Cond) {
    && |Print(c)| <= limits.maxTokens
    && |Print(c)| * limits.itemOverhead + |Spelled(Print(c))| <= limits.maxMemory
    && Nesting(c) <= 50
  }

  lemma ReadableIs(limits: Limits, c: Cond)
    ensures Readable(limits, c) <==> Fits(limits, 0, 0, Print(c)) && Nesting(c) <= MAX_RECURSION_DEPTH
  {
    MemoryIs(limits, Print(c));
    JoinedCond(SepLpar, c, []);
  }

  /** What comes of a detection's own condition entry. */
  ghost predicate SaysAndMeans(r: Result<Node, ParseError>, limits: Limits, cfg: Config, det: Detection, c: Cond,
                               gaps: seq<string>)
    requires det.Valid()
  {
    Says(det, c, gaps) ==>
      if Readable(limits, c) then
        forall event :: Agrees(r, MeanCond(DetectionDenotation(cfg, det, event), c), event)
      else r.Err?
  }

  /** A new parser, run on its detection: a condition entry that is a condition within the limits yields a tree with
      the condition's meaning on every event, one outside the limits an error; without a condition text nothing is
      built. */
  method ParseDetection(det: Detection, cfg: Config, limits: Limits) returns (r: Result<Node, ParseError>)
    requires det.Valid()
    ensures forall c, gaps :: SaysAndMeans(r, limits, cfg, det, c, gaps)
    ensures "condition" !in det.entries || !det.entries["condition"].Str? || det.entries["condition"].s == ""
            ==> r == Err(NoValidBranches)
  {
    var parser := new Parser(det, cfg, limits);
    var error := parser.Run();
    r := if error.Some? then Err(error.value) else Ok(parser.result.value);
    forall c, gaps ensures SaysAndMeans(r, limits, cfg, det, c, gaps) {
      if Says(det, c, gaps) {
        DetectionRuns(limits, cfg, det, c, gaps);
      }
    }
    NothingToRead(limits, DetectionEnv(cfg, det));
  }

  lemma DetectionRuns(limits: Limits, cfg: Config, det: Detection, c: Cond, gaps: seq<string>)
    requires det.Valid() && Says(det, c, gaps)
    ensures SaysAndMeans(RunResult(limits, DetectionEnv(cfg, det), det.entries["condition"].s), limits, cfg, det, c,
                         gaps)
  {
    PrintedConditionRuns(limits, DetectionEnv(cfg, det), c, gaps);
    ReadableIs(limits, c);
    if Readable(limits, c) {
      forall event
        ensures Agrees(RunResult(limits, DetectionEnv(cfg, det), det.entries["condition"].s),
                       MeanCond(DetectionDenotation(cfg, det, event), c), event)
      {
        ConditionMeansWhatItSays(limits, cfg, det, c, gaps, event);
      }
    }
  }

  lemma NothingToRead(limits: Limits, env: Env)
    ensures RunResult(limits, env, "") == Err(NoValidBranches)
  {
    assert Lex("", "") == [END] by {
      assert Word("") == [];
      assert [] + [END] == [END];
    }
    CollectDecides(limits, BEGIN, [], 0, []);
    assert ChainOk(BEGIN, [] + [END]) by {
      assert ([] + [END])[1..] == [];
    }
    assert [] + [END] == [END];
    assert Build(env, [], 0) == Finish(START);
  }
}
