/** Hash maps hand out keys in no fixed order. When that can change a verdict, and when it cannot. */
module KeyOrder {
  import opened Wrappers
  import opened Grammar
  import opened Nodes
  import opened Detections
  import opened DetectionMeaning
  import opened Compilation
  import opened EndToEnd

  /** The readings of a key list, by membership. */
  lemma {:induction false} ReadingsByMember(cfg: Config, entries: map<string, Json>, keys: seq<string>, event: Event)
    requires forall k :: k in keys ==> k in entries
    ensures var rs := ReadingsOf(cfg, entries, keys, event);
      && (rs.Some? <==> forall k :: k in keys ==> Reading(cfg, k, entries[k], event).Some?)
      && (rs.Some? ==> |rs.value| == |keys|
                       && forall i :: 0 <= i < |keys|
                           ==> Reading(cfg, keys[i], entries[keys[i]], event) == Some(rs.value[i]))
  {
    if keys != [] {
      var n := |keys| - 1;
      ReadingsByMember(cfg, entries, keys[..n], event);
      assert keys == keys[..n] + [keys[n]];
    }
  }

  predicate SameKeys(keys: seq<string>, keys': seq<string>) {
    && (forall i :: 0 <= i < |keys| ==> keys[i] in keys')
    && (forall i :: 0 <= i < |keys'| ==> keys'[i] in keys)
  }

  ghost predicate SameReadings(rs: Option<seq<MatchResult>>, rs': Option<seq<MatchResult>>) {
    match (rs, rs')
    case (None, None) => true
    case (Some(a), Some(b)) => SameMembers(a, b)
    case _ => false
  }

  lemma ReadingsOfSameKeys(cfg: Config, entries: map<string, Json>, keys: seq<string>, keys': seq<string>, event: Event)
    requires SameKeys(keys, keys') && forall k :: k in keys ==> k in entries
    ensures SameReadings(SomeReadings(ReadingsOf(cfg, entries, keys, event)),
                         SomeReadings(ReadingsOf(cfg, entries, keys', event)))
  {
    ReadingsByMember(cfg, entries, keys, event);
    ReadingsByMember(cfg, entries, keys', event);
    var rs, rs' := ReadingsOf(cfg, entries, keys, event), ReadingsOf(cfg, entries, keys', event);
    if rs.Some? && rs'.Some? {
      MembersOfSameKeys(cfg, entries, keys, keys', rs.value, rs'.value, event);
      MembersOfSameKeys(cfg, entries, keys', keys, rs'.value, rs.value, event);
    }
  }

  lemma MembersOfSameKeys(cfg: Config, entries: map<string, Json>, keys: seq<string>, keys': seq<string>,
                          rs: seq<MatchResult>, rs': seq<MatchResult>, event: Event)
    requires |rs| == |keys| && |rs'| == |keys'|
    requires SameKeys(keys, keys') && forall k :: k in keys ==> k in entries
    requires forall i :: 0 <= i < |keys| ==> Reading(cfg, keys[i], entries[keys[i]], event) == Some(rs[i])
    requires forall i :: 0 <= i < |keys'| ==> Reading(cfg, keys'[i], entries[keys'[i]], event) == Some(rs'[i])
    ensures forall i :: 0 <= i < |rs| ==> rs[i] in rs'
  {
    forall i | 0 <= i < |rs|
      ensures rs[i] in rs'
    {
      var j :| 0 <= j < |keys'| && keys'[j] == keys[i];
      assert rs'[j] == rs[i];
    }
  }

  /** Two detections with the same entries, whatever the order of their keys. */
  ghost predicate SameEntries(det: Detection, det': Detection) {
    det.Valid() && det'.Valid() && det.entries == det'.entries
  }

  lemma OrdersAgree(det: Detection, keys: seq<string>, keys': seq<string>)
    requires det.IsOrder(keys) && det.IsOrder(keys')
    ensures SameKeys(keys, keys')
  {
    forall i | 0 <= i < |keys| ensures keys[i] in keys' {
      assert keys[i] in keys;
    }
    forall i | 0 <= i < |keys'| ensures keys'[i] in keys {
      assert keys'[i] in keys';
    }
  }

  /** One item does not apply to the event while another applies and does not match. */
  ghost predicate MixedItems(cfg: Config, det: Detection, event: Event)
    requires det.Valid()
  {
    && (exists k :: k in det.order && Reading(cfg, k, det.entries[k], event) == Some(NOT_APPLICABLE))
    && (exists k :: k in det.order && Reading(cfg, k, det.entries[k], event) == Some(NOT_MATCHED))
  }

  /** Denotations that differ only in the order of expansions none of which is mixed. */
  ghost predicate SameUpToOrder(d: Denotation, d': Denotation) {
    && (forall n :: d.leaf(n) == d'.leaf(n))
    && d.drawn == d'.drawn
    && (forall i :: SameExpansion(d.all(i), d'.all(i)))
    && (forall p :: SameExpansion(d.wild(p), d'.wild(p)))
  }

  ghost predicate SameExpansion(rs: Option<seq<MatchResult>>, rs': Option<seq<MatchResult>>) {
    && SameReadings(rs, rs')
    && (rs.Some? ==> Coherent(rs.value) && !Mixed(rs.value))
  }

  lemma {:induction false} AtomIgnoresOrder(d: Denotation, d': Denotation, a: Atom)
    requires SameUpToOrder(d, d')
    ensures MeanAtom(d, a) == MeanAtom(d', a)
    decreases a
  {
    match a
    case Name(n) =>
    case Group(c) => CondIgnoresOrder(d, d', c);
    case Quantified(all, target) =>
      var rs, rs' := MeanTarget(d, target), MeanTarget(d', target);
      assert SameExpansion(rs, rs');
      if rs.Some? {
        AnyOfIgnoresOrder(rs.value, rs'.value);
        AllOfIgnoresOrder(rs.value, rs'.value);
      }
  }

  lemma {:induction false} FactorsIgnoreOrder(d: Denotation, d': Denotation, c: Conj)
    requires SameUpToOrder(d, d')
    ensures MeanFactors(d, c) == MeanFactors(d', c)
    decreases c
  {
    AtomIgnoresOrder(d, d', c.factor.atom);
    if c.And? {
      FactorsIgnoreOrder(d.Skip(ThemsAtom(c.factor.atom)), d'.Skip(ThemsAtom(c.factor.atom)), c.rest);
    }
  }

  lemma {:induction false} TermsIgnoreOrder(d: Denotation, d': Denotation, c: Cond)
    requires SameUpToOrder(d, d')
    ensures MeanTerms(d, c) == MeanTerms(d', c)
    decreases c, 0
  {
    FactorsIgnoreOrder(d, d', c.conj);
    if c.Or? {
      TermsIgnoreOrder(d.Skip(ThemsConj(c.conj)), d'.Skip(ThemsConj(c.conj)), c.rest);
    }
  }

  lemma {:induction false} CondIgnoresOrder(d: Denotation, d': Denotation, c: Cond)
    requires SameUpToOrder(d, d')
    ensures MeanCond(d, c) == MeanCond(d', c)
    decreases c, 1
  {
    TermsIgnoreOrder(d, d', c);
  }

  lemma ExpansionNotMixed(cfg: Config, det: Detection, keys: seq<string>, event: Event)
    requires det.Valid() && !MixedItems(cfg, det, event)
    requires forall k :: k in keys ==> k in det.order
    ensures var rs := SomeReadings(ReadingsOf(cfg, det.entries, keys, event));
      rs.Some? ==> Coherent(rs.value) && !Mixed(rs.value)
  {
    ReadingsByMember(cfg, det.entries, keys, event);
    var rs := ReadingsOf(cfg, det.entries, keys, event);
    if rs.Some? {
      forall i | 0 <= i < |rs.value|
        ensures rs.value[i].matched ==> rs.value[i].applicable
        ensures exists k :: k in det.order && Reading(cfg, k, det.entries[k], event) == Some(rs.value[i])
      {
        assert keys[i] in det.order;
        RulePreservesMeaning(cfg, keys[i], det.entries[keys[i]], event);
      }
    }
  }

  lemma SelectedSameKeys(keys: seq<string>, keys': seq<string>, test: string -> bool)
    requires SameKeys(keys, keys')
    ensures SameKeys(Selected(keys, test), Selected(keys', test))
  {
    SelectedShares(keys, keys', test);
    SelectedShares(keys', keys, test);
  }

  lemma SelectedShares(keys: seq<string>, keys': seq<string>, test: string -> bool)
    requires SameKeys(keys, keys')
    ensures forall i :: 0 <= i < |Selected(keys, test)| ==> Selected(keys, test)[i] in Selected(keys', test)
  {
    forall i | 0 <= i < |Selected(keys, test)|
      ensures Selected(keys, test)[i] in Selected(keys', test)
    {
      var k := Selected(keys, test)[i];
      assert k in keys;
    }
  }

  // ----- where order shows

  /** Another key order gives the condition another meaning on the event. */
  ghost predicate OrderChanges(cfg: Config, det: Detection, det': Detection, c: Cond, event: Event) {
    && SameEntries(det, det')
    && MeanCond(DetectionDenotation(cfg, det', event), c) != MeanCond(DetectionDenotation(cfg, det, event), c)
  }

  /** What a target expands to, in the map's own order. */
  function Expansion(cfg: Config, det: Detection, target: Target, event: Event): Option<seq<MatchResult>>
    requires det.Valid()
  {
    match target
    case Them => SomeReadings(ReadingsOf(cfg, det.entries, det.order, event))
    case Pattern(p) => WildcardReadings(cfg, det, p, event)
  }

  /** The target expands, to items one of which does not apply while another applies and does not match. */
  ghost predicate MixedExpansion(cfg: Config, det: Detection, target: Target, event: Event)
    requires det.Valid()
  {
    Expansion(cfg, det, target, event).Some? && Mixed(Expansion(cfg, det, target, event).value)
  }

  lemma NotMixedByMembers(rs: seq<MatchResult>, rs': seq<MatchResult>)
    requires SameMembers(rs, rs') && !Mixed(rs)
    ensures !Mixed(rs')
  {
  }

  lemma ReadingsAreCoherent(cfg: Config, det: Detection, keys: seq<string>, event: Event)
    requires forall k :: k in keys ==> k in det.entries
    ensures ReadingsOf(cfg, det.entries, keys, event).Some?
            ==> Coherent(ReadingsOf(cfg, det.entries, keys, event).value)
  {
    RulesDenote(cfg, det.entries, keys, event);
  }

  /** Readings of the same keys: if one list is not mixed, neither is the other. */
  lemma ExpandAlike(cfg: Config, det: Detection, keys: seq<string>, keys': seq<string>, event: Event)
    requires SameKeys(keys, keys') && forall k :: k in keys ==> k in det.entries
    requires var rs := SomeReadings(ReadingsOf(cfg, det.entries, keys, event)); rs.Some? ==> !Mixed(rs.value)
    ensures SameExpansion(SomeReadings(ReadingsOf(cfg, det.entries, keys, event)),
                          SomeReadings(ReadingsOf(cfg, det.entries, keys', event)))
  {
    ReadingsOfSameKeys(cfg, det.entries, keys, keys', event);
    ReadingsAreCoherent(cfg, det, keys, event);
  }

  /** Where no target's expansion is mixed, no order matters. */
  lemma NotMixedSameUpToOrder(cfg: Config, det: Detection, det': Detection, event: Event)
    requires SameEntries(det, det') && forall target :: !MixedExpansion(cfg, det, target, event)
    ensures SameUpToOrder(DetectionDenotation(cfg, det, event), DetectionDenotation(cfg, det', event))
  {
    var d, d' := DetectionDenotation(cfg, det, event), DetectionDenotation(cfg, det', event);
    forall i ensures SameExpansion(d.all(i), d'.all(i)) {
      ThemExpandsAlike(cfg, det, det', i, event);
    }
    forall p ensures SameExpansion(d.wild(p), d'.wild(p)) {
      PatternExpandsAlike(cfg, det, det', p, event);
    }
  }

  lemma ThemExpandsAlike(cfg: Config, det: Detection, det': Detection, i: nat, event: Event)
    requires SameEntries(det, det') && !MixedExpansion(cfg, det, Them, event)
    ensures SameExpansion(DetectionDenotation(cfg, det, event).all(i), DetectionDenotation(cfg, det', event).all(i))
  {
    var keys, keys' := det.extractOrders(i), det'.extractOrders(i);
    OrdersAgree(det, det.order, keys);
    OrdersAgree(det, keys, keys');
    ExpandAlike(cfg, det, det.order, keys, event);
    var own := SomeReadings(ReadingsOf(cfg, det.entries, det.order, event));
    if own.Some? {
      NotMixedByMembers(own.value, SomeReadings(ReadingsOf(cfg, det.entries, keys, event)).value);
    }
    ExpandAlike(cfg, det, keys, keys', event);
  }

  lemma PatternExpandsAlike(cfg: Config, det: Detection, det': Detection, p: string, event: Event)
    requires SameEntries(det, det') && !MixedExpansion(cfg, det, Pattern(p), event)
    ensures SameExpansion(DetectionDenotation(cfg, det, event).wild(p), DetectionDenotation(cfg, det', event).wild(p))
  {
    match cfg.engine.identifiers(p)
    case None =>
    case Some(test) =>
      OrdersAgree(det, det.order, det'.order);
      SelectedSameKeys(det.order, det'.order, test);
      ExpandAlike(cfg, det, Selected(det.order, test), Selected(det'.order, test), event);
  }

  function NotAllOf(target: Target): Cond {
    Term(Single(Factor(true, Quantified(true, target))))
  }

  lemma NotAllOfMeans(d: Denotation, target: Target)
    requires MeanTarget(d, target).Some?
    ensures var r := Negation(AllOf(MeanTarget(d, target).value));
      && MeanFactors(d, NotAllOf(target).conj) == Some([r])
      && MeanCond(d, NotAllOf(target)) == Some(AnyOf([AllOf([r])]))
      && (AllOf(MeanTarget(d, target).value).matched == false ==> MeanCond(d, NotAllOf(target)) == Some(r))
  {
    var r := Negation(AllOf(MeanTarget(d, target).value));
    assert MeanFactor(d, Factor(true, Quantified(true, target))) == Some(r);
    assert [r][1..] == [];
    AnyOfCons([AllOf([r])]);
  }

  /** The `i`-th element first, the others as they were. */
  function Moved(keys: seq<string>, i: nat): seq<string>
    requires i < |keys|
  {
    [keys[i]] + (keys[..i] + keys[i + 1..])
  }

  lemma MovedAt(keys: seq<string>, i: nat, j: nat)
    requires i < |keys| && j < |keys|
    ensures Moved(keys, i)[j] == keys[if j == 0 then i else if j <= i then j - 1 else j]
  {
  }

  /** An order with one key moved to the front. */
  lemma KeyMoved(det: Detection, key: string) returns (keys: seq<string>)
    requires det.Valid() && key in det.order
    ensures det.IsOrder(keys) && |keys| > 0 && keys[0] == key
  {
    var order := det.order;
    var i :| 0 <= i < |order| && order[i] == key;
    keys := Moved(order, i);
    forall a, b | 0 <= a < b < |keys| ensures keys[a] != keys[b] {
      MovedAt(order, i, a);
      MovedAt(order, i, b);
    }
    forall k ensures k in keys <==> k in order {
      if k in keys {
        var j :| 0 <= j < |keys| && keys[j] == k;
        MovedAt(order, i, j);
      }
      if k in order {
        var j :| 0 <= j < |order| && order[j] == k;
        MovedAt(order, i, if j == i then 0 else if j < i then j + 1 else j);
      }
    }
  }

  /** Where all keys have a reading, any of them in another order do, and the readings start with the first one's. */
  lemma FirstReading(cfg: Config, entries: map<string, Json>, keys: seq<string>, keys': seq<string>, event: Event)
    requires (forall k :: k in keys ==> k in entries) && (forall k :: k in keys' ==> k in keys)
    requires ReadingsOf(cfg, entries, keys, event).Some? && |keys'| > 0
    ensures var rs := SomeReadings(ReadingsOf(cfg, entries, keys', event));
      rs.Some? && |rs.value| > 0 && Reading(cfg, keys'[0], entries[keys'[0]], event) == Some(rs.value[0])
  {
    ReadingsByMember(cfg, entries, keys, event);
    ReadingsByMember(cfg, entries, keys', event);
  }

  /** The keys a target stands for: every item's name but `condition`, or those of them that the wildcard matches. */
  predicate StandsFor(cfg: Config, det: Detection, target: Target, key: string) {
    && key in det.entries && key != "condition"
    && (target.Pattern? ==> cfg.engine.identifiers(target.pattern).Some?
                            && cfg.engine.identifiers(target.pattern).value(key))
  }

  /** The readings of the keys for which `p` holds: there are some exactly when there are such keys and all have one. */
  ghost predicate AreReadings(rs: Option<seq<MatchResult>>, cfg: Config, det: Detection, p: string -> bool,
                              event: Event)
    requires forall k :: p(k) ==> k in det.entries
  {
    && (rs.Some? <==> (exists k :: p(k)) && forall k :: p(k) ==> Reading(cfg, k, det.entries[k], event).Some?)
    && (rs.Some? ==>
          && (forall k :: p(k) ==> Reading(cfg, k, det.entries[k], event).value in rs.value)
          && (forall r :: r in rs.value ==> exists k :: p(k) && Reading(cfg, k, det.entries[k], event) == Some(r)))
  }

  /** What a target expands to, in whatever order: the readings of the items it stands for, if its glob compiles. */
  lemma TargetsMean(cfg: Config, det: Detection, target: Target, drawn: nat, event: Event)
    requires det.Valid()
    ensures var rs := MeanTarget(DetectionDenotation(cfg, det, event).Skip(drawn), target);
      if target.Pattern? && cfg.engine.identifiers(target.pattern) == None then rs == None
      else AreReadings(rs, cfg, det, k => StandsFor(cfg, det, target, k), event)
  {
    var keys := TargetKeys(cfg, if target.Them? then det.extractOrders(drawn) else det.order, target);
    KeysAreReadings(cfg, det, keys, k => StandsFor(cfg, det, target, k), event);
  }

  lemma KeysAreReadings(cfg: Config, det: Detection, keys: seq<string>, p: string -> bool, event: Event)
    requires (forall k :: p(k) <==> k in keys) && (forall k :: k in keys ==> k in det.entries)
    ensures AreReadings(SomeReadings(ReadingsOf(cfg, det.entries, keys, event)), cfg, det, p, event)
  {
    ReadingsByMember(cfg, det.entries, keys, event);
    if ReadingsOf(cfg, det.entries, keys, event).Some? {
      ReadingsAsMembers(cfg, det.entries, keys, event);
    }
    if keys != [] {
      assert p(keys[0]);
    }
  }

  lemma ReadingsAsMembers(cfg: Config, entries: map<string, Json>, keys: seq<string>, event: Event)
    requires (forall k :: k in keys ==> k in entries) && ReadingsOf(cfg, entries, keys, event).Some?
    ensures var rs := ReadingsOf(cfg, entries, keys, event).value;
      && (forall k :: k in keys ==> Reading(cfg, k, entries[k], event).Some?
                                    && Reading(cfg, k, entries[k], event).value in rs)
      && (forall r :: r in rs ==> exists k :: k in keys && Reading(cfg, k, entries[k], event) == Some(r))
  {
    ReadingsByMember(cfg, entries, keys, event);
    var rs := ReadingsOf(cfg, entries, keys, event).value;
    forall k | k in keys ensures Reading(cfg, k, entries[k], event).value in rs {
      var i :| 0 <= i < |keys| && keys[i] == k;
      assert rs[i] in rs;
    }
    forall r | r in rs ensures exists k :: k in keys && Reading(cfg, k, entries[k], event) == Some(r) {
      var i :| 0 <= i < |keys| && rs[i] == r;
      assert keys[i] in keys;
    }
  }

  /** Exactly when the order of keys can change a verdict: some condition means something else on an event under other
      key orders if and only if some target's expansion is mixed. */
  lemma KeyOrderShows(cfg: Config, det: Detection, event: Event)
    requires det.Valid()
    ensures (exists target :: MixedExpansion(cfg, det, target, event))
            <==> exists det', c :: OrderChanges(cfg, det, det', c, event)
  {
    if target :| MixedExpansion(cfg, det, target, event) {
      MixedExpansionShows(cfg, det, target, event);
    } else {
      forall det', c | SameEntries(det, det')
        ensures !OrderChanges(cfg, det, det', c, event)
      {
        NotMixedSameUpToOrder(cfg, det, det', event);
        CondIgnoresOrder(DetectionDenotation(cfg, det, event), DetectionDenotation(cfg, det', event), c);
      }
    }
  }

  /** The same entries, handed out in one order throughout. */
  function Ordered(det: Detection, keys: seq<string>): Detection {
    det.(order := keys, extractOrders := _ => keys)
  }

  /** The keys a target expands to, if it can be expanded. */
  function TargetKeys(cfg: Config, keys: seq<string>, target: Target): seq<string> {
    match target
    case Them => keys
    case Pattern(p) =>
      match cfg.engine.identifiers(p)
      case None => []
      case Some(test) => Selected(keys, test)
  }

  lemma ExpansionOfKeys(cfg: Config, det: Detection, target: Target, event: Event)
    requires det.Valid()
    ensures Expansion(cfg, det, target, event)
            == SomeReadings(ReadingsOf(cfg, det.entries, TargetKeys(cfg, det.order, target), event))
  {
  }

  lemma {:induction false} SelectedFirst(keys: seq<string>, test: string -> bool)
    requires keys != [] && test(keys[0])
    ensures |Selected(keys, test)| > 0 && Selected(keys, test)[0] == keys[0]
  {
    if |keys| > 1 {
      SelectedFirst(keys[..|keys| - 1], test);
    }
  }

  lemma TargetKeysMoved(cfg: Config, det: Detection, keys: seq<string>, target: Target)
    requires det.Valid() && det.IsOrder(keys) && |keys| > 0 && keys[0] in TargetKeys(cfg, det.order, target)
    ensures var moved := TargetKeys(cfg, keys, target);
      |moved| > 0 && moved[0] == keys[0] && forall k :: k in moved ==> k in TargetKeys(cfg, det.order, target)
  {
    if target.Pattern? {
      SelectedFirst(keys, cfg.engine.identifiers(target.pattern).value);
    }
  }

  /** With a key of the target moved to the front, the expansion starts with that key's reading. */
  lemma ExpansionStartsWith(cfg: Config, det: Detection, key: string, target: Target, event: Event)
    returns (det': Detection)
    requires det.Valid() && key in TargetKeys(cfg, det.order, target) && Expansion(cfg, det, target, event).Some?
    ensures SameEntries(det, det')
    ensures var rs := MeanTarget(DetectionDenotation(cfg, det', event), target);
      rs.Some? && |rs.value| > 0 && Reading(cfg, key, det.entries[key], event) == Some(rs.value[0])
  {
    var keys := KeyMoved(det, key);
    det' := Ordered(det, keys);
    assert det'.IsOrder(keys);
    ExpansionOfKeys(cfg, det, target, event);
    TargetKeysMoved(cfg, det, keys, target);
    FirstReading(cfg, det.entries, TargetKeys(cfg, det.order, target), TargetKeys(cfg, keys, target), event);
    OrderedExpansion(cfg, det, keys, target, event);
  }

  lemma OrderedExpansion(cfg: Config, det: Detection, keys: seq<string>, target: Target, event: Event)
    requires det.Valid() && det.IsOrder(keys)
    ensures Ordered(det, keys).Valid()
    ensures MeanTarget(DetectionDenotation(cfg, Ordered(det, keys), event), target)
            == SomeReadings(ReadingsOf(cfg, det.entries, TargetKeys(cfg, keys, target), event))
  {
    assert Ordered(det, keys).IsOrder(keys);
  }

  lemma MixedExpansionShows(cfg: Config, det: Detection, target: Target, event: Event)
    requires det.Valid() && MixedExpansion(cfg, det, target, event)
    ensures exists det', c :: OrderChanges(cfg, det, det', c, event)
  {
    var keys, rs := TargetKeys(cfg, det.order, target), Expansion(cfg, det, target, event).value;
    ExpansionOfKeys(cfg, det, target, event);
    ReadingsByMember(cfg, det.entries, keys, event);
    var i :| 0 <= i < |rs| && rs[i] == NOT_APPLICABLE;
    var j :| 0 <= j < |rs| && rs[j] == NOT_MATCHED;
    var det1 := ExpansionStartsWith(cfg, det, keys[i], target, event);
    var det2 := ExpansionStartsWith(cfg, det, keys[j], target, event);
    NotAllOfMeans(DetectionDenotation(cfg, det1, event), target);
    NotAllOfMeans(DetectionDenotation(cfg, det2, event), target);
    assert OrderChanges(cfg, det, det1, NotAllOf(target), event)
           || OrderChanges(cfg, det, det2, NotAllOf(target), event);
  }

  /** Where all items compile, the expansions that can be mixed are those of items that are. */
  lemma MixedItemsMixTargets(cfg: Config, det: Detection, event: Event)
    requires det.Valid() && ReadingsOf(cfg, det.entries, det.order, event).Some?
    ensures MixedItems(cfg, det, event) <==> exists target :: MixedExpansion(cfg, det, target, event)
  {
    if MixedItems(cfg, det, event) {
      MixedItemsMixThem(cfg, det, event);
    }
    if target :| MixedExpansion(cfg, det, target, event) {
      ExpansionOfKeys(cfg, det, target, event);
      if !MixedItems(cfg, det, event) {
        ExpansionNotMixed(cfg, det, TargetKeys(cfg, det.order, target), event);
      }
    }
  }

  lemma MixedItemsMixThem(cfg: Config, det: Detection, event: Event)
    requires det.Valid() && ReadingsOf(cfg, det.entries, det.order, event).Some? && MixedItems(cfg, det, event)
    ensures MixedExpansion(cfg, det, Them, event)
  {
    ReadingsByMember(cfg, det.entries, det.order, event);
    var rs := ReadingsOf(cfg, det.entries, det.order, event).value;
    var k1 :| k1 in det.order && Reading(cfg, k1, det.entries[k1], event) == Some(NOT_APPLICABLE);
    var k2 :| k2 in det.order && Reading(cfg, k2, det.entries[k2], event) == Some(NOT_MATCHED);
    var i :| 0 <= i < |det.order| && det.order[i] == k1;
    var j :| 0 <= j < |det.order| && det.order[j] == k2;
    assert rs[i] == NOT_APPLICABLE && rs[j] == NOT_MATCHED;
  }

  /** Two orders of a mixed detection: one hands out an item that does not apply first, the other one that applies and
      does not match. */
  lemma MixedOrders(cfg: Config, det: Detection, event: Event) returns (keys1: seq<string>, keys2: seq<string>)
    requires det.Valid() && ReadingsOf(cfg, det.entries, det.order, event).Some?
    requires MixedItems(cfg, det, event)
    ensures det.IsOrder(keys1) && det.IsOrder(keys2)
    ensures var rs1 := SomeReadings(ReadingsOf(cfg, det.entries, keys1, event));
      rs1.Some? && AllOf(rs1.value) == NOT_APPLICABLE
    ensures var rs2 := SomeReadings(ReadingsOf(cfg, det.entries, keys2, event));
      rs2.Some? && AllOf(rs2.value) == NOT_MATCHED
  {
    var k1 :| k1 in det.order && Reading(cfg, k1, det.entries[k1], event) == Some(NOT_APPLICABLE);
    var k2 :| k2 in det.order && Reading(cfg, k2, det.entries[k2], event) == Some(NOT_MATCHED);
    keys1 := KeyMoved(det, k1);
    keys2 := KeyMoved(det, k2);
    FirstReading(cfg, det.entries, det.order, keys1, event);
    FirstReading(cfg, det.entries, det.order, keys2, event);
  }

  /** The same entries, the first `them` expanded in one order and the others in another. */
  lemma Drawing(det: Detection, first: seq<string>, others: seq<string>) returns (det': Detection)
    requires det.Valid() && det.IsOrder(first) && det.IsOrder(others)
    ensures SameEntries(det, det') && det'.extractOrders(0) == first && det'.extractOrders(1) == others
  {
    det' := det.(extractOrders := i => if i == 0 then first else others);
    assert det'.IsOrder(det'.order);
    forall i ensures det'.IsOrder(det'.extractOrders(i)) {
      assert det'.IsOrder(first) && det'.IsOrder(others);
    }
  }

  // ----- two expansions in one condition

  const ALL_OF_THEM := Quantified(true, Them)
  const ALL_OF_THEM_OR_NOT := Cond.Or(NotAllOf(Them).conj, Term(Single(Factor(false, ALL_OF_THEM))))

  lemma AllOfThemOrNot(d: Denotation)
    requires d.drawn == 0 && d.all(0).Some? && d.all(1).Some?
    ensures MeanCond(d, ALL_OF_THEM_OR_NOT)
            == Some(AnyOf([AllOf([Negation(AllOf(d.all(0).value))])] + [AllOf([AllOf(d.all(1).value)])]))
  {
    var next := d.Skip(1);
    NotAllOfMeans(d, Them);
    assert MeanFactor(next, Factor(false, ALL_OF_THEM)) == Some(AllOf(d.all(1).value));
    assert MeanFactors(next, ALL_OF_THEM_OR_NOT.rest.conj) == Some([AllOf(d.all(1).value)]);
    assert ThemsConj(NotAllOf(Them).conj) == 1;
    assert MeanTerms(next, ALL_OF_THEM_OR_NOT.rest) == Some([AllOf([AllOf(d.all(1).value)])]);
  }

  /** Two `them` in one condition may be expanded in different orders: wherever items are mixed, "not all of them or all
      of them" can come out as applicable and not matched, which it never is when both are expanded in the same
      order. */
  lemma TwoExpansionsMayDiffer(cfg: Config, det: Detection, event: Event)
    requires det.Valid() && ReadingsOf(cfg, det.entries, det.order, event).Some?
    requires MixedItems(cfg, det, event)
    ensures exists det' :: SameEntries(det, det')
              && MeanCond(DetectionDenotation(cfg, det', event), ALL_OF_THEM_OR_NOT) == Some(NOT_MATCHED)
    ensures forall det' :: SameEntries(det, det') && det'.extractOrders(0) == det'.extractOrders(1)
              ==> MeanCond(DetectionDenotation(cfg, det', event), ALL_OF_THEM_OR_NOT) != Some(NOT_MATCHED)
  {
    DifferingExpansions(cfg, det, event);
    forall det' | SameEntries(det, det') && det'.extractOrders(0) == det'.extractOrders(1)
      ensures MeanCond(DetectionDenotation(cfg, det', event), ALL_OF_THEM_OR_NOT) != Some(NOT_MATCHED)
    {
      EqualExpansions(cfg, det, det', event);
    }
  }

  lemma DifferingExpansions(cfg: Config, det: Detection, event: Event)
    requires det.Valid() && ReadingsOf(cfg, det.entries, det.order, event).Some?
    requires MixedItems(cfg, det, event)
    ensures exists det' :: SameEntries(det, det')
              && MeanCond(DetectionDenotation(cfg, det', event), ALL_OF_THEM_OR_NOT) == Some(NOT_MATCHED)
  {
    var keys1, keys2 := MixedOrders(cfg, det, event);
    var det' := Drawing(det, keys1, keys2);
    AllOfThemOrNot(DetectionDenotation(cfg, det', event));
    OneInapplicable();
    assert SameEntries(det, det');
  }

  lemma OneInapplicable()
    ensures AnyOf([AllOf([Negation(NOT_APPLICABLE)])] + [AllOf([NOT_MATCHED])]) == NOT_MATCHED
  {
    assert [NOT_APPLICABLE][1..] == [] && [NOT_MATCHED][1..] == [];
    assert AllOf([NOT_APPLICABLE]) == NOT_APPLICABLE && AllOf([NOT_MATCHED]) == NOT_MATCHED;
    var rs := [NOT_APPLICABLE] + [NOT_MATCHED];
    AnyOfCons(rs);
    assert rs[1..] == [NOT_MATCHED];
    AnyOfCons(rs[1..]);
  }

  lemma EqualExpansions(cfg: Config, det: Detection, det': Detection, event: Event)
    requires det.Valid() && ReadingsOf(cfg, det.entries, det.order, event).Some? && det.order != []
    requires SameEntries(det, det') && det'.extractOrders(0) == det'.extractOrders(1)
    ensures MeanCond(DetectionDenotation(cfg, det', event), ALL_OF_THEM_OR_NOT) != Some(NOT_MATCHED)
  {
    var keys, d := det'.extractOrders(0), DetectionDenotation(cfg, det', event);
    OrdersAgree(det, det.order, keys);
    assert det.order[0] in keys;
    FirstReading(cfg, det.entries, det.order, keys, event);
    AllOfThemOrNot(d);
    ExcludedMiddle(AllOf(d.all(0).value));
  }

  lemma ExcludedMiddle(r: MatchResult)
    ensures AnyOf([AllOf([Negation(r)])] + [AllOf([r])]) != NOT_MATCHED
  {
    assert [Negation(r)][1..] == [] && [r][1..] == [];
    var rs := [AllOf([Negation(r)])] + [AllOf([r])];
    AnyOfCons(rs);
    assert rs[1..] == [AllOf([r])];
    AnyOfCons(rs[1..]);
  }
}
