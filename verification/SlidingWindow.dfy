/** The time window of the aggregations (`src/aggregation/sliding_window.rs`). */
module SlidingWindows {
  import opened Wrappers

  datatype Entry<V> = Entry(value: V, timestamp: int)

  /** The numbers that are added up: `sum` may leave the finite ones, as floating-point addition does. */
  datatype Numbers<!V> = Numbers(zero: V, sum: (V, V) -> V, isFinite: V -> bool, max: V) {
    function Plus(acc: V, value: V): V {
      if isFinite(sum(acc, value)) then sum(acc, value) else max
    }
  }

  function Total<V>(numbers: Numbers<V>, entries: seq<Entry<V>>): V {
    if entries == [] then numbers.zero
    else numbers.Plus(Total(numbers, entries[..|entries| - 1]), entries[|entries| - 1].value)
  }

  /** The entries left when those older than `start` are dropped from the front. */
  function DropExpired<V>(entries: seq<Entry<V>>, start: int): seq<Entry<V>> {
    if entries != [] && entries[0].timestamp < start then DropExpired(entries[1..], start) else entries
  }

  /** The entries with a timestamp from `start` to `end`, wherever they stand. */
  function Within<V>(entries: seq<Entry<V>>, start: int, end: int): seq<Entry<V>> {
    if entries == [] then []
    else
      var e := entries[|entries| - 1];
      Within(entries[..|entries| - 1], start, end) + if start <= e.timestamp <= end then [e] else []
  }

  /** What happens to a window. */
  datatype Op<V> = Add(value: V, at: int) | CompactAt(at: int) | Clear

  function EntriesAfter<V>(ops: seq<Op<V>>, span: nat): seq<Entry<V>> {
    if ops == [] then []
    else
      var before := EntriesAfter(ops[..|ops| - 1], span);
      match ops[|ops| - 1]
      case Add(value, at) => DropExpired(before + [Entry(value, at)], at - span)
      case CompactAt(at) => DropExpired(before, at - span)
      case Clear => []
  }

  class SlidingWindow<V> {
    const numbers: Numbers<V>
    /** The duration of the window; zero when it is too long to be represented. */
    const span: nat
    var entries: seq<Entry<V>>
    var cachedValue: V
    var lastUpdate: int
    var cacheValid: bool
    ghost var ops: seq<Op<V>>

    /** The entries are what the operations leave, and a valid cache holds their total. */
    ghost predicate Valid()
      reads this
    {
      && entries == EntriesAfter(ops, span)
      && (cacheValid ==> cachedValue == Total(numbers, entries))
    }

    constructor (numbers: Numbers<V>, span: nat, now: int)
      ensures Valid() && ops == [] && this.numbers == numbers && this.span == span
    {
      this.numbers, this.span := numbers, span;
      entries, cachedValue, lastUpdate, cacheValid, ops := [], numbers.zero, now, false, [];
    }

    method AddValue(value: V, timestamp: int)
      requires Valid()
      modifies this
      ensures Valid() && ops == old(ops) + [Add(value, timestamp)]
      ensures entries == DropExpired(old(entries) + [Entry(value, timestamp)], timestamp - span)
      ensures !cacheValid && lastUpdate == timestamp
    {
      entries := entries + [Entry(value, timestamp)];
      var start := timestamp - span;
      while entries != []
        invariant DropExpired(entries, start) == DropExpired(old(entries) + [Entry(value, timestamp)], start)
        invariant ops == old(ops)
        decreases |entries|
      {
        if entries[0].timestamp >= start { break; }
        entries := entries[1..];
      }
      cacheValid := false;
      lastUpdate := timestamp;
      ops := ops + [Add(value, timestamp)];
      assert ops[..|ops| - 1] == old(ops);
    }

    method GetCurrentValue() returns (value: V)
      requires Valid()
      modifies this`cachedValue, this`cacheValid
      ensures Valid() && cacheValid
      ensures value == cachedValue == Total(numbers, entries)
    {
      if !cacheValid {
        var acc := numbers.zero;
        for i := 0 to |entries|
          invariant acc == Total(numbers, entries[..i])
        {
          var sum := numbers.sum(acc, entries[i].value);
          assert entries[..i + 1][..i] == entries[..i];
          acc := if numbers.isFinite(sum) then sum else numbers.max;
        }
        assert entries[..|entries|] == entries;
        cachedValue := acc;
        cacheValid := true;
      }
      value := cachedValue;
    }

    method GetInterpolatedValue(timestamp: int) returns (value: V)
      ensures value == Total(numbers, Within(entries, timestamp - span, timestamp))
    {
      var start := timestamp - span;
      value := numbers.zero;
      for i := 0 to |entries|
        invariant value == Total(numbers, Within(entries[..i], start, timestamp))
      {
        var e := entries[i];
        assert entries[..i + 1][..i] == entries[..i];
        if e.timestamp >= start && e.timestamp <= timestamp {
          TotalPush(numbers, Within(entries[..i], start, timestamp), e);
          var sum := numbers.sum(value, e.value);
          value := if numbers.isFinite(sum) then sum else numbers.max;
        } else {
          assert Within(entries[..i], start, timestamp) + [] == Within(entries[..i], start, timestamp);
        }
      }
      assert entries[..|entries|] == entries;
    }

    method CompactAtTime(now: int)
      requires Valid()
      modifies this`entries, this`cacheValid, this`ops
      ensures Valid() && ops == old(ops) + [CompactAt(now)]
      ensures entries == DropExpired(old(entries), now - span)
      ensures cacheValid <==> old(cacheValid) && entries == old(entries)
    {
      var start := now - span;
      var removedAny := false;
      while entries != []
        invariant DropExpired(entries, start) == DropExpired(old(entries), start)
        invariant ops == old(ops) && cacheValid == old(cacheValid)
        invariant if removedAny then |entries| < |old(entries)| else entries == old(entries)
        decreases |entries|
      {
        if entries[0].timestamp >= start { break; }
        entries := entries[1..];
        removedAny := true;
      }
      if removedAny {
        cacheValid := false;
      }
      ops := ops + [CompactAt(now)];
      assert ops[..|ops| - 1] == old(ops);
    }

    method Clear(now: int)
      requires Valid()
      modifies this
      ensures Valid() && ops == old(ops) + [Op.Clear]
      ensures entries == [] && cacheValid && cachedValue == numbers.zero && lastUpdate == now
    {
      entries, cachedValue, cacheValid, lastUpdate := [], numbers.zero, true, now;
      ops := ops + [Op.Clear];
      assert ops[|ops| - 1] == Op.Clear;
    }
  }

  lemma TotalPush<V>(numbers: Numbers<V>, entries: seq<Entry<V>>, e: Entry<V>)
    ensures Total(numbers, entries + [e]) == numbers.Plus(Total(numbers, entries), e.value)
  {
    assert (entries + [e])[..|entries|] == entries;
  }

  /** Overflow is kept out of the total. */
  lemma TotalIsFinite<V>(numbers: Numbers<V>, entries: seq<Entry<V>>)
    requires numbers.isFinite(numbers.zero) && numbers.isFinite(numbers.max)
    ensures numbers.isFinite(Total(numbers, entries))
  {
  }

  /** The values added up as they come. */
  function PlainSum<V>(numbers: Numbers<V>, entries: seq<Entry<V>>): V {
    if entries == [] then numbers.zero
    else numbers.sum(PlainSum(numbers, entries[..|entries| - 1]), entries[|entries| - 1].value)
  }

  /** No sum of the first entries leaves the finite numbers. */
  predicate SumsFinitely<V>(numbers: Numbers<V>, entries: seq<Entry<V>>) {
    entries == [] || (SumsFinitely(numbers, entries[..|entries| - 1]) && numbers.isFinite(PlainSum(numbers, entries)))
  }

  /** The total is the plain sum while that stays finite; where it first does not, the total is the largest number. */
  lemma {:induction false} TotalIsPlainSum<V>(numbers: Numbers<V>, entries: seq<Entry<V>>)
    ensures SumsFinitely(numbers, entries) ==> Total(numbers, entries) == PlainSum(numbers, entries)
    ensures entries != [] && SumsFinitely(numbers, entries[..|entries| - 1]) && !SumsFinitely(numbers, entries)
            ==> Total(numbers, entries) == numbers.max
  {
    if entries != [] {
      TotalIsPlainSum(numbers, entries[..|entries| - 1]);
    }
  }

  // ----- dropping from the front against filtering

  /** An expired entry stands behind one that is still in the window. */
  ghost predicate Buried<V>(entries: seq<Entry<V>>, start: int) {
    exists i, j :: 0 <= i < j < |entries| && entries[i].timestamp >= start && entries[j].timestamp < start
  }

  ghost predicate UpTo<V>(entries: seq<Entry<V>>, end: int) {
    forall i :: 0 <= i < |entries| ==> entries[i].timestamp <= end
  }

  lemma {:induction false} DropSplits<V>(entries: seq<Entry<V>>, start: int) returns (k: nat)
    ensures k <= |entries| && DropExpired(entries, start) == entries[k..]
    ensures forall i :: 0 <= i < k ==> entries[i].timestamp < start
    ensures k < |entries| ==> entries[k].timestamp >= start
    decreases |entries|
  {
    if entries != [] && entries[0].timestamp < start {
      var k' := DropSplits(entries[1..], start);
      k := k' + 1;
      assert entries[1..][k'..] == entries[k..];
      assert forall i :: 1 <= i < k ==> entries[i] == entries[1..][i - 1];
    } else {
      k := 0;
    }
  }

  /** Expired entries first, then entries inside: filtering leaves the latter. */
  lemma {:induction false} WithinSplits<V>(entries: seq<Entry<V>>, start: int, end: int, k: nat)
    requires k <= |entries|
    requires forall i :: 0 <= i < k ==> entries[i].timestamp < start
    requires forall i :: k <= i < |entries| ==> start <= entries[i].timestamp <= end
    ensures Within(entries, start, end) == entries[k..]
    decreases |entries|
  {
    if entries != [] {
      var n := |entries| - 1;
      if k <= n {
        WithinSplits(entries[..n], start, end, k);
        assert entries[k..] == entries[..n][k..] + [entries[n]];
      } else {
        WithinSplits(entries[..n], start, end, n);
        assert entries[..n][n..] == [] && [] + [] == entries[k..];
      }
    }
  }

  lemma {:induction false} WithinIsInside<V>(entries: seq<Entry<V>>, start: int, end: int, i: nat)
    requires i < |Within(entries, start, end)|
    ensures start <= Within(entries, start, end)[i].timestamp <= end
    decreases |entries|
  {
    var inside := Within(entries[..|entries| - 1], start, end);
    if i < |inside| {
      WithinIsInside(entries[..|entries| - 1], start, end, i);
    }
  }

  /** Dropping from the front keeps a buried entry, filtering does not. */
  lemma BuriedIsKept<V>(entries: seq<Entry<V>>, start: int, end: int, i: nat, j: nat)
    requires i < j < |entries| && entries[i].timestamp >= start && entries[j].timestamp < start
    ensures DropExpired(entries, start) != Within(entries, start, end)
  {
    var k := DropSplits(entries, start);
    assert k <= i;
    assert entries[k..][j - k] == entries[j];
    if entries[k..] == Within(entries, start, end) {
      WithinIsInside(entries, start, end, j - k);
    }
  }

  lemma NoneBuried<V>(entries: seq<Entry<V>>, start: int, end: int)
    requires UpTo(entries, end) && !Buried(entries, start)
    ensures DropExpired(entries, start) == Within(entries, start, end)
  {
    var k := DropSplits(entries, start);
    assert forall i :: k < i < |entries| ==> entries[i].timestamp >= start;
    WithinSplits(entries, start, end, k);
  }

  /** Dropping from the front keeps exactly the entries inside the window if and only if no expired entry is buried. */
  lemma DropKeepsTheWindow<V>(entries: seq<Entry<V>>, start: int, end: int)
    requires UpTo(entries, end)
    ensures DropExpired(entries, start) == Within(entries, start, end) <==> !Buried(entries, start)
  {
    if Buried(entries, start) {
      var i, j :| 0 <= i < j < |entries| && entries[i].timestamp >= start && entries[j].timestamp < start;
      BuriedIsKept(entries, start, end, i, j);
    } else {
      NoneBuried(entries, start, end);
    }
  }

  // ----- runs

  /** The insertions since the window was created or last cleared. */
  function Inserted<V>(ops: seq<Op<V>>): seq<Entry<V>> {
    if ops == [] then []
    else match ops[|ops| - 1]
      case Add(value, at) => Inserted(ops[..|ops| - 1]) + [Entry(value, at)]
      case CompactAt(_) => Inserted(ops[..|ops| - 1])
      case Clear => []
  }

  ghost predicate IsSuffix<V>(part: seq<Entry<V>>, whole: seq<Entry<V>>) {
    |part| <= |whole| && part == whole[|whole| - |part|..]
  }

  lemma DropLeavesASuffix<V>(part: seq<Entry<V>>, whole: seq<Entry<V>>, start: int)
    requires IsSuffix(part, whole)
    ensures IsSuffix(DropExpired(part, start), whole)
  {
    var k := DropSplits(part, start);
    assert part[k..] == whole[|whole| - |part| + k..];
  }

  /** Over every run, whatever its timestamps: the entries are the last of those inserted since the last clear. */
  lemma {:induction false} EntriesAreASuffix<V>(ops: seq<Op<V>>, span: nat)
    ensures IsSuffix(EntriesAfter(ops, span), Inserted(ops))
    decreases |ops|
  {
    if ops != [] && !ops[|ops| - 1].Clear? {
      var rest, op := ops[..|ops| - 1], ops[|ops| - 1];
      var part, whole := EntriesAfter(rest, span), Inserted(rest);
      EntriesAreASuffix(rest, span);
      if op.Add? {
        part, whole := part + [Entry(op.value, op.at)], whole + [Entry(op.value, op.at)];
      }
      DropLeavesASuffix(part, whole, op.at - span);
    }
  }

  /** When the window was last added to or compacted since it was created or cleared. */
  function LastTime<V>(ops: seq<Op<V>>): Option<int> {
    if ops == [] || ops[|ops| - 1].Clear? then None else Some(ops[|ops| - 1].at)
  }

  /** Time has not run backwards since the window was created or last cleared. */
  predicate InOrder<V>(ops: seq<Op<V>>) {
    ops == [] || ops[|ops| - 1].Clear?
    || (var before := ops[..|ops| - 1];
        InOrder(before) && (LastTime(before) == None || LastTime(before).value <= ops[|ops| - 1].at))
  }

  /** The timestamps do not decrease, and none is later than `end`. */
  predicate Rising<V>(entries: seq<Entry<V>>, end: int) {
    entries == []
    || (var n := |entries| - 1; entries[n].timestamp <= end && Rising(entries[..n], entries[n].timestamp))
  }

  lemma {:induction false} RisingOrders<V>(entries: seq<Entry<V>>, end: int, i: nat, j: nat)
    requires Rising(entries, end) && i <= j < |entries|
    ensures entries[i].timestamp <= entries[j].timestamp <= end
    decreases |entries|
  {
    var n := |entries| - 1;
    if j < n {
      RisingOrders(entries[..n], entries[n].timestamp, i, j);
    } else if i < n {
      RisingOrders(entries[..n], entries[n].timestamp, i, i);
    }
  }

  /** Moving both ends of the window forward, and filtering what was filtered before. */
  lemma {:induction false} WithinTwice<V>(entries: seq<Entry<V>>, start: int, end: int, start': int, end': int)
    requires Rising(entries, end) && start <= start' && end <= end'
    ensures Within(Within(entries, start, end), start', end') == Within(entries, start', end')
    decreases |entries|
  {
    if entries != [] {
      var n := |entries| - 1;
      var e, inside := entries[n], Within(entries[..n], start, end);
      WithinTwice(entries[..n], start, end, start', end');
      assert (inside + [e])[..|inside|] == inside;
      assert inside + [] == inside;
      assert Within(entries[..n], start', end') + [] == Within(entries[..n], start', end');
    }
  }

  lemma {:induction false} WithinRises<V>(entries: seq<Entry<V>>, start: int, end: int, last: int)
    requires Rising(entries, last)
    ensures Rising(Within(entries, start, end), last)
    decreases |entries|
  {
    if entries != [] {
      var n := |entries| - 1;
      var inside := Within(entries[..n], start, end);
      WithinRises(entries[..n], start, end, entries[n].timestamp);
      assert (inside + [entries[n]])[..|inside|] == inside;
      assert inside + [] == inside;
    }
  }

  lemma RisingBuriesNone<V>(entries: seq<Entry<V>>, start: int, end: int)
    requires Rising(entries, end)
    ensures !Buried(entries, start)
  {
    if Buried(entries, start) {
      var i, j :| 0 <= i < j < |entries| && entries[i].timestamp >= start && entries[j].timestamp < start;
      RisingOrders(entries, end, i, j);
      assert false;
    }
  }

  lemma RisingDropKeepsTheWindow<V>(entries: seq<Entry<V>>, start: int, end: int)
    requires Rising(entries, end)
    ensures DropExpired(entries, start) == Within(entries, start, end)
  {
    forall i | 0 <= i < |entries| ensures entries[i].timestamp <= end {
      RisingOrders(entries, end, i, i);
    }
    RisingBuriesNone(entries, start, end);
    NoneBuried(entries, start, end);
  }

  /** What an in-order run has inserted, and what of it the window holds, at its last time. */
  ghost predicate WindowAt<V>(entries: seq<Entry<V>>, inserted: seq<Entry<V>>, span: nat, now: int) {
    Rising(inserted, now) && entries == Within(inserted, now - span, now)
  }

  lemma WithinPush<V>(entries: seq<Entry<V>>, e: Entry<V>, start: int, end: int)
    ensures Within(entries + [e], start, end)
            == Within(entries, start, end) + if start <= e.timestamp <= end then [e] else []
  {
    assert (entries + [e])[..|entries|] == entries;
  }

  /** Time passes to `now` and what has expired is dropped from the front. */
  lemma WindowMoves<V>(entries: seq<Entry<V>>, inserted: seq<Entry<V>>, span: nat, before: int, now: int)
    requires WindowAt(entries, inserted, span, before) && before <= now
    ensures DropExpired(entries, now - span) == Within(entries, now - span, now)
    ensures WindowAt(DropExpired(entries, now - span), inserted, span, now)
  {
    WithinRises(inserted, before - span, before, before);
    RisingDropKeepsTheWindow(entries, now - span, now);
    WithinTwice(inserted, before - span, before, now - span, now);
  }

  /** The same with an entry added first. */
  lemma WindowGrows<V>(entries: seq<Entry<V>>, inserted: seq<Entry<V>>, span: nat, before: int, e: Entry<V>)
    requires WindowAt(entries, inserted, span, before) && before <= e.timestamp
    ensures WindowAt(DropExpired(entries + [e], e.timestamp - span), inserted + [e], span, e.timestamp)
  {
    var now := e.timestamp;
    WithinRises(inserted, before - span, before, before);
    assert (entries + [e])[..|entries|] == entries && (inserted + [e])[..|inserted|] == inserted;
    RisingDropKeepsTheWindow(entries + [e], now - span, now);
    WithinPush(entries, e, now - span, now);
    WithinPush(inserted, e, now - span, now);
    WithinTwice(inserted, before - span, before, now - span, now);
  }

  /** What an in-order run leaves, with or without a last time. */
  ghost predicate InWindow<V>(ops: seq<Op<V>>, span: nat, now: int) {
    WindowAt(EntriesAfter(ops, span), Inserted(ops), span, now)
  }

  lemma InWindowStep<V>(ops: seq<Op<V>>, op: Op<V>, span: nat, before: int)
    requires InWindow(ops, span, before) && !op.Clear? && before <= op.at
    ensures InWindow(ops + [op], span, op.at)
  {
    assert (ops + [op])[..|ops|] == ops;
    var entries, inserted := EntriesAfter(ops, span), Inserted(ops);
    match op
    case Add(value, at) =>
      WindowGrows(entries, inserted, span, before, Entry(value, at));
    case CompactAt(at) =>
      WindowMoves(entries, inserted, span, before, at);
  }

  /** Over every run in order: the window holds exactly the insertions since the last clear that are inside it. */
  lemma {:induction false} InOrderRunsKeepTheWindow<V>(ops: seq<Op<V>>, span: nat, now: int)
    requires InOrder(ops) && (LastTime(ops).Some? ==> now == LastTime(ops).value)
    ensures InWindow(ops, span, now)
    decreases |ops|
  {
    if ops != [] && !ops[|ops| - 1].Clear? {
      var before, op := ops[..|ops| - 1], ops[|ops| - 1];
      var last := if LastTime(before).Some? then LastTime(before).value else op.at;
      InOrderRunsKeepTheWindow(before, span, last);
      InWindowStep(before, op, span, last);
      assert before + [op] == ops;
    }
  }

  lemma {:induction false} WithinMembers<V>(entries: seq<Entry<V>>, start: int, end: int, e: Entry<V>)
    ensures e in Within(entries, start, end) <==> e in entries && start <= e.timestamp <= end
    decreases |entries|
  {
    if entries != [] {
      var n := |entries| - 1;
      WithinMembers(entries[..n], start, end, e);
      assert entries == entries[..n] + [entries[n]];
    }
  }

  /** In particular an entry is held exactly as long as it is no older than the window is long. */
  lemma HeldWhileYoungEnough<V>(ops: seq<Op<V>>, span: nat, now: int, e: Entry<V>)
    requires InOrder(ops) && LastTime(ops) == Some(now)
    ensures e in EntriesAfter(ops, span) <==> e in Inserted(ops) && now - e.timestamp <= span
  {
    InOrderRunsKeepTheWindow(ops, span, now);
    WithinMembers(Inserted(ops), now - span, now, e);
    if e in Inserted(ops) {
      var i :| 0 <= i < |Inserted(ops)| && Inserted(ops)[i] == e;
      RisingOrders(Inserted(ops), now, i, i);
    }
  }

  /** What the read-only interpolation adds up at a time not before any entry is what the window holds after compacting
      at that time, if and only if no expired entry is buried. */
  lemma InterpolationIsCompaction<V>(ops: seq<Op<V>>, span: nat, now: int)
    requires UpTo(EntriesAfter(ops, span), now)
    ensures Within(EntriesAfter(ops, span), now - span, now) == EntriesAfter(ops + [CompactAt(now)], span)
            <==> !Buried(EntriesAfter(ops, span), now - span)
  {
    assert (ops + [CompactAt(now)])[..|ops|] == ops;
    DropKeepsTheWindow(EntriesAfter(ops, span), now - span, now);
  }

  /** No run in order ever buries an entry. */
  lemma InOrderRunsBuryNone<V>(ops: seq<Op<V>>, span: nat, start: int)
    requires InOrder(ops)
    ensures !Buried(EntriesAfter(ops, span), start)
  {
    var last := if LastTime(ops).Some? then LastTime(ops).value else 0;
    InOrderRunsKeepTheWindow(ops, span, last);
    WithinRises(Inserted(ops), last - span, last, last);
    RisingBuriesNone(EntriesAfter(ops, span), start, last);
  }

  /** Out of order the two differ: an entry inserted late with an old timestamp hides behind a newer one, and the window
      goes on counting it. */
  lemma LateEntryIsKept(ops: seq<Op<int>>, early: Entry<int>, late: Entry<int>)
    requires early == Entry(1, 100) && late == Entry(2, 95)
    requires ops == [Add(1, 100)] + [Add(2, 95)]
    ensures Within(EntriesAfter(ops, 10), 107 - 10, 107) == [early]
    ensures EntriesAfter(ops + [CompactAt(107)], 10) == [early, late]
  {
    assert ops[..1] == [Add(1, 100)] && ops[..1][..0] == [];
    assert [] + [early] == [early];
    assert EntriesAfter(ops[..1], 10) == [early];
    assert EntriesAfter(ops, 10) == [early] + [late];
    WithinPush([], early, 97, 107);
    WithinPush([early], late, 97, 107);
    assert (ops + [CompactAt(107)])[..2] == ops;
  }
}
