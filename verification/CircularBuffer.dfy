/** The duration samples of the consumer's metrics and their percentiles (`src/consumer/metrics.rs`). Durations are
    nanoseconds. */
module Metrics {
  const U64: nat := 0x1_0000_0000_0000_0000

  /** The last `n` elements, or all of them. */
  function Last(s: seq<nat>, n: nat): seq<nat> {
    if |s| <= n then s else s[|s| - n..]
  }

  /** A circular buffer from its oldest item to its newest. */
  function Unrolled(buffer: seq<nat>, head: nat, size: nat): seq<nat>
    requires head <= |buffer| && size <= |buffer|
  {
    if size < |buffer| then buffer[..size] else buffer[head..] + buffer[..head]
  }

  /** Writing at the head either appends or replaces the oldest item by a newest one. */
  lemma UnrolledPush(buffer: seq<nat>, head: nat, size: nat, item: nat)
    requires head < |buffer| && size <= |buffer| && (size < |buffer| ==> head == size)
    ensures var next := if head + 1 == |buffer| then 0 else head + 1;
      var before := Unrolled(buffer, head, size);
      Unrolled(buffer[head := item], next, if size < |buffer| then size + 1 else size)
      == if size < |buffer| then before + [item] else before[1..] + [item]
  {
  }

  class CircularBuffer {
    const buffer: array<nat>
    const capacity: nat
    var head: nat
    var size: nat
    /** What has been pushed since the buffer was created or cleared. */
    ghost var pushed: seq<nat>

    /** From the oldest item to the newest. */
    ghost function Contents(): seq<nat>
      requires head <= buffer.Length && size <= buffer.Length
      reads this, buffer
    {
      Unrolled(buffer[..], head, size)
    }

    /** The buffer holds the last items pushed, at most `capacity` of them. */
    ghost predicate Valid()
      reads this, buffer
    {
      && capacity == buffer.Length > head
      && size == |Last(pushed, capacity)|
      && (size < capacity ==> head == size)
      && Contents() == Last(pushed, capacity)
    }

    constructor (capacity: nat)
      requires capacity > 0
      ensures Valid() && fresh(buffer) && pushed == [] && this.capacity == capacity
    {
      buffer := new nat[capacity](_ => 0);
      this.capacity, head, size, pushed := capacity, 0, 0, [];
    }

    method Push(item: nat)
      requires Valid()
      modifies this, buffer
      ensures Valid() && pushed == old(pushed) + [item]
    {
      LastPush(pushed, item, capacity);
      UnrolledPush(buffer[..], head, size, item);
      buffer[head] := item;
      Successor(head, capacity);
      head := (head + 1) % capacity;
      if size < capacity {
        size := size + 1;
      }
      pushed := pushed + [item];
      assert buffer[..] == old(buffer[..])[old(head) := item];
    }

    method Clear()
      requires Valid()
      modifies this
      ensures Valid() && pushed == []
    {
      head, size, pushed := 0, 0, [];
    }

    method ToSortedVec() returns (items: seq<nat>)
      requires Valid()
      ensures items == Sort(Last(pushed, capacity))
    {
      items := [];
      if size == 0 {
        return;
      }
      if size < capacity {
        items := buffer[0..size];
      } else {
        for i := 0 to capacity
          invariant items == Contents()[..i]
        {
          var idx := (head + i) % capacity;
          Wrapped(head, i, capacity);
          items := items + [buffer[idx]];
        }
      }
      assert items == Contents();
      items := Sort(items);
    }
  }

  lemma LastPush(s: seq<nat>, x: nat, n: nat)
    requires n > 0
    ensures Last(s + [x], n) == if |Last(s, n)| < n then Last(s, n) + [x] else Last(s, n)[1..] + [x]
  {
  }

  lemma Successor(i: nat, n: nat)
    requires i < n
    ensures (i + 1) % n == if i + 1 == n then 0 else i + 1
  {
    if i + 1 < n {
      Wrapped(i, 1, n);
    }
  }

  lemma Wrapped(head: nat, i: nat, n: nat)
    requires head < n && i < n
    ensures (head + i) % n == if head + i < n then head + i else head + i - n
  {
    var x := head + i;
    assert x == n * (x / n) + x % n;
    Multiples(n, x / n);
  }

  lemma Multiples(n: nat, q: nat)
    ensures q == 0 ==> n * q == 0
    ensures q == 1 ==> n * q == n
    ensures q >= 2 ==> n * q >= 2 * n
  {
  }

  // ----- sorting

  function Insert(x: nat, s: seq<nat>): seq<nat> {
    if s == [] || x <= s[0] then [x] + s else [s[0]] + Insert(x, s[1..])
  }

  /** The sorted items. */
  function Sort(s: seq<nat>): seq<nat> {
    if s == [] then [] else Insert(s[0], Sort(s[1..]))
  }

  predicate Ascending(s: seq<nat>) {
    forall i, j :: 0 <= i <= j < |s| ==> s[i] <= s[j]
  }

  lemma {:induction false} InsertKeepsAscending(x: nat, s: seq<nat>)
    requires Ascending(s)
    ensures Ascending(Insert(x, s))
    ensures Insert(x, s)[0] == if s == [] || x <= s[0] then x else s[0]
  {
    if s != [] && x > s[0] {
      InsertKeepsAscending(x, s[1..]);
    }
  }

  lemma {:induction false} InsertAdds(x: nat, s: seq<nat>)
    ensures multiset(Insert(x, s)) == multiset(s) + multiset{x}
  {
    if s != [] && x > s[0] {
      InsertAdds(x, s[1..]);
      assert s == [s[0]] + s[1..];
    }
  }

  /** The sorted items are a permutation of the items, in ascending order. */
  lemma {:induction false} SortIsSortedPermutation(s: seq<nat>)
    ensures Ascending(Sort(s)) && multiset(Sort(s)) == multiset(s) && |Sort(s)| == |s|
  {
    if s != [] {
      SortIsSortedPermutation(s[1..]);
      InsertKeepsAscending(s[0], Sort(s[1..]));
      InsertAdds(s[0], Sort(s[1..]));
      assert s == [s[0]] + s[1..];
      assert |multiset(Sort(s))| == |multiset(s)|;
    }
  }

  function CountBelow(s: seq<nat>, bound: nat): nat {
    if s == [] then 0 else (if s[0] < bound then 1 else 0) + CountBelow(s[1..], bound)
  }

  lemma {:induction false} CountInsert(x: nat, s: seq<nat>, bound: nat)
    ensures CountBelow(Insert(x, s), bound) == CountBelow(s, bound) + if x < bound then 1 else 0
  {
    if s != [] && x > s[0] {
      CountInsert(x, s[1..], bound);
      assert Insert(x, s)[1..] == Insert(x, s[1..]);
    } else {
      assert Insert(x, s)[1..] == s;
    }
  }

  lemma {:induction false} CountSort(s: seq<nat>, bound: nat)
    ensures CountBelow(Sort(s), bound) == CountBelow(s, bound)
  {
    if s != [] {
      CountSort(s[1..], bound);
      CountInsert(s[0], Sort(s[1..]), bound);
    }
  }

  /** In an ascending sequence, fewer than `k + 1` elements are below the `k`-th, and more than `k` are not above it. */
  lemma {:induction false} CountAscending(s: seq<nat>, k: nat, bound: nat)
    requires Ascending(s) && k < |s|
    ensures bound <= s[k] ==> CountBelow(s, bound) <= k
    ensures bound > s[k] ==> CountBelow(s, bound) > k
  {
    if k > 0 {
      CountAscending(s[1..], k - 1, bound);
    } else if bound <= s[0] {
      NoneBelow(s, bound);
    }
  }

  lemma {:induction false} NoneBelow(s: seq<nat>, bound: nat)
    requires forall i :: 0 <= i < |s| ==> bound <= s[i]
    ensures CountBelow(s, bound) == 0
  {
    if s != [] {
      NoneBelow(s[1..], bound);
    }
  }

  // ----- percentiles

  function P50(n: nat): nat { n / 2 }

  function P95(n: nat): nat
    requires n > 0
  {
    (n - 1) * 95 / 100
  }

  function P99(n: nat): nat
    requires n > 0
  {
    (n - 1) * 99 / 100
  }

  /** The percentile indices stay in range and in order; only for two samples is the median's above the 95th
      percentile's. */
  lemma IndicesInOrder(n: nat)
    requires n > 0
    ensures P50(n) < n && P95(n) <= P99(n) < n
    ensures P50(n) <= P95(n) <==> n != 2
  {
  }

  datatype ProcessingStats = ProcessingStats(count: nat, p50: nat, p95: nat, p99: nat, mean: nat)

  function Sum(s: seq<nat>): nat {
    if s == [] then 0 else Sum(s[..|s| - 1]) + s[|s| - 1]
  }

  /** The sum is cut down to 64 bits before it is divided. */
  function Mean(sum: nat, n: nat): nat
    requires n > 0
  {
    sum % U64 / n
  }

  function Stats(samples: seq<nat>): ProcessingStats {
    if samples == [] then ProcessingStats(0, 0, 0, 0, 0)
    else
      SortIsSortedPermutation(samples);
      IndicesInOrder(|samples|);
      var sorted, n := Sort(samples), |samples|;
      ProcessingStats(n, sorted[P50(n)], sorted[P95(n)], sorted[P99(n)], Mean(Sum(sorted), n))
  }

  method AddUp(s: seq<nat>) returns (sum: nat)
    ensures sum == Sum(s)
  {
    sum := 0;
    for i := 0 to |s|
      invariant sum == Sum(s[..i])
    {
      assert s[..i + 1][..i] == s[..i];
      sum := sum + s[i];
    }
    assert s[..|s|] == s;
  }

  method CalculateStats(durations: CircularBuffer) returns (stats: ProcessingStats)
    requires durations.Valid()
    ensures stats == Stats(Last(durations.pushed, durations.capacity))
    ensures durations.pushed == [] ==> stats == ProcessingStats(0, 0, 0, 0, 0)
  {
    if durations.size == 0 {
      return ProcessingStats(0, 0, 0, 0, 0);
    }
    ghost var samples := Last(durations.pushed, durations.capacity);
    SortIsSortedPermutation(samples);
    var sorted := durations.ToSortedVec();
    var n := |sorted|;
    IndicesInOrder(n);
    var sum := AddUp(sorted);
    stats := ProcessingStats(n, sorted[P50(n)], sorted[P95(n)], sorted[P99(n)], Mean(sum, n));
  }

  /** `v` has rank `k` among the samples: at most `k` of them are below it and more than `k` are not above it. */
  predicate HasRank(samples: seq<nat>, v: nat, k: nat) {
    CountBelow(samples, v) <= k < CountBelow(samples, v + 1)
  }

  /** The percentile indices are in range, and each percentile is the sample of its rank; the 95th is at most the 99th;
      the median is at most the 95th except for two different samples. */
  lemma PercentilesAreRanks(samples: seq<nat>)
    requires samples != []
    ensures var s, n := Stats(samples), |samples|;
      && s.count == n
      && P50(n) < n && P95(n) <= P99(n) < n && (P50(n) <= P95(n) <==> n != 2)
      && HasRank(samples, s.p50, P50(n)) && HasRank(samples, s.p95, P95(n)) && HasRank(samples, s.p99, P99(n))
      && s.p95 <= s.p99
      && (s.p50 <= s.p95 <==> n != 2 || samples[0] == samples[1])
  {
    var n := |samples|;
    SortIsSortedPermutation(samples);
    IndicesInOrder(n);
    SampleOfRank(samples, P50(n));
    SampleOfRank(samples, P95(n));
    SampleOfRank(samples, P99(n));
    if n == 2 {
      SortTwo(samples);
    }
  }

  /** The ranks: half of the number of samples, and 95 and 99 hundredths of one less, rounded down. */
  lemma PercentileRanks(samples: seq<nat>, k: nat)
    requires samples != []
    ensures var s, n := Stats(samples), |samples|;
      && (2 * k <= n < 2 * (k + 1) ==> HasRank(samples, s.p50, k))
      && (100 * k <= 95 * (n - 1) < 100 * (k + 1) ==> HasRank(samples, s.p95, k))
      && (100 * k <= 99 * (n - 1) < 100 * (k + 1) ==> HasRank(samples, s.p99, k))
  {
    PercentilesAreRanks(samples);
    RankIs(|samples|, k);
  }

  lemma RankIs(n: nat, k: nat)
    requires n > 0
    ensures 2 * k <= n < 2 * (k + 1) ==> k == P50(n)
    ensures 100 * k <= 95 * (n - 1) < 100 * (k + 1) ==> k == P95(n)
    ensures 100 * k <= 99 * (n - 1) < 100 * (k + 1) ==> k == P99(n)
  {
  }

  lemma SortTwo(s: seq<nat>)
    requires |s| == 2
    ensures Sort(s) == if s[0] <= s[1] then [s[0], s[1]] else [s[1], s[0]]
  {
    assert s[1..][1..] == [];
    assert Sort(s[1..]) == [s[1]];
    assert [s[1]][1..] == [] && Insert(s[0], []) == [s[0]];
  }

  lemma SampleOfRank(samples: seq<nat>, k: nat)
    requires k < |samples|
    ensures |Sort(samples)| == |samples| && HasRank(samples, Sort(samples)[k], k)
  {
    SortIsSortedPermutation(samples);
    var v := Sort(samples)[k];
    CountAscending(Sort(samples), k, v);
    CountAscending(Sort(samples), k, v + 1);
    CountSort(samples, v);
    CountSort(samples, v + 1);
  }

  /** The sum does not depend on the order. */
  lemma {:induction false} SumSplits(a: seq<nat>, b: seq<nat>)
    ensures Sum(a + b) == Sum(a) + Sum(b)
    decreases |b|
  {
    if b == [] {
      assert a + b == a;
    } else {
      var n := |b| - 1;
      assert (a + b)[..|a| + n] == a + b[..n];
      SumSplits(a, b[..n]);
    }
  }

  lemma {:induction false} SumInsert(x: nat, s: seq<nat>)
    ensures Sum(Insert(x, s)) == x + Sum(s)
  {
    assert Sum([x]) == x;
    if s != [] && x > s[0] {
      assert Sum([s[0]]) == s[0] && s == [s[0]] + s[1..];
      SumInsert(x, s[1..]);
      SumSplits([s[0]], Insert(x, s[1..]));
      SumSplits([s[0]], s[1..]);
    } else {
      SumSplits([x], s);
    }
  }

  lemma {:induction false} SumSort(s: seq<nat>)
    ensures Sum(Sort(s)) == Sum(s)
  {
    if s != [] {
      SumSort(s[1..]);
      SumInsert(s[0], Sort(s[1..]));
      assert s == [s[0]] + s[1..] && Sum([s[0]]) == s[0];
      SumSplits([s[0]], s[1..]);
    }
  }

  /** The reported mean is the mean of the samples, rounded down, if and only if their sum fits into 64 bits. */
  lemma MeanIsExactWithoutOverflow(samples: seq<nat>)
    requires 0 < |samples| <= U64
    ensures Stats(samples).mean == Sum(samples) / |samples| <==> Sum(samples) < U64
  {
    SumSort(samples);
    MeanOfSum(Sum(samples), |samples|);
  }

  /** Whatever the sum, the reported mean is that of its lowest 64 bits, rounded down. */
  lemma MeanRoundsDown(samples: seq<nat>)
    requires samples != []
    ensures IsMeanOf(Stats(samples).mean, Sum(samples) % 0x1_0000_0000_0000_0000, |samples|)
  {
    SumSort(samples);
    DivisionRoundsDown(Sum(samples) % U64, |samples|);
  }

  predicate IsMeanOf(mean: nat, sum: nat, n: nat) {
    mean * n <= sum < (mean + 1) * n
  }

  lemma DivisionRoundsDown(a: nat, n: nat)
    requires n > 0
    ensures IsMeanOf(a / n, a, n)
  {
    var q := a / n;
    assert a == n * q + a % n && q * n == n * q && (q + 1) * n == n * q + n;
  }

  /** Two samples that fit into 64 bits and whose sum does not: the mean comes out as zero. */
  lemma MeanAfterOverflow(samples: seq<nat>)
    requires samples == [U64 - 1, 1]
    ensures Stats(samples).mean == 0 && Sum(samples) / |samples| == U64 / 2
  {
    assert samples[1..] == [1] && [1][1..] == [];
    assert Sum([1]) == 1 && Sum(samples) == U64;
    SumSort(samples);
  }

  lemma MeanOfSum(sum: nat, n: nat)
    requires 0 < n <= U64
    ensures Mean(sum, n) == sum / n <==> sum < U64
  {
    if sum >= U64 {
      QuotientsApart(sum, sum % U64, n);
    }
  }

  lemma QuotientsApart(a: nat, b: nat, n: nat)
    requires n > 0 && b + n <= a
    ensures a / n > b / n
  {
    var p, q := a / n, b / n;
    assert a == n * p + a % n && b == n * q + b % n;
    NotLarger(n, p, q);
  }

  lemma NotLarger(n: nat, p: nat, q: nat)
    ensures p <= q ==> n * p <= n * q
  {
  }
}
