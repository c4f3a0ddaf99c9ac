/** The backpressure controller called from one task at a time (`src/consumer/backpressure.rs`): its permits take the
    atomic steps of `Permits` one after the other, and pausing and resuming do not flap. */
module Backpressure {
  import opened Wrappers
  import opened Permits

  // ----- pausing and resuming

  datatype Event = Acquired | Dropped | AskPause | AskResume

  datatype Answer = Pause | Resume

  /** What is in flight, whether consumption is paused, the positive answers given so far, and the permits dropped. */
  datatype Meter = Meter(inflight: nat, paused: bool, answers: seq<Answer>, drops: nat)

  const NEW_METER := Meter(0, false, [], 0)

  /** `(max as f64 * ratio) as usize`: rounded down, and zero for a negative product. */
  function Threshold(max: nat, ratio: real): nat {
    var product := max as real * ratio;
    if product < 0.0 then 0 else product.Floor
  }

  /** The share of the maximum, cut to a whole number once multiplied. */
  predicate IsShare(t: nat, max: nat, ratio: real) {
    t as real <= max as real * ratio < (t + 1) as real
  }

  lemma ThresholdRoundsDown(max: nat, ratio: real)
    ensures max as real * ratio >= 0.0
            ==> Threshold(max, ratio) as real <= max as real * ratio < (Threshold(max, ratio) + 1) as real
    ensures max as real * ratio < 0.0 ==> Threshold(max, ratio) == 0
  {
  }

  /** A share of at most the whole is reached by a full controller, and no share is below an empty one. */
  lemma ThresholdWithin(max: nat, ratio: real)
    requires ratio <= 1.0
    ensures Threshold(max, ratio) <= max
  {
    assert max as real * ratio <= max as real * 1.0;
  }

  function Observe(m: Meter, pauseAt: nat, resumeAt: nat, event: Event): Meter {
    match event
    case Acquired => m.(inflight := m.inflight + 1)
    case Dropped => if m.inflight == 0 then m else m.(inflight := m.inflight - 1, drops := m.drops + 1)
    case AskPause =>
      if m.inflight >= pauseAt && !m.paused then m.(paused := true, answers := m.answers + [Pause]) else m
    case AskResume =>
      if m.inflight <= resumeAt && m.paused then m.(paused := false, answers := m.answers + [Resume]) else m
  }

  function ObserveAll(pauseAt: nat, resumeAt: nat, events: seq<Event>): Meter
    decreases |events|
  {
    if events == [] then NEW_METER
    else Observe(ObserveAll(pauseAt, resumeAt, events[..|events| - 1]), pauseAt, resumeAt, events[|events| - 1])
  }

  /** Pause, resume, pause, ... */
  ghost predicate Alternates(answers: seq<Answer>) {
    forall i :: 0 <= i < |answers| ==> answers[i] == if i % 2 == 0 then Pause else Resume
  }

  function Resumes(answers: seq<Answer>): nat {
    |answers| / 2
  }

  /** Drops that still have to happen before consumption can resume are not yet owed. */
  function Owed(m: Meter, pauseAt: nat): nat {
    if m.paused && m.inflight < pauseAt then pauseAt - m.inflight else 0
  }

  ghost predicate Steady(m: Meter, pauseAt: nat, resumeAt: nat) {
    && Alternates(m.answers)
    && (m.paused <==> |m.answers| % 2 == 1)
    && Resumes(m.answers) * (pauseAt - resumeAt) + Owed(m, pauseAt) <= m.drops
  }

  lemma ObserveIsSteady(m: Meter, pauseAt: nat, resumeAt: nat, event: Event)
    requires Steady(m, pauseAt, resumeAt)
    ensures Steady(Observe(m, pauseAt, resumeAt, event), pauseAt, resumeAt)
  {
    var m' := Observe(m, pauseAt, resumeAt, event);
    if m'.answers != m.answers && event == AskResume {
      assert Resumes(m'.answers) == Resumes(m.answers) + 1;
      assert Resumes(m'.answers) * (pauseAt - resumeAt)
             == Resumes(m.answers) * (pauseAt - resumeAt) + (pauseAt - resumeAt);
    } else {
      assert Resumes(m'.answers) == Resumes(m.answers);
    }
  }

  /** No flapping: over every sequence of acquisitions, drops and questions, the positive answers alternate, starting
      with pause, and every resumption has cost as many drops as lie between the two thresholds. */
  lemma {:induction false} NoFlapping(pauseAt: nat, resumeAt: nat, events: seq<Event>)
    ensures var m := ObserveAll(pauseAt, resumeAt, events);
      && Steady(m, pauseAt, resumeAt)
      && Alternates(m.answers)
      && Resumes(m.answers) * (pauseAt - resumeAt) <= m.drops
    decreases |events|
  {
    if events != [] {
      var before := events[..|events| - 1];
      NoFlapping(pauseAt, resumeAt, before);
      ObserveIsSteady(ObserveAll(pauseAt, resumeAt, before), pauseAt, resumeAt, events[|events| - 1]);
    }
  }

  function Acquisitions(events: seq<Event>): nat {
    if events == [] then 0
    else Acquisitions(events[..|events| - 1]) + if events[|events| - 1] == Acquired then 1 else 0
  }

  /** Every permit acquired is in flight or has been dropped. */
  lemma {:induction false} MeterCounts(pauseAt: nat, resumeAt: nat, events: seq<Event>)
    ensures var m := ObserveAll(pauseAt, resumeAt, events); m.inflight + m.drops == Acquisitions(events)
    decreases |events|
  {
    if events != [] {
      MeterCounts(pauseAt, resumeAt, events[..|events| - 1]);
    }
  }

  /** With the pause threshold not above the resume threshold, filling up to it and asking in turn pauses and resumes
      without a single drop. */
  lemma CrossedThresholdsFlap(pauseAt: nat, resumeAt: nat) returns (events: seq<Event>)
    requires pauseAt <= resumeAt
    ensures var m := ObserveAll(pauseAt, resumeAt, events); m.answers == [Pause, Resume] && m.drops == 0
  {
    var fill := seq(pauseAt, i => Acquired);
    events := fill + [AskPause] + [AskResume];
    AcquireOnly(pauseAt, resumeAt, pauseAt);
    assert (fill + [AskPause])[..pauseAt] == fill;
    assert events[..pauseAt + 1] == fill + [AskPause];
  }

  lemma {:induction false} AcquireOnly(pauseAt: nat, resumeAt: nat, n: nat)
    ensures ObserveAll(pauseAt, resumeAt, seq(n, i => Acquired)) == Meter(n, false, [], 0)
  {
    if n > 0 {
      assert seq(n, i => Acquired)[..n - 1] == seq(n - 1, i => Acquired);
      AcquireOnly(pauseAt, resumeAt, n - 1);
    }
  }

  ghost predicate ResumesForFree(pauseAt: nat, resumeAt: nat, events: seq<Event>) {
    var m := ObserveAll(pauseAt, resumeAt, events);
    Resumes(m.answers) > m.drops
  }

  /** Exactly when a resumption always costs a drop: some run resumes more often than permits are dropped if and only if
      the pause threshold is not above the resume threshold. */
  lemma ResumptionsCostDropsExactlyAboveTheThreshold(pauseAt: nat, resumeAt: nat)
    ensures (exists events :: ResumesForFree(pauseAt, resumeAt, events)) <==> pauseAt <= resumeAt
  {
    if pauseAt <= resumeAt {
      var events := CrossedThresholdsFlap(pauseAt, resumeAt);
      assert ResumesForFree(pauseAt, resumeAt, events);
    } else {
      forall events ensures !ResumesForFree(pauseAt, resumeAt, events) {
        NoFlapping(pauseAt, resumeAt, events);
        var m := ObserveAll(pauseAt, resumeAt, events);
        AtLeast(Resumes(m.answers), pauseAt - resumeAt);
      }
    }
  }

  lemma AtLeast(resumes: nat, distance: nat)
    requires distance >= 1
    ensures resumes * distance >= resumes
  {
  }

  /** Ratios in the right order are not enough: rounded down, the thresholds of a small controller meet. */
  lemma RoundedThresholdsMeet()
    ensures 0.8 > 0.5 && Threshold(1, 0.8) == Threshold(1, 0.5) == 0
    ensures exists events :: ResumesForFree(Threshold(1, 0.8), Threshold(1, 0.5), events)
  {
    assert (0.8 as real).Floor == 0 && (0.5 as real).Floor == 0;
    ResumptionsCostDropsExactlyAboveTheThreshold(0, 0);
  }

  // ----- the controller

  class BackpressureController {
    const maxInflight: nat
    const pauseThreshold: real
    const resumeThreshold: real
    const memoryLimit: Option<nat>
    var inflightCount: nat
    var available: nat  // permits left in the semaphore
    var isPaused: nat
    var currentMemory: nat
    var avgMessageSize: nat
    ghost var meter: Meter

    ghost predicate Valid()
      reads this
    {
      && inflightCount + available == maxInflight < USIZE
      && isPaused <= 1
      && meter.inflight == inflightCount && meter.paused == (isPaused == 1)
    }

    function PauseAt(): nat {
      Threshold(maxInflight, pauseThreshold)
    }

    function ResumeAt(): nat {
      Threshold(maxInflight, resumeThreshold)
    }

    /** The counters as the interleaving model has them, with one task of interest. */
    ghost function Counters(phase: Phase): Shared
      reads this
    {
      Shared(available, inflightCount, currentMemory, [phase])
    }

    constructor (maxInflight: nat, pauseThreshold: real, resumeThreshold: real, memoryLimit: Option<nat>)
      requires maxInflight < USIZE
      ensures Valid() && meter == NEW_METER
      ensures this.maxInflight == maxInflight && this.memoryLimit == memoryLimit
      ensures this.pauseThreshold == pauseThreshold && this.resumeThreshold == resumeThreshold
      ensures Counters(Idle) == Start(maxInflight, 1) && isPaused == 0 && avgMessageSize == 1024
    {
      this.maxInflight, this.pauseThreshold, this.resumeThreshold := maxInflight, pauseThreshold, resumeThreshold;
      this.memoryLimit := memoryLimit;
      inflightCount, available, isPaused, currentMemory, avgMessageSize := 0, maxInflight, 0, 0, 1024;
      meter := NEW_METER;
      new;
      assert seq(1, i => Idle) == [Idle];
    }

    /** `try_acquire`, giving the memory the permit reserves: the four steps without interruption. */
    method TryAcquire() returns (reserved: Option<nat>)
      requires Valid()
      modifies this`inflightCount, this`available, this`currentMemory, this`meter
      ensures Valid()
      ensures var steps := TryAcquireSteps(avgMessageSize);
        Counters(if reserved == None then Idle else Live(reserved.value, reserved.value))
        == Run(memoryLimit, old(Counters(Idle)), steps)
      ensures meter == if reserved == None then old(meter) else Observe(old(meter), PauseAt(), ResumeAt(), Acquired)
      ensures reserved.Some?
              <==> old(available) > 0
                   && (memoryLimit.Some? ==> old(currentMemory) + avgMessageSize <= memoryLimit.value)
      ensures reserved.Some? ==> reserved.value == if memoryLimit.Some? then avgMessageSize else 0
      ensures inflightCount == old(inflightCount) + if reserved.Some? then 1 else 0
      ensures available == old(available) - if reserved.Some? then 1 else 0
      ensures currentMemory == if reserved.Some? && memoryLimit.Some? then (old(currentMemory) + avgMessageSize) % USIZE
                               else old(currentMemory)
    {
      TryAcquireRun(memoryLimit, Counters(Idle), avgMessageSize);
      if memoryLimit.Some? && currentMemory + avgMessageSize > memoryLimit.value {
        return None;
      }
      if available == 0 {
        return None;
      }
      available := available - 1;
      if memoryLimit.Some? {
        currentMemory := WrapAdd(currentMemory, avgMessageSize);
        reserved := Some(avgMessageSize);
      } else {
        reserved := Some(0);
      }
      WrapAddExact(inflightCount, 1);
      inflightCount := WrapAdd(inflightCount, 1);
      meter := Observe(meter, PauseAt(), ResumeAt(), Acquired);
    }

    /** Dropping a permit. */
    method Drop(ghost added: nat, reserved: nat)
      requires Valid() && inflightCount > 0
      modifies this`inflightCount, this`available, this`currentMemory, this`meter
      ensures Valid()
      ensures Counters(Idle) == Run(memoryLimit, old(Counters(Live(added, reserved))), DROP_STEPS)
      ensures meter == Observe(old(meter), PauseAt(), ResumeAt(), Dropped)
      ensures inflightCount == old(inflightCount) - 1 && available == old(available) + 1
      ensures reserved <= old(currentMemory) < USIZE ==> currentMemory == old(currentMemory) - reserved
    {
      DropRun(memoryLimit, Counters(Live(added, reserved)), added, reserved);
      WrapSubExact(inflightCount, 1);
      inflightCount := WrapSub(inflightCount, 1);
      if reserved > 0 {
        currentMemory := WrapSub(currentMemory, reserved);
      }
      available := available + 1;
      meter := Observe(meter, PauseAt(), ResumeAt(), Dropped);
    }

    method ShouldPause() returns (answer: bool)
      requires Valid()
      modifies this`isPaused, this`meter
      ensures Valid()
      ensures meter == Observe(old(meter), PauseAt(), ResumeAt(), AskPause)
      ensures answer <==> |meter.answers| > |old(meter).answers|
      ensures forall t: nat :: IsShare(t, maxInflight, pauseThreshold)
                ==> (answer <==> old(isPaused) == 0 && inflightCount >= t)
      ensures maxInflight as real * pauseThreshold < 0.0 ==> (answer <==> old(isPaused) == 0)
      ensures pauseThreshold <= 1.0 && inflightCount == maxInflight ==> (answer <==> old(isPaused) == 0)
      ensures isPaused == if answer then 1 else old(isPaused)
    {
      ThresholdRoundsDown(maxInflight, pauseThreshold);
      if pauseThreshold <= 1.0 {
        ThresholdWithin(maxInflight, pauseThreshold);
      }
      var threshold := Threshold(maxInflight, pauseThreshold);
      answer := inflightCount >= threshold && isPaused == 0;
      if answer {
        isPaused := 1;
      }
      meter := Observe(meter, PauseAt(), ResumeAt(), AskPause);
    }

    method ShouldResume() returns (answer: bool)
      requires Valid()
      modifies this`isPaused, this`meter
      ensures Valid()
      ensures meter == Observe(old(meter), PauseAt(), ResumeAt(), AskResume)
      ensures answer <==> |meter.answers| > |old(meter).answers|
      ensures forall t: nat :: IsShare(t, maxInflight, resumeThreshold)
                ==> (answer <==> old(isPaused) == 1 && inflightCount <= t)
      ensures maxInflight as real * resumeThreshold < 0.0 ==> (answer <==> old(isPaused) == 1 && inflightCount == 0)
      ensures inflightCount == 0 ==> (answer <==> old(isPaused) == 1)
      ensures isPaused == if answer then 0 else old(isPaused)
    {
      ThresholdRoundsDown(maxInflight, resumeThreshold);
      var threshold := Threshold(maxInflight, resumeThreshold);
      answer := inflightCount <= threshold && isPaused == 1;
      if answer {
        isPaused := 0;
      }
      meter := Observe(meter, PauseAt(), ResumeAt(), AskResume);
    }
  }

  function TryAcquireSteps(average: nat): seq<Step> {
    [Step(0, Check(average))] + [Step(0, TryTake)] + [Step(0, TryReserve(average))] + [Step(0, TryCountIn)]
  }

  const DROP_STEPS := [Step(0, SetReleased)] + [Step(0, CountOut)] + [Step(0, ReturnMemory)] + [Step(0, GiveBack)]

  lemma WrapAddExact(a: nat, b: nat)
    requires a + b < USIZE
    ensures WrapAdd(a, b) == a + b
  {
  }

  lemma WrapSubExact(a: nat, b: nat)
    requires b <= a < USIZE
    ensures WrapSub(a, b) == a - b
  {
  }

  /** Four steps in a row. */
  lemma RunFour(limit: Option<nat>, s: Shared, a: Step, b: Step, c: Step, d: Step)
    ensures Run(limit, s, [a] + [b] + [c] + [d]) == Next(limit, Next(limit, Next(limit, Next(limit, s, a), b), c), d)
  {
    RunPush(limit, s, [], a);
    RunPush(limit, s, [a], b);
    RunPush(limit, s, [a] + [b], c);
    RunPush(limit, s, [a] + [b] + [c], d);
  }

  lemma TryAcquireRun(limit: Option<nat>, s: Shared, average: nat)
    requires s.phases == [Idle]
    ensures Run(limit, s, TryAcquireSteps(average)) ==
      if (limit.Some? && s.memory + average > limit.value) || s.available == 0 then s
      else
        var reserved := if limit.Some? then average else 0;
        Shared(s.available - 1, WrapAdd(s.inflight, 1), if limit.Some? then WrapAdd(s.memory, average) else s.memory,
               [Live(reserved, reserved)])
  {
    RunFour(limit, s, Step(0, Check(average)), Step(0, TryTake), Step(0, TryReserve(average)), Step(0, TryCountIn));
  }

  lemma DropRun(limit: Option<nat>, s: Shared, added: nat, reserved: nat)
    requires s.phases == [Live(added, reserved)]
    ensures Run(limit, s, DROP_STEPS) ==
      Shared(s.available + 1, WrapSub(s.inflight, 1),
             if reserved > 0 then WrapSub(s.memory, reserved) else s.memory, [Idle])
  {
    RunFour(limit, s, Step(0, SetReleased), Step(0, CountOut), Step(0, ReturnMemory), Step(0, GiveBack));
  }
}
