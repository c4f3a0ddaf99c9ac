/** Backpressure permits under interleaving (`src/consumer/backpressure.rs`): every task moves through the atomic steps
    of acquiring and dropping a permit, in any order between tasks. */
module Permits {
  import opened Wrappers

  /** The counters are `usize`: they wrap. */
  const USIZE := 0x1_0000_0000_0000_0000

  function WrapAdd(a: nat, b: nat): nat { (a + b) % USIZE }

  function WrapSub(a: nat, b: nat): nat { (a - b) % USIZE }

  /** Where a task is. `added` is what it put into the memory counter, `reserved` what its permit gives back. */
  datatype Phase =
    | Idle
    | Checked                                // try_acquire: the memory check passed
    | TryTaken                               // holds a semaphore permit
    | TryReserved(reserved: nat)             // its memory is counted
    | Acquiring(added: nat)                  // acquire: past the memory check, waits for a permit
    | AcquireTaken(added: nat)               // acquire: holds a semaphore permit
    | Live(added: nat, reserved: nat)        // counted in flight; the permit is out
    | Released(added: nat, reserved: nat)    // drop: the flag is set
    | CountedOut(added: nat, reserved: nat)  // no longer in flight
    | MemoryReturned                         // the semaphore permit is still held

  datatype Shared = Shared(available: nat, inflight: nat, memory: nat, phases: seq<Phase>)

  /** One atomic step of one task; `average` is the message size it loads, if it loads one. */
  datatype Action =
    | Check(average: nat)      // try_acquire loads the memory counter
    | TryTake                  // try_acquire tries the semaphore
    | TryReserve(average: nat) // fetch_add on the memory counter
    | TryCountIn               // fetch_add on the in-flight counter
    | AcquireReserve(average: nat) // a compare_exchange of acquire on the memory counter succeeds
    | AcquireSkip(average: nat)    // there is room, but every exchange of acquire fails and it goes on
    | AcquireTake              // acquire gets a semaphore permit
    | AcquireGiveUp            // acquire returns an error
    | AcquireCountIn(average: nat)
    | SetReleased              // drop: compare_exchange on the flag
    | CountOut                 // fetch_sub on the in-flight counter
    | ReturnMemory             // fetch_sub on the memory counter
    | GiveBack                 // the semaphore permit is dropped last

  datatype Step = Step(task: nat, action: Action)

  function Move(s: Shared, task: nat, phase: Phase): Shared
    requires task < |s.phases|
  {
    s.(phases := s.phases[task := phase])
  }

  /** Within the limit `acquire` adds the average to what it has added before. It may find afterwards that others have
      taken the counter down meanwhile, and then adds again. */
  function ReserveMore(limit: Option<nat>, s: Shared, task: nat, added: nat, average: nat): Shared
    requires task < |s.phases|
  {
    if limit == None || s.memory + average > limit.value then s
    else Move(s.(memory := WrapAdd(s.memory, average)), task, Acquiring(added + average))
  }

  /** The state after a step; a step that is not possible there changes nothing. */
  function Next(limit: Option<nat>, s: Shared, step: Step): Shared {
    if step.task >= |s.phases| then s
    else
      match (step.action, s.phases[step.task])
      case (Check(average), Idle) =>
        if limit.Some? && s.memory + average > limit.value then s else Move(s, step.task, Checked)
      case (TryTake, Checked) =>
        if s.available == 0 then Move(s, step.task, Idle)
        else Move(s.(available := s.available - 1), step.task, TryTaken)
      case (TryReserve(average), TryTaken) =>
        if limit.Some? then Move(s.(memory := WrapAdd(s.memory, average)), step.task, TryReserved(average))
        else Move(s, step.task, TryReserved(0))
      case (TryCountIn, TryReserved(m)) =>
        Move(s.(inflight := WrapAdd(s.inflight, 1)), step.task, Live(m, m))
      case (AcquireReserve(average), Idle) => ReserveMore(limit, s, step.task, 0, average)
      case (AcquireReserve(average), Acquiring(a)) => ReserveMore(limit, s, step.task, a, average)
      case (AcquireSkip(average), Idle) =>
        if limit == None || s.memory + average > limit.value then s else Move(s, step.task, Acquiring(0))
      case (AcquireTake, Idle) =>
        if limit.Some? || s.available == 0 then s
        else Move(s.(available := s.available - 1), step.task, AcquireTaken(0))
      case (AcquireTake, Acquiring(a)) =>
        if s.available == 0 then s else Move(s.(available := s.available - 1), step.task, AcquireTaken(a))
      case (AcquireGiveUp, Acquiring(_)) => Move(s, step.task, Idle)
      case (AcquireCountIn(average), AcquireTaken(a)) =>
        Move(s.(inflight := WrapAdd(s.inflight, 1)), step.task, Live(a, average))
      case (SetReleased, Live(a, r)) => Move(s, step.task, Released(a, r))
      case (CountOut, Released(a, r)) =>
        Move(s.(inflight := WrapSub(s.inflight, 1)), step.task, CountedOut(a, r))
      case (ReturnMemory, CountedOut(a, r)) =>
        Move(if r > 0 then s.(memory := WrapSub(s.memory, r)) else s, step.task, MemoryReturned)
      case (GiveBack, MemoryReturned) =>
        Move(s.(available := s.available + 1), step.task, Idle)
      case _ => s
  }

  function Run(limit: Option<nat>, s: Shared, steps: seq<Step>): Shared
    decreases |steps|
  {
    if steps == [] then s else Next(limit, Run(limit, s, steps[..|steps| - 1]), steps[|steps| - 1])
  }

  function Start(permits: nat, tasks: nat): Shared {
    Shared(permits, 0, 0, seq(tasks, i => Idle))
  }

  // ----- what the tasks hold

  function Sum(phases: seq<Phase>, weight: Phase -> nat): nat {
    if phases == [] then 0 else Sum(phases[..|phases| - 1], weight) + weight(phases[|phases| - 1])
  }

  /** 1 for a task holding a semaphore permit. */
  function Holds(p: Phase): nat {
    if p.Idle? || p.Checked? || p.Acquiring? then 0 else 1
  }

  /** 1 for a permit counted in and not yet counted out. */
  function CountedIn(p: Phase): nat {
    if p.Live? || p.Released? then 1 else 0
  }

  /** What a task has put into the memory counter and not yet taken out. */
  function Reserved(p: Phase): nat {
    match p
    case TryReserved(r) => r
    case Acquiring(a) => a
    case AcquireTaken(a) => a
    case Live(a, _) => a
    case Released(a, _) => a
    case CountedOut(a, _) => a
    case _ => 0
  }

  lemma {:induction false} SumUpdate(phases: seq<Phase>, i: nat, p: Phase, weight: Phase -> nat)
    requires i < |phases|
    ensures Sum(phases[i := p], weight) + weight(phases[i]) == Sum(phases, weight) + weight(p)
  {
    var n := |phases| - 1;
    if i == n {
      assert phases[i := p][..n] == phases[..n];
    } else {
      assert phases[i := p][..n] == phases[..n][i := p];
      SumUpdate(phases[..n], i, p, weight);
    }
  }

  lemma {:induction false} SumMonotone(phases: seq<Phase>, weight: Phase -> nat, weight': Phase -> nat)
    requires forall p :: weight(p) <= weight'(p)
    ensures Sum(phases, weight) <= Sum(phases, weight')
  {
    if phases != [] {
      SumMonotone(phases[..|phases| - 1], weight, weight');
    }
  }

  lemma {:induction false} SumStart(tasks: nat, weight: Phase -> nat)
    requires weight(Idle) == 0
    ensures Sum(seq(tasks, i => Idle), weight) == 0
  {
    if tasks > 0 {
      assert seq(tasks, i => Idle)[..tasks - 1] == seq(tasks - 1, i => Idle);
      SumStart(tasks - 1, weight);
    }
  }

  // ----- in flight

  /** Every permit is available or held, and the in-flight counter is the number counted in and not yet out. */
  ghost predicate CountsAgree(permits: nat, s: Shared) {
    && s.available + Sum(s.phases, Holds) == permits
    && s.inflight == Sum(s.phases, CountedIn)
  }

  /** The counter never exceeds the semaphore's size. */
  lemma InflightBounded(permits: nat, s: Shared)
    requires CountsAgree(permits, s)
    ensures s.inflight <= permits
  {
    SumMonotone(s.phases, CountedIn, Holds);
  }

  lemma {:induction false} CountedInPositive(phases: seq<Phase>, i: nat)
    requires i < |phases| && CountedIn(phases[i]) == 1
    ensures Sum(phases, CountedIn) >= 1
  {
    SumUpdate(phases, i, Idle, CountedIn);
  }

  /** What a step does to its own task's contribution, both sums at once. */
  lemma SumsAfter(s: Shared, s': Shared, task: nat)
    requires task < |s.phases| == |s'.phases| && s'.phases == s.phases[task := s'.phases[task]]
    ensures Sum(s'.phases, Holds) + Holds(s.phases[task]) == Sum(s.phases, Holds) + Holds(s'.phases[task])
    ensures Sum(s'.phases, CountedIn) + CountedIn(s.phases[task])
            == Sum(s.phases, CountedIn) + CountedIn(s'.phases[task])
    ensures Sum(s'.phases, CountedIn) <= Sum(s'.phases, Holds)
  {
    SumUpdate(s.phases, task, s'.phases[task], Holds);
    SumUpdate(s.phases, task, s'.phases[task], CountedIn);
    SumMonotone(s'.phases, CountedIn, Holds);
  }

  /** A step moves the semaphore and the in-flight counter with its own task's phase. */
  lemma CountersAfter(limit: Option<nat>, s: Shared, step: Step)
    requires step.task < |s.phases| && s.inflight < USIZE
    ensures var s', p := Next(limit, s, step), s.phases[step.task];
      && s'.phases == s.phases[step.task := s'.phases[step.task]]
      && s'.available + Holds(s'.phases[step.task]) == s.available + Holds(p)
      && s'.inflight == (s.inflight + CountedIn(s'.phases[step.task]) - CountedIn(p)) % USIZE
  {
    var s' := Next(limit, s, step);
    assert s'.phases == s.phases[step.task := s'.phases[step.task]];
  }

  lemma StepKeepsCounts(permits: nat, limit: Option<nat>, s: Shared, step: Step)
    requires permits < USIZE && CountsAgree(permits, s)
    ensures CountsAgree(permits, Next(limit, s, step)) && |Next(limit, s, step).phases| == |s.phases|
  {
    InflightBounded(permits, s);
    if step.task < |s.phases| {
      var s' := Next(limit, s, step);
      CountersAfter(limit, s, step);
      SumsAfter(s, s', step.task);
      InRange(s.inflight + CountedIn(s'.phases[step.task]) - CountedIn(s.phases[step.task]));
    }
  }

  lemma InRange(x: int)
    ensures 0 <= x < USIZE ==> x % USIZE == x
  {
  }

  /** In every interleaving of any number of tasks acquiring, trying and dropping permits, the in-flight counter equals
      the permits counted in and not yet counted out and stays within the semaphore's initial size. */
  lemma {:induction false} InflightCountsPermits(permits: nat, limit: Option<nat>, tasks: nat, steps: seq<Step>)
    requires permits < USIZE
    ensures var s := Run(limit, Start(permits, tasks), steps);
      CountsAgree(permits, s) && s.inflight <= permits && |s.phases| == tasks
    decreases |steps|
  {
    StartAgrees(permits, tasks);
    if steps != [] {
      var before := steps[..|steps| - 1];
      InflightCountsPermits(permits, limit, tasks, before);
      StepKeepsCounts(permits, limit, Run(limit, Start(permits, tasks), before), steps[|steps| - 1]);
    }
    InflightBounded(permits, Run(limit, Start(permits, tasks), steps));
  }

  lemma StartAgrees(permits: nat, tasks: nat)
    ensures CountsAgree(permits, Start(permits, tasks))
  {
    SumStart(tasks, Holds);
    SumStart(tasks, CountedIn);
  }

  /** The counter never underflows: whenever a drop counts its permit out, the counter is positive. */
  lemma NoUnderflow(permits: nat, limit: Option<nat>, tasks: nat, steps: seq<Step>, task: nat)
    requires permits < USIZE && task < tasks
    ensures var s := Run(limit, Start(permits, tasks), steps);
      task < |s.phases| && (s.phases[task].Released? ==> s.inflight > 0)
  {
    InflightCountsPermits(permits, limit, tasks, steps);
    var s := Run(limit, Start(permits, tasks), steps);
    if s.phases[task].Released? {
      CountedInPositive(s.phases, task);
    }
  }

  // ----- memory

  /** What a step gives back beyond what its permit added; negative where memory stays counted for good, as when an
      `acquire` that has reserved gives up. */
  function Drift(s: Shared, step: Step): int {
    if step.task >= |s.phases| then 0
    else
      match (step.action, s.phases[step.task])
      case (ReturnMemory, CountedOut(a, r)) => r - a
      case (AcquireGiveUp, Acquiring(a)) => 0 - a
      case _ => 0
  }

  function Drifted(limit: Option<nat>, s: Shared, steps: seq<Step>): int
    decreases |steps|
  {
    if steps == [] then 0
    else
      var before := steps[..|steps| - 1];
      Drifted(limit, s, before) + Drift(Run(limit, s, before), steps[|steps| - 1])
  }

  /** What a step does to the memory counter, wrapping aside. */
  function Delta(limit: Option<nat>, s: Shared, step: Step): int {
    if step.task >= |s.phases| then 0
    else
      match (step.action, s.phases[step.task])
      case (TryReserve(average), TryTaken) => if limit.Some? then average else 0
      case (AcquireReserve(average), Idle) => if limit.Some? && s.memory + average <= limit.value then average else 0
      case (AcquireReserve(average), Acquiring(_)) =>
        if limit.Some? && s.memory + average <= limit.value then average else 0
      case (ReturnMemory, CountedOut(_, r)) => 0 - r
      case _ => 0
  }

  lemma MemoryAfter(limit: Option<nat>, s: Shared, step: Step)
    requires s.memory < USIZE
    ensures Next(limit, s, step).memory == (s.memory + Delta(limit, s, step)) % USIZE
  {
  }

  /** A step's own contribution changes by what the counter changes, and drifts. */
  lemma ReservedAfter(limit: Option<nat>, s: Shared, step: Step)
    requires step.task < |s.phases|
    ensures var s' := Next(limit, s, step);
      && s'.phases == s.phases[step.task := s'.phases[step.task]]
      && Reserved(s'.phases[step.task]) == Reserved(s.phases[step.task]) + Delta(limit, s, step) + Drift(s, step)
  {
    var s' := Next(limit, s, step);
    assert s'.phases == s.phases[step.task := s'.phases[step.task]];
  }

  /** Memory and drift together are the reservations, but for `wraps` wrap-arounds. */
  ghost predicate MemoryLaw(s: Shared, drift: int, wraps: int) {
    s.memory < USIZE && s.memory + drift == Sum(s.phases, Reserved) + USIZE * wraps
  }

  lemma StepKeepsMemoryLaw(limit: Option<nat>, s: Shared, drift: int, wraps: int, step: Step) returns (wraps': int)
    requires MemoryLaw(s, drift, wraps)
    ensures MemoryLaw(Next(limit, s, step), drift + Drift(s, step), wraps')
  {
    wraps' := wraps;
    if step.task < |s.phases| {
      var s' := Next(limit, s, step);
      MemoryAfter(limit, s, step);
      ReservedAfter(limit, s, step);
      SumUpdate(s.phases, step.task, s'.phases[step.task], Reserved);
      var moved := s.memory + Delta(limit, s, step);
      Wraps(moved);
      wraps' := wraps - moved / USIZE;
    }
  }

  lemma Wraps(moved: int)
    ensures moved % USIZE == moved - USIZE * (moved / USIZE) && 0 <= moved % USIZE < USIZE
  {
  }

  /** In every interleaving of acquire, try_acquire and drop, the memory counter is what permits have added and not
      given back, less the drift, up to wrapping. */
  lemma {:induction false} MemoryUpToDrift(permits: nat, limit: Option<nat>, tasks: nat, steps: seq<Step>)
    returns (wraps: int)
    ensures MemoryLaw(Run(limit, Start(permits, tasks), steps), Drifted(limit, Start(permits, tasks), steps), wraps)
    decreases |steps|
  {
    if steps == [] {
      SumStart(tasks, Reserved);
      wraps := 0;
    } else {
      var before, s0 := steps[..|steps| - 1], Start(permits, tasks);
      wraps := MemoryUpToDrift(permits, limit, tasks, before);
      wraps := StepKeepsMemoryLaw(limit, Run(limit, s0, before), Drifted(limit, s0, before), wraps, steps[|steps| - 1]);
    }
  }

  lemma Remainder(x: int, q: int, r: int)
    requires x == USIZE * q + r && 0 <= r < USIZE
    ensures x % USIZE == r
  {
  }

  predicate IsAcquire(step: Step) {
    step.action.AcquireReserve? || step.action.AcquireSkip? || step.action.AcquireTake? || step.action.AcquireCountIn?
  }

  /** A permit of `try_acquire`: it gives back what it added. */
  predicate IsTryPhase(p: Phase) {
    match p
    case Live(a, r) => a == r
    case Released(a, r) => a == r
    case CountedOut(a, r) => a == r
    case Acquiring(_) => false
    case AcquireTaken(_) => false
    case _ => true
  }

  predicate AllTryPhases(phases: seq<Phase>) {
    forall i :: 0 <= i < |phases| ==> IsTryPhase(phases[i])
  }

  lemma TryStep(limit: Option<nat>, s: Shared, step: Step)
    requires AllTryPhases(s.phases) && !IsAcquire(step)
    ensures AllTryPhases(Next(limit, s, step).phases) && Drift(s, step) == 0
  {
    if step.task < |s.phases| {
      assert IsTryPhase(s.phases[step.task]);
    }
  }

  lemma {:induction false} OnlyTryPhases(permits: nat, limit: Option<nat>, tasks: nat, steps: seq<Step>)
    requires forall i :: 0 <= i < |steps| ==> !IsAcquire(steps[i])
    ensures AllTryPhases(Run(limit, Start(permits, tasks), steps).phases)
    ensures Drifted(limit, Start(permits, tasks), steps) == 0
    decreases |steps|
  {
    if steps != [] {
      var before := steps[..|steps| - 1];
      OnlyTryPhases(permits, limit, tasks, before);
      TryStep(limit, Run(limit, Start(permits, tasks), before), steps[|steps| - 1]);
    }
  }

  /** In every interleaving that uses only `try_acquire`, the memory counter is the sum reserved by permits that have
      not given it back, up to wrapping, and that sum itself while it fits the counter. */
  lemma MemoryCountsReservations(permits: nat, limit: Option<nat>, tasks: nat, steps: seq<Step>)
    requires forall i :: 0 <= i < |steps| ==> !IsAcquire(steps[i])
    ensures var s := Run(limit, Start(permits, tasks), steps);
      && s.memory == Sum(s.phases, Reserved) % USIZE
      && (Sum(s.phases, Reserved) < USIZE ==> s.memory == Sum(s.phases, Reserved))
  {
    OnlyTryPhases(permits, limit, tasks, steps);
    var wraps := MemoryUpToDrift(permits, limit, tasks, steps);
    LawWithoutDrift(Run(limit, Start(permits, tasks), steps), wraps);
  }

  lemma LawWithoutDrift(s: Shared, wraps: int)
    requires MemoryLaw(s, 0, wraps)
    ensures s.memory == Sum(s.phases, Reserved) % USIZE
    ensures Sum(s.phases, Reserved) < USIZE ==> s.memory == Sum(s.phases, Reserved)
  {
    Remainder(Sum(s.phases, Reserved), -wraps, s.memory);
  }

  // ----- when tracked memory is exact

  /** Tracked memory is the sum of what is reserved and not given back. */
  ghost predicate ExactAfter(limit: Option<nat>, permits: nat, tasks: nat, steps: seq<Step>) {
    var s := Run(limit, Start(permits, tasks), steps);
    s.memory == Sum(s.phases, Reserved) % USIZE
  }

  /** The message size estimate a step loads, if it loads it, is the given one. */
  predicate Loads(step: Step, average: nat) {
    match step.action
    case Check(a) => a == average
    case TryReserve(a) => a == average
    case AcquireReserve(a) => a == average
    case AcquireSkip(a) => a == average
    case AcquireCountIn(a) => a == average
    case _ => true
  }

  /** A run with a fixed message size estimate, with or without `acquire`. */
  predicate IsRun(steps: seq<Step>, average: nat, withAcquire: bool) {
    forall i :: 0 <= i < |steps| ==> Loads(steps[i], average) && (withAcquire || !IsAcquire(steps[i]))
  }

  ghost predicate ExactOverRuns(limit: Option<nat>, average: nat, withAcquire: bool) {
    forall permits, tasks, steps :: IsRun(steps, average, withAcquire) ==> ExactAfter(limit, permits, tasks, steps)
  }

  /** Exactly when tracked memory is right after every run: when `acquire` is not used, the estimate is zero, or a limit
      below the estimate lets nothing through. */
  lemma MemoryIsExactWithoutAcquireOnly(limit: Option<nat>, average: nat, withAcquire: bool)
    requires average < USIZE
    ensures ExactOverRuns(limit, average, withAcquire)
            <==> !withAcquire || average == 0 || (limit.Some? && average > limit.value)
  {
    if !withAcquire || average == 0 || (limit.Some? && average > limit.value) {
      forall permits, tasks, steps | IsRun(steps, average, withAcquire)
        ensures ExactAfter(limit, permits, tasks, steps)
      {
        if !withAcquire {
          MemoryCountsReservations(permits, limit, tasks, steps);
        } else if average == 0 {
          NothingCounted(permits, limit, tasks, steps);
        } else {
          NothingPasses(permits, limit, tasks, steps, average);
          SumStart(tasks, Reserved);
        }
      }
    } else if limit == None {
      AcquireBreaksMemory(average);
      assert IsRun(AcquireAndDrop(average), average, true);
    } else {
      GivingUpBreaksMemory(limit.value, average);
    }
  }

  predicate CountsNothing(p: Phase) {
    Reserved(p) == 0 && (p.Live? || p.Released? || p.CountedOut? ==> p.reserved == 0)
  }

  /** With an estimate of zero nothing is ever counted. */
  lemma {:induction false} NothingCounted(permits: nat, limit: Option<nat>, tasks: nat, steps: seq<Step>)
    requires IsRun(steps, 0, true)
    ensures var s := Run(limit, Start(permits, tasks), steps);
      s.memory == 0 && (forall i :: 0 <= i < |s.phases| ==> CountsNothing(s.phases[i])) && Sum(s.phases, Reserved) == 0
    decreases |steps|
  {
    if steps != [] {
      var before := steps[..|steps| - 1];
      NothingCounted(permits, limit, tasks, before);
      ZeroStep(limit, Run(limit, Start(permits, tasks), before), steps[|steps| - 1]);
    }
    SumOfNothing(Run(limit, Start(permits, tasks), steps).phases);
  }

  lemma ZeroStep(limit: Option<nat>, s: Shared, step: Step)
    requires s.memory == 0 && Loads(step, 0) && forall i :: 0 <= i < |s.phases| ==> CountsNothing(s.phases[i])
    ensures var s' := Next(limit, s, step);
      s'.memory == 0 && forall i :: 0 <= i < |s'.phases| ==> CountsNothing(s'.phases[i])
  {
    if step.task < |s.phases| {
      assert CountsNothing(s.phases[step.task]);
    }
  }

  lemma {:induction false} SumOfNothing(phases: seq<Phase>)
    requires forall i :: 0 <= i < |phases| ==> CountsNothing(phases[i])
    ensures Sum(phases, Reserved) == 0
  {
    if phases != [] {
      assert CountsNothing(phases[|phases| - 1]);
      SumOfNothing(phases[..|phases| - 1]);
    }
  }

  /** A limit below the estimate leaves everything as it was. */
  lemma {:induction false} NothingPasses(permits: nat, limit: Option<nat>, tasks: nat, steps: seq<Step>, average: nat)
    requires limit.Some? && average > limit.value && IsRun(steps, average, true)
    ensures Run(limit, Start(permits, tasks), steps) == Start(permits, tasks)
    decreases |steps|
  {
    if steps != [] {
      NothingPasses(permits, limit, tasks, steps[..|steps| - 1], average);
    }
  }

  /** What `acquire` and a drop do on a controller without a memory limit. */
  function AcquireAndDrop(average: nat): seq<Step> {
    [Step(0, AcquireTake)] + [Step(0, AcquireCountIn(average))] + [Step(0, SetReleased)] + [Step(0, CountOut)]
    + [Step(0, ReturnMemory)] + [Step(0, GiveBack)]
  }

  lemma RunPush(limit: Option<nat>, s: Shared, steps: seq<Step>, step: Step)
    ensures Run(limit, s, steps + [step]) == Next(limit, Run(limit, s, steps), step)
    ensures Run(limit, s, [step]) == Next(limit, s, step)
  {
    assert (steps + [step])[..|steps|] == steps;
    assert [step][..0] == [];
  }

  lemma AcquireStates(a: nat)
    ensures Next(None, Shared(1, 0, 0, [Idle]), Step(0, AcquireTake)) == Shared(0, 0, 0, [AcquireTaken(0)])
    ensures Next(None, Shared(0, 0, 0, [AcquireTaken(0)]), Step(0, AcquireCountIn(a))) == Shared(0, 1, 0, [Live(0, a)])
  {
  }

  lemma DropStates(a: nat)
    ensures Next(None, Shared(0, 1, 0, [Live(0, a)]), Step(0, SetReleased)) == Shared(0, 1, 0, [Released(0, a)])
    ensures Next(None, Shared(0, 1, 0, [Released(0, a)]), Step(0, CountOut)) == Shared(0, 0, 0, [CountedOut(0, a)])
  {
  }

  lemma ReturnStates(a: nat)
    requires 0 < a < USIZE
    ensures Next(None, Shared(0, 0, 0, [CountedOut(0, a)]), Step(0, ReturnMemory))
            == Shared(0, 0, USIZE - a, [MemoryReturned])
    ensures Next(None, Shared(0, 0, USIZE - a, [MemoryReturned]), Step(0, GiveBack)) == Shared(1, 0, USIZE - a, [Idle])
  {
  }

  /** No conservation with `acquire`: without a memory limit nothing is added, yet dropping the permit takes the average
      message size out, and the counter wraps around. */
  lemma AcquireBreaksMemory(average: nat)
    requires 0 < average < USIZE
    ensures Run(None, Start(1, 1), AcquireAndDrop(average)) == Shared(1, 0, USIZE - average, [Idle])
    ensures !ExactAfter(None, 1, 1, AcquireAndDrop(average))
  {
    var s0 := Start(1, 1);
    assert s0.phases == [Idle];
    var r1 := [Step(0, AcquireTake)];
    var r2 := r1 + [Step(0, AcquireCountIn(average))];
    var r3 := r2 + [Step(0, SetReleased)];
    var r4 := r3 + [Step(0, CountOut)];
    var r5 := r4 + [Step(0, ReturnMemory)];
    AcquireStates(average);
    DropStates(average);
    ReturnStates(average);
    RunPush(None, s0, [], Step(0, AcquireTake));
    RunPush(None, s0, r1, Step(0, AcquireCountIn(average)));
    RunPush(None, s0, r2, Step(0, SetReleased));
    RunPush(None, s0, r3, Step(0, CountOut));
    RunPush(None, s0, r4, Step(0, ReturnMemory));
    RunPush(None, s0, r5, Step(0, GiveBack));
    SumOfNothing([Idle]);
  }

  /** With a limit, an `acquire` that has reserved, finds no permit and gives up leaves its reservation behind. */
  lemma GivingUpBreaksMemory(limit: nat, average: nat)
    requires 0 < average < USIZE && average <= limit
    ensures var steps := [Step(0, AcquireReserve(average))] + [Step(0, AcquireGiveUp)];
      && Run(Some(limit), Start(0, 1), steps) == Shared(0, 0, average, [Idle])
      && IsRun(steps, average, true) && !ExactAfter(Some(limit), 0, 1, steps)
  {
    var s0, first := Start(0, 1), [Step(0, AcquireReserve(average))];
    assert s0.phases == [Idle];
    GiveUpStates(limit, average);
    RunPush(Some(limit), s0, [], first[0]);
    RunPush(Some(limit), s0, first, Step(0, AcquireGiveUp));
    SumOfNothing([Idle]);
  }

  lemma GiveUpStates(limit: nat, a: nat)
    requires 0 < a < USIZE && a <= limit
    ensures Next(Some(limit), Shared(0, 0, 0, [Idle]), Step(0, AcquireReserve(a))) == Shared(0, 0, a, [Acquiring(a)])
    ensures Next(Some(limit), Shared(0, 0, a, [Acquiring(a)]), Step(0, AcquireGiveUp)) == Shared(0, 0, a, [Idle])
  {
    InRange(a);
  }

  // ----- the limit

  /** 1 for a `try_acquire` that has passed the memory check and has not counted its memory yet. */
  function Passed(p: Phase): nat {
    if p.Checked? || p.TryTaken? then 1 else 0
  }

  /** What a task has counted, or will count if it gets a permit. */
  function Claim(average: nat): Phase -> nat {
    (p: Phase) => if p.Checked? || p.TryTaken? then average else Reserved(p)
  }

  lemma {:induction false} ClaimsSplit(phases: seq<Phase>, average: nat)
    ensures Sum(phases, Claim(average)) == Sum(phases, Reserved) + average * Sum(phases, Passed)
  {
    if phases != [] {
      var n := |phases| - 1;
      ClaimsSplit(phases[..n], average);
      var p := Sum(phases[..n], Passed);
      assert average * (p + 1) == average * p + average;
    }
  }

  lemma {:induction false} PassedAtMost(phases: seq<Phase>)
    ensures Sum(phases, Passed) <= |phases|
  {
    if phases != [] {
      PassedAtMost(phases[..|phases| - 1]);
    }
  }

  lemma OneHasNotPassed(phases: seq<Phase>, i: nat)
    requires i < |phases| && phases[i] == Idle
    ensures Sum(phases, Passed) <= |phases| - 1
  {
    SumUpdate(phases, i, Checked, Passed);
    PassedAtMost(phases[i := Checked]);
  }

  lemma Scale(average: nat, p: nat, n: nat)
    requires p <= n
    ensures average * p <= average * n
  {
  }

  ghost predicate ClaimsWithin(s: Shared, limit: nat, average: nat) {
    && s.memory == Sum(s.phases, Reserved)
    && Sum(s.phases, Claim(average)) <= limit + average * (|s.phases| - 1)
  }

  lemma StepKeepsClaims(limit: nat, s: Shared, step: Step, average: nat)
    requires Loads(step, average) && !IsAcquire(step) && average <= limit && AllTryPhases(s.phases)
    requires s.phases != [] && ClaimsWithin(s, limit, average)
    ensures var s' := Next(Some(limit), s, step);
      |s'.phases| == |s.phases| && Sum(s'.phases, Claim(average)) <= limit + average * (|s.phases| - 1)
  {
    if step.task < |s.phases| {
      var s', p := Next(Some(limit), s, step), s.phases[step.task];
      ReservedAfter(Some(limit), s, step);
      var p' := s'.phases[step.task];
      SumUpdate(s.phases, step.task, p', Claim(average));
      assert IsTryPhase(p);
      if p == Idle && p' == Checked {
        OneHasNotPassed(s.phases, step.task);
        ClaimsSplit(s.phases, average);
        Scale(average, Sum(s.phases, Passed), |s.phases| - 1);
      } else {
        assert Claim(average)(p') <= Claim(average)(p);
      }
    }
  }

  /** The check of `try_acquire` and the counting that follows are apart, so others may pass the check in between: in
      every interleaving of `try_acquire` with a fixed estimate, memory exceeds its limit by at most one estimate for
      each other task. */
  lemma {:induction false} OvershootIsBounded(permits: nat, limit: nat, tasks: nat, steps: seq<Step>, average: nat)
    requires tasks > 0 && average <= limit && limit + average * (tasks - 1) < USIZE && IsRun(steps, average, false)
    ensures var s := Run(Some(limit), Start(permits, tasks), steps);
      s.memory <= limit + average * (tasks - 1) && |s.phases| == tasks && ClaimsWithin(s, limit, average)
    decreases |steps|
  {
    if steps == [] {
      SumStart(tasks, Reserved);
      SumStart(tasks, Claim(average));
      Scale(average, 0, tasks - 1);
    } else {
      var before := steps[..|steps| - 1];
      OvershootIsBounded(permits, limit, tasks, before, average);
      OnlyTryPhases(permits, Some(limit), tasks, before);
      StepKeepsClaims(limit, Run(Some(limit), Start(permits, tasks), before), steps[|steps| - 1], average);
      var s := Run(Some(limit), Start(permits, tasks), steps);
      ClaimsSplit(s.phases, average);
      Scale(average, 0, Sum(s.phases, Passed));
      MemoryCountsReservations(permits, Some(limit), tasks, steps);
    }
  }

  /** The bound is met: with two tasks and a limit of one estimate, both pass the check before either counts. */
  lemma OvershootHappens(average: nat)
    requires 0 < average && 2 * average < USIZE
    ensures var steps := [Step(0, Check(average))] + [Step(1, Check(average))] + [Step(0, TryTake)] + [Step(1, TryTake)]
                         + [Step(0, TryReserve(average))] + [Step(1, TryReserve(average))];
      && IsRun(steps, average, false)
      && Run(Some(average), Start(2, 2), steps).memory == 2 * average
  {
    var limit, s0 := Some(average), Start(2, 2);
    assert s0.phases == [Idle, Idle];
    var r1 := [Step(0, Check(average))];
    var r2 := r1 + [Step(1, Check(average))];
    var r3 := r2 + [Step(0, TryTake)];
    var r4 := r3 + [Step(1, TryTake)];
    var r5 := r4 + [Step(0, TryReserve(average))];
    RunPush(limit, s0, [], Step(0, Check(average)));
    RunPush(limit, s0, r1, Step(1, Check(average)));
    RunPush(limit, s0, r2, Step(0, TryTake));
    RunPush(limit, s0, r3, Step(1, TryTake));
    RunPush(limit, s0, r4, Step(0, TryReserve(average)));
    RunPush(limit, s0, r5, Step(1, TryReserve(average)));
    BothPass(average);
    BothReserve(average);
  }

  lemma BothPass(a: nat)
    ensures Next(Some(a), Shared(2, 0, 0, [Idle, Idle]), Step(0, Check(a))) == Shared(2, 0, 0, [Checked, Idle])
    ensures Next(Some(a), Shared(2, 0, 0, [Checked, Idle]), Step(1, Check(a))) == Shared(2, 0, 0, [Checked, Checked])
    ensures Next(Some(a), Shared(2, 0, 0, [Checked, Checked]), Step(0, TryTake)) == Shared(1, 0, 0, [TryTaken, Checked])
    ensures Next(Some(a), Shared(1, 0, 0, [TryTaken, Checked]), Step(1, TryTake))
            == Shared(0, 0, 0, [TryTaken, TryTaken])
  {
  }

  lemma BothReserve(a: nat)
    requires 2 * a < USIZE
    ensures Next(Some(a), Shared(0, 0, 0, [TryTaken, TryTaken]), Step(0, TryReserve(a)))
            == Shared(0, 0, a, [TryReserved(a), TryTaken])
    ensures Next(Some(a), Shared(0, 0, a, [TryReserved(a), TryTaken]), Step(1, TryReserve(a)))
            == Shared(0, 0, 2 * a, [TryReserved(a), TryReserved(a)])
  {
    InRange(a);
    InRange(2 * a);
  }

  /** `acquire` passes its memory check exactly when there is room, whether or not its exchange then succeeds, and an
      exchange that succeeds keeps the counter within the limit. */
  lemma AcquireNeedsRoom(limit: Option<nat>, s: Shared, task: nat, average: nat)
    requires task < |s.phases| && s.phases[task] == Idle
    ensures var reserved, skipped := Next(limit, s, Step(task, AcquireReserve(average))),
                                     Next(limit, s, Step(task, AcquireSkip(average)));
      var room := limit.Some? && s.memory + average <= limit.value;
      && (reserved.phases[task].Acquiring? <==> room) && (skipped.phases[task].Acquiring? <==> room)
      && (room && limit.value < USIZE ==> reserved.memory == s.memory + average <= limit.value)
      && skipped.memory == s.memory && (!room ==> reserved == s && skipped == s)
  {
    InRange(s.memory + average);
  }
}
