/** The distributor task (`src/consumer/consumer.rs`): round robin over workers with circuit breakers. */
module Distributor {
  import opened Wrappers

  const MAX_FAILURES := 5
  const CIRCUIT_RESET := 30_000_000_000  // nanoseconds

  datatype WorkerState = WorkerState(failures: nat, lastFailure: Option<int>, circuitOpen: bool)

  const HEALTHY := WorkerState(0, None, false)

  /** What one pass meets: when each attempt looks at the clock, when a failed send does (both in nanoseconds), and
      which workers accept. */
  datatype Round = Round(checkedAt: nat -> int, failedAt: nat -> int, accepts: nat -> bool)

  /** An open circuit closes again once its last failure is long enough ago. */
  function ResetIfDue(ws: WorkerState, now: int): WorkerState {
    if ws.circuitOpen && ws.lastFailure.Some? && now - ws.lastFailure.value > CIRCUIT_RESET then
      ws.(circuitOpen := false, failures := 0)
    else ws
  }

  function Fail(ws: WorkerState, now: int): WorkerState {
    var failed := ws.(failures := ws.failures + 1, lastFailure := Some(now));
    if failed.failures >= MAX_FAILURES then failed.(circuitOpen := true) else failed
  }

  /** One attempt: the worker's new state, and whether it took what was sent. */
  function Attempt(ws: WorkerState, checkedAt: int, failedAt: int, accepts: bool): (WorkerState, bool) {
    var due := ResetIfDue(ws, checkedAt);
    if due.circuitOpen then (due, false)
    else if accepts then (due.(failures := 0), true)
    else (Fail(due, failedAt), false)
  }

  /** The attempts of one pass from the `k`-th on. */
  function Pass(states: seq<WorkerState>, current: nat, round: Round, k: nat): (seq<WorkerState>, Option<nat>)
    requires |states| > 0 && k <= |states|
    decreases |states| - k
  {
    if k == |states| then (states, None)
    else
      var w := (current + k) % |states|;
      var (ws, taken) := Attempt(states[w], round.checkedAt(k), round.failedAt(k), round.accepts(w));
      if taken then (states[w := ws], Some(w)) else Pass(states[w := ws], current, round, k + 1)
  }

  /** One pass over the workers, as the loop does it. */
  method TryWorkers(states: seq<WorkerState>, current: nat, round: Round)
    returns (states': seq<WorkerState>, taker: Option<nat>)
    requires |states| > 0
    ensures (states', taker) == Pass(states, current, round, 0)
  {
    states' := states;
    var attempts := 0;
    for k := 0 to |states|
      invariant attempts == k && |states'| == |states|
      invariant Pass(states', current, round, k) == Pass(states, current, round, 0)
    {
      var w := (current + attempts) % |states|;
      var ws := states'[w];
      if ws.circuitOpen {
        match ws.lastFailure {
          case Some(at) =>
            if round.checkedAt(k) - at > CIRCUIT_RESET {
              ws := ws.(circuitOpen := false, failures := 0);
            }
          case None =>
        }
      }
      if ws.circuitOpen {
        states' := states'[w := ws];
        attempts := attempts + 1;
        continue;
      }
      if round.accepts(w) {
        ws := ws.(failures := 0);
        return states'[w := ws], Some(w);
      }
      ws := ws.(failures := ws.failures + 1, lastFailure := Some(round.failedAt(k)));
      if ws.failures >= MAX_FAILURES {
        ws := ws.(circuitOpen := true);
      }
      states' := states'[w := ws];
      attempts := attempts + 1;
    }
    taker := None;
  }

  // ----- one pass

  /** A circuit is open exactly when its failure count has reached the limit, and then a failure time is known. */
  predicate Sound(ws: WorkerState) {
    && (ws.circuitOpen <==> ws.failures >= MAX_FAILURES)
    && (ws.circuitOpen ==> ws.lastFailure.Some?)
  }

  predicate AllSound(states: seq<WorkerState>) {
    forall i :: 0 <= i < |states| ==> Sound(states[i])
  }

  /** The worker met at the `k`-th attempt of a pass. */
  function WorkerAt(current: nat, n: nat, k: nat): nat
    requires n > 0
  {
    (current + k) % n
  }

  /** The `k`-th attempt of a pass fails: the circuit is open and its last failure no more than thirty seconds ago, or
      the worker refuses. */
  predicate FailsAt(states: seq<WorkerState>, current: nat, round: Round, k: nat)
    requires |states| > 0
  {
    var w := WorkerAt(current, |states|, k);
    || (states[w].circuitOpen
        && (states[w].lastFailure == None || round.checkedAt(k) - states[w].lastFailure.value <= 30_000_000_000))
    || !round.accepts(w)
  }

  /** No multiple of `n` lies strictly between 0 and `n`. */
  lemma Multiples(n: nat, q: int)
    ensures q >= 1 ==> n * q >= n
    ensures q == 0 ==> n * q == 0
    ensures q <= -1 ==> n * q + n <= 0
  {
  }

  lemma DistinctWorkers(current: nat, n: nat, j: nat, k: nat)
    requires j < k < n
    ensures WorkerAt(current, n, j) != WorkerAt(current, n, k)
  {
    var a, b := (current + j) / n, (current + k) / n;
    assert current + j == n * a + WorkerAt(current, n, j);
    assert current + k == n * b + WorkerAt(current, n, k);
    assert n * b - n * a == n * (b - a);
    Multiples(n, b - a);
  }

  /** The worker met at the `i`-th attempt once that attempt is over. */
  function Attempted(states: seq<WorkerState>, current: nat, round: Round, i: nat): WorkerState
    requires |states| > 0
  {
    var w := WorkerAt(current, |states|, i);
    Attempt(states[w], round.checkedAt(i), round.failedAt(i), round.accepts(w)).0
  }

  /** The attempts from the `k`-th to before the `j`-th fail and the `j`-th succeeds, or there is none; the workers met
      up to it have changed by their attempt alone, the others not at all. */
  ghost predicate Outcome(states: seq<WorkerState>, current: nat, round: Round, k: nat,
                          after: seq<WorkerState>, taker: Option<nat>, j: nat)
    requires |states| == |after| > 0
  {
    && k <= j <= |states|
    && (if j == |states| then taker == None
        else taker == Some(WorkerAt(current, |states|, j)) && !FailsAt(states, current, round, j))
    && (forall i :: k <= i < j ==> FailsAt(states, current, round, i))
    && (forall i :: k <= i < |states| ==>
          after[WorkerAt(current, |states|, i)]
          == if i <= j then Attempted(states, current, round, i) else states[WorkerAt(current, |states|, i)])
  }

  /** A pass hands over to the first worker that does not fail, if there is one, judged by the states at its start: no
      worker is tried twice. */
  lemma {:induction false} PassFindsFirst(states: seq<WorkerState>, now: seq<WorkerState>, current: nat, round: Round,
                                          k: nat)
    returns (j: nat)
    requires |states| == |now| > 0 && k <= |states|
    requires forall i :: k <= i < |states|
               ==> now[WorkerAt(current, |states|, i)] == states[WorkerAt(current, |states|, i)]
    ensures |Pass(now, current, round, k).0| == |states|
    ensures Outcome(states, current, round, k, Pass(now, current, round, k).0, Pass(now, current, round, k).1, j)
    decreases |states| - k
  {
    j := k;
    if k < |states| {
      var w := WorkerAt(current, |states|, k);
      var (ws, taken) := Attempt(now[w], round.checkedAt(k), round.failedAt(k), round.accepts(w));
      forall i | k + 1 <= i < |states|
        ensures now[w := ws][WorkerAt(current, |states|, i)] == states[WorkerAt(current, |states|, i)]
      {
        DistinctWorkers(current, |states|, k, i);
      }
      if !taken {
        j := PassFindsFirst(states, now[w := ws], current, round, k + 1);
        PassLeaves(now[w := ws], current, round, k + 1, k);
      }
    }
  }

  /** The rest of a pass does not touch a worker met before. */
  lemma {:induction false} PassLeaves(states: seq<WorkerState>, current: nat, round: Round, k: nat, i: nat)
    requires i < k <= |states|
    ensures |Pass(states, current, round, k).0| == |states|
    ensures Pass(states, current, round, k).0[WorkerAt(current, |states|, i)] == states[WorkerAt(current, |states|, i)]
    decreases |states| - k
  {
    if k < |states| {
      var w := WorkerAt(current, |states|, k);
      var (ws, taken) := Attempt(states[w], round.checkedAt(k), round.failedAt(k), round.accepts(w));
      DistinctWorkers(current, |states|, i, k);
      if !taken {
        PassLeaves(states[w := ws], current, round, k + 1, i);
      }
    }
  }

  lemma {:induction false} PassKeepsSound(states: seq<WorkerState>, current: nat, round: Round, k: nat)
    requires |states| > 0 && k <= |states| && AllSound(states)
    ensures AllSound(Pass(states, current, round, k).0)
    decreases |states| - k
  {
    if k < |states| {
      var w := WorkerAt(current, |states|, k);
      var (ws, taken) := Attempt(states[w], round.checkedAt(k), round.failedAt(k), round.accepts(w));
      assert Sound(states[w]) && Sound(ws);
      if !taken {
        PassKeepsSound(states[w := ws], current, round, k + 1);
      }
    }
  }

  // ----- one worker's circuit

  /** One attempt as a worker meets it. */
  datatype Try = Try(checkedAt: int, failedAt: int, accepts: bool)

  function WorkerAfter(tries: seq<Try>): WorkerState {
    if tries == [] then HEALTHY
    else
      var t := tries[|tries| - 1];
      Attempt(WorkerAfter(tries[..|tries| - 1]), t.checkedAt, t.failedAt, t.accepts).0
  }

  /** The next try finds the circuit due for a reset. */
  predicate Due(ws: WorkerState, now: int) {
    ws.circuitOpen && !ResetIfDue(ws, now).circuitOpen
  }

  /** The tries from the last one on that found the circuit due for a reset, or all. */
  function SinceReset(tries: seq<Try>): seq<Try>
    decreases |tries|
  {
    if tries == [] then []
    else
      var n := |tries| - 1;
      if Due(WorkerAfter(tries[..n]), tries[n].checkedAt) then [tries[n]] else SinceReset(tries[..n]) + [tries[n]]
  }

  /** How many refusals the tries end with. */
  function RefusalsInARow(tries: seq<Try>): (r: nat)
    ensures r <= |tries|
    ensures forall k :: |tries| - r <= k < |tries| ==> !tries[k].accepts
    ensures r < |tries| ==> tries[|tries| - r - 1].accepts
  {
    if tries == [] || tries[|tries| - 1].accepts then 0 else 1 + RefusalsInARow(tries[..|tries| - 1])
  }

  ghost predicate FiveRefused(tries: seq<Try>, i: nat) {
    i + MAX_FAILURES <= |tries| && forall k :: i <= k < i + MAX_FAILURES ==> !tries[k].accepts
  }

  /** Five refusals in a row, at any time. */
  ghost predicate HasRefusedFive(tries: seq<Try>) {
    exists i: nat :: FiveRefused(tries, i)
  }

  /** Over every history: a worker's circuit is open exactly when it has refused five times in a row since the last
      reset; while it is closed its failure count is the number of refusals since it last accepted or was reset. */
  lemma {:induction false} CircuitOpensAfterFiveInARow(tries: seq<Try>)
    ensures WorkerAfter(tries).circuitOpen <==> HasRefusedFive(SinceReset(tries))
    ensures !WorkerAfter(tries).circuitOpen ==> WorkerAfter(tries).failures == RefusalsInARow(SinceReset(tries))
    decreases |tries|
  {
    if tries != [] {
      var n := |tries| - 1;
      CircuitOpensAfterFiveInARow(tries[..n]);
      if Due(WorkerAfter(tries[..n]), tries[n].checkedAt) {
        FirstSinceReset(tries[n]);
      } else {
        NextSinceReset(WorkerAfter(tries[..n]), SinceReset(tries[..n]), tries[n]);
      }
    }
  }

  lemma FirstSinceReset(t: Try)
    ensures !HasRefusedFive([t]) && RefusalsInARow([t]) == if t.accepts then 0 else 1
  {
    assert [t][..0] == [];
  }

  lemma NextSinceReset(ws: WorkerState, tries: seq<Try>, t: Try)
    requires ws.circuitOpen <==> HasRefusedFive(tries)
    requires !ws.circuitOpen ==> ws.failures == RefusalsInARow(tries)
    requires !Due(ws, t.checkedAt)
    ensures var ws' := Attempt(ws, t.checkedAt, t.failedAt, t.accepts).0;
      && (ws'.circuitOpen <==> HasRefusedFive(tries + [t]))
      && (!ws'.circuitOpen ==> ws'.failures == RefusalsInARow(tries + [t]))
  {
    assert (tries + [t])[..|tries|] == tries;
    FiveRefusedPush(tries + [t], tries);
  }

  lemma FiveRefusedPush(tries: seq<Try>, before: seq<Try>)
    requires tries != [] && before == tries[..|tries| - 1]
    ensures HasRefusedFive(tries) <==> RefusalsInARow(tries) >= MAX_FAILURES || HasRefusedFive(before)
  {
    if i: nat :| FiveRefused(tries, i) {
      if i + MAX_FAILURES < |tries| {
        assert FiveRefused(before, i);
      } else {
        assert i == |tries| - MAX_FAILURES;
      }
    }
    if RefusalsInARow(tries) >= MAX_FAILURES {
      assert FiveRefused(tries, |tries| - MAX_FAILURES);
    }
    if i: nat :| FiveRefused(before, i) {
      assert forall k :: i <= k < i + MAX_FAILURES ==> tries[k] == before[k];
      assert FiveRefused(tries, i);
    }
  }

  /** In particular, when a reset falls due the worker is tried again, and counting starts anew. */
  lemma ResetStartsAnew(tries: seq<Try>, t: Try)
    requires Due(WorkerAfter(tries), t.checkedAt)
    ensures var ws := WorkerAfter(tries + [t]);
      !ws.circuitOpen && ws.failures == if t.accepts then 0 else 1
  {
    assert (tries + [t])[..|tries|] == tries;
    CircuitOpensAfterFiveInARow(tries + [t]);
  }

  // ----- the same told by what the worker was asked, without its state

  /** The worker has refused five times in a row, or ten times, or fifteen times: after every five it is left alone. */
  predicate Tripped(asked: seq<Try>) {
    RefusalsInARow(asked) > 0 && RefusalsInARow(asked) % 5 == 0
  }

  /** It is still left alone: no more than thirty seconds have passed since it last refused. */
  predicate LeftAlone(asked: seq<Try>, now: int) {
    Tripped(asked) && now - asked[|asked| - 1].failedAt <= 30_000_000_000
  }

  /** The tries at which the worker was asked. */
  function Asked(tries: seq<Try>): seq<Try> {
    if tries == [] then []
    else
      var n := |tries| - 1;
      if LeftAlone(Asked(tries[..n]), tries[n].checkedAt) then Asked(tries[..n]) else Asked(tries[..n]) + [tries[n]]
  }

  ghost predicate StateOf(ws: WorkerState, asked: seq<Try>) {
    && (ws.circuitOpen <==> Tripped(asked))
    && ws.failures == (if Tripped(asked) then 5 else RefusalsInARow(asked) % 5)
    && (Tripped(asked) ==> ws.lastFailure == Some(asked[|asked| - 1].failedAt))
  }

  lemma AskedOnce(ws: WorkerState, asked: seq<Try>, t: Try)
    requires StateOf(ws, asked)
    ensures var (ws', taken) := Attempt(ws, t.checkedAt, t.failedAt, t.accepts);
      if LeftAlone(asked, t.checkedAt) then ws' == ws && !taken else taken == t.accepts && StateOf(ws', asked + [t])
  {
    assert (asked + [t])[..|asked|] == asked;
    OneMoreRefusal(RefusalsInARow(asked));
  }

  lemma OneMoreRefusal(r: nat)
    ensures (r + 1) % 5 == if r % 5 == 4 then 0 else r % 5 + 1
  {
  }

  /** Over every history: a circuit is open exactly when the worker has just refused five times in a row, or a multiple
      of it, and the failure count is what is left over. */
  lemma {:induction false} CircuitsByHistory(tries: seq<Try>)
    ensures StateOf(WorkerAfter(tries), Asked(tries))
    decreases |tries|
  {
    if tries != [] {
      var n := |tries| - 1;
      CircuitsByHistory(tries[..n]);
      AskedOnce(WorkerAfter(tries[..n]), Asked(tries[..n]), tries[n]);
    }
  }

  /** An open circuit is tried again exactly when more than thirty seconds have passed since the worker last refused;
      what is then sent is taken if the worker accepts. */
  lemma AskedAgainAfterThirtySeconds(tries: seq<Try>, t: Try)
    requires WorkerAfter(tries).circuitOpen
    ensures Asked(tries) != []
    ensures var ago := t.checkedAt - Asked(tries)[|Asked(tries)| - 1].failedAt;
      var (ws, taken) := Attempt(WorkerAfter(tries), t.checkedAt, t.failedAt, t.accepts);
      if ago > 30_000_000_000 then !ws.circuitOpen && taken == t.accepts && ws.failures == (if t.accepts then 0 else 1)
      else ws == WorkerAfter(tries) && !taken
  {
    CircuitsByHistory(tries);
    AskedOnce(WorkerAfter(tries), Asked(tries), t);
  }

  // ----- a run

  /** The distributor between two tasks: whose turn it is, the workers' states, what each worker has been sent, the
      tasks that reached nobody, how many tasks were received, and whether the distributor has ended. */
  datatype State<T> = State(current: nat, workers: seq<WorkerState>, queues: seq<seq<T>>, undelivered: seq<T>,
                            received: nat, ended: bool)

  function Start<T>(workers: nat): State<T> {
    State(0, seq(workers, i => HEALTHY), seq(workers, i => []), [], 0, false)
  }

  function Distribute<T>(s: State<T>, task: T, round: Round): State<T>
    requires |s.workers| == |s.queues| > 0
  {
    if s.ended then s
    else
      var (workers, taker) := Pass(s.workers, s.current, round, 0);
      var s' := s.(workers := workers, received := s.received + 1, current := (s.current + 1) % |s.workers|);
      match taker
      case Some(w) =>
        if w < |s.queues| then s'.(queues := s.queues[w := s.queues[w] + [task]]) else s'
      case None =>
        var failed := s.(workers := workers, received := s.received + 1, undelivered := s.undelivered + [task]);
        if AllOpen(workers) then failed.(ended := true) else failed.(current := s'.current)
  }

  predicate AllOpen(states: seq<WorkerState>) {
    forall i :: 0 <= i < |states| ==> states[i].circuitOpen
  }

  function Run<T>(workers: nat, tasks: seq<(T, Round)>): (s: State<T>)
    requires workers > 0
    ensures |s.workers| == |s.queues| == workers
    decreases |tasks|
  {
    if tasks == [] then Start(workers)
    else
      var n := |tasks| - 1;
      var s := Run(workers, tasks[..n]);
      PassKeepsLength(s.workers, s.current, tasks[n].1, 0);
      Distribute(s, tasks[n].0, tasks[n].1)
  }

  lemma {:induction false} PassKeepsLength(states: seq<WorkerState>, current: nat, round: Round, k: nat)
    requires |states| > 0 && k <= |states|
    ensures |Pass(states, current, round, k).0| == |states|
    ensures Pass(states, current, round, k).1.Some? ==> Pass(states, current, round, k).1.value < |states|
    decreases |states| - k
  {
    if k < |states| {
      var w := (current + k) % |states|;
      var (ws, taken) := Attempt(states[w], round.checkedAt(k), round.failedAt(k), round.accepts(w));
      if !taken {
        PassKeepsLength(states[w := ws], current, round, k + 1);
      }
    }
  }

  /** The distributor's loop. */
  method RunDistributor<T>(workers: nat, tasks: seq<(T, Round)>) returns (s: State<T>)
    requires workers > 0
    ensures s == Run(workers, tasks)
  {
    var current: nat := 0;
    var states: seq<WorkerState> := seq(workers, i => HEALTHY);
    var queues: seq<seq<T>> := seq(workers, i => []);
    var undelivered: seq<T> := [];
    var received: nat := 0;
    var ended := false;
    for i := 0 to |tasks|
      invariant State(current, states, queues, undelivered, received, ended) == Run(workers, tasks[..i])
    {
      assert tasks[..i + 1][..i] == tasks[..i];
      if ended {
        continue;
      }
      var (task, round) := tasks[i];
      PassKeepsLength(states, current, round, 0);
      var taker;
      states, taker := TryWorkers(states, current, round);
      received := received + 1;
      match taker {
        case Some(w) => queues := queues[w := queues[w] + [task]];
        case None =>
          undelivered := undelivered + [task];
          if AllOpen(states) {
            ended := true;
            continue;
          }
      }
      current := (current + 1) % workers;
    }
    assert tasks[..|tasks|] == tasks;
    s := State(current, states, queues, undelivered, received, ended);
  }

  /** All tasks sent to workers, worker by worker. */
  function Sent<T>(queues: seq<seq<T>>): multiset<T> {
    if queues == [] then multiset{} else Sent(queues[..|queues| - 1]) + multiset(queues[|queues| - 1])
  }

  lemma {:induction false} SentUpdate<T>(queues: seq<seq<T>>, w: nat, task: T)
    requires w < |queues|
    ensures Sent(queues[w := queues[w] + [task]]) == Sent(queues) + multiset{task}
  {
    var n := |queues| - 1;
    var queues' := queues[w := queues[w] + [task]];
    if w == n {
      assert queues'[..n] == queues[..n];
    } else {
      assert queues'[..n] == queues[..n][w := queues[..n][w] + [task]];
      SentUpdate(queues[..n], w, task);
    }
  }

  lemma {:induction false} SentNothing<T>(n: nat)
    ensures Sent<T>(seq(n, i => [])) == multiset{}
  {
    if n > 0 {
      assert seq<seq<T>>(n, i => [])[..n - 1] == seq<seq<T>>(n - 1, i => []);
      SentNothing<T>(n - 1);
    }
  }

  function Tasks<T>(tasks: seq<(T, Round)>): seq<T> {
    seq(|tasks|, i requires 0 <= i < |tasks| => tasks[i].0)
  }

  /** Everything received so far: what the workers were sent and what reached nobody. */
  ghost function Accounted<T>(s: State<T>): multiset<T> {
    Sent(s.queues) + multiset(s.undelivered)
  }

  /** One task: circuits stay sound, and it is added to exactly one queue or to the undelivered ones. */
  lemma DistributeAccounts<T>(s: State<T>, task: T, round: Round)
    requires |s.workers| == |s.queues| > 0 && AllSound(s.workers) && !s.ended
    ensures var s' := Distribute(s, task, round);
      && AllSound(s'.workers)
      && (s'.ended ==> AllOpen(s'.workers))
      && s'.received == s.received + 1
      && Accounted(s') == Accounted(s) + multiset{task}
  {
    PassKeepsSound(s.workers, s.current, round, 0);
    PassKeepsLength(s.workers, s.current, round, 0);
    var taker := Pass(s.workers, s.current, round, 0).1;
    if taker.Some? {
      SentUpdate(s.queues, taker.value, task);
    }
  }

  lemma DistributeNext<T>(before: State<T>, tasks: seq<(T, Round)>, n: nat)
    requires |tasks| == n + 1 && |before.workers| == |before.queues| > 0
    requires AllSound(before.workers) && !before.ended && before.received == n
    requires Accounted(before) == multiset(Tasks(tasks[..n]))
    ensures var s := Distribute(before, tasks[n].0, tasks[n].1);
      && AllSound(s.workers) && (s.ended ==> AllOpen(s.workers)) && s.received == n + 1
      && Accounted(s) == multiset(Tasks(tasks))
  {
    assert Tasks(tasks) == Tasks(tasks[..n]) + [tasks[n].0];
    DistributeAccounts(before, tasks[n].0, tasks[n].1);
  }

  /** Over every run: circuits are open exactly at the failure limit, and every received task is either in one worker's
      queue, once, or undelivered. The distributor ends only with every circuit open. */
  lemma {:induction false} DistributionIsSafe<T>(workers: nat, tasks: seq<(T, Round)>)
    requires workers > 0
    ensures var s := Run(workers, tasks);
      && AllSound(s.workers)
      && (s.ended ==> AllOpen(s.workers))
      && s.received <= |tasks| && (!s.ended ==> s.received == |tasks|)
      && Accounted(s) == multiset(Tasks(tasks[..s.received]))
    decreases |tasks|
  {
    if tasks == [] {
      SentNothing<T>(workers);
      assert Tasks<T>(tasks[..0]) == [];
    } else {
      var n := |tasks| - 1;
      var before := Run(workers, tasks[..n]);
      DistributionIsSafe(workers, tasks[..n]);
      if before.ended {
        assert tasks[..n][..before.received] == tasks[..before.received];
      } else {
        assert tasks[..n][..n] == tasks[..n] && tasks[..n + 1] == tasks;
        DistributeNext(before, tasks, n);
      }
    }
  }

  predicate MetAndFails(states: seq<WorkerState>, current: nat, round: Round, w: nat, k: nat)
    requires |states| > 0
  {
    k < |states| && WorkerAt(current, |states|, k) == w && FailsAt(states, current, round, k)
  }

  /** When its turn in the pass comes, the worker's circuit is open and not due for a reset, or it refuses. */
  ghost predicate Fails(states: seq<WorkerState>, current: nat, round: Round, w: nat)
    requires |states| > 0
  {
    exists k: nat :: MetAndFails(states, current, round, w, k)
  }

  lemma UndeliveredStep<T>(s: State<T>, task: T, round: Round)
    requires |s.workers| == |s.queues| > 0 && !s.ended
    ensures Distribute(s, task, round).undelivered == s.undelivered + [task]
            <==> forall w: nat :: w < |s.workers| ==> Fails(s.workers, s.current, round, w)
  {
    var n := |s.workers|;
    var j := PassFindsFirst(s.workers, s.workers, s.current, round, 0);
    if j == n {
      forall w: nat | w < n ensures Fails(s.workers, s.current, round, w) {
        var k := EveryWorkerMet(s.current, n, w);
        assert MetAndFails(s.workers, s.current, round, w, k);
      }
    } else {
      TakerDoesNotFail(s.workers, s.current, round, j);
      assert WorkerAt(s.current, n, j) < n;
      assert |s.undelivered + [task]| != |s.undelivered|;
    }
  }

  lemma TakerDoesNotFail(states: seq<WorkerState>, current: nat, round: Round, j: nat)
    requires j < |states| && !FailsAt(states, current, round, j)
    ensures !Fails(states, current, round, WorkerAt(current, |states|, j))
  {
    forall k: nat | k < |states| && k != j ensures WorkerAt(current, |states|, k) != WorkerAt(current, |states|, j) {
      DistinctWorkers(current, |states|, if j < k then j else k, if j < k then k else j);
    }
  }

  /** A task goes undelivered if and only if the distributor still runs and every worker fails in its pass. */
  lemma UndeliveredExactlyWhenAllFail<T>(workers: nat, tasks: seq<(T, Round)>, task: T, round: Round)
    requires workers > 0
    ensures var s := Run(workers, tasks);
      Run(workers, tasks + [(task, round)]).undelivered == s.undelivered + [task]
      <==> !s.ended && forall w: nat :: w < workers ==> Fails(s.workers, s.current, round, w)
  {
    var s := Run(workers, tasks);
    assert (tasks + [(task, round)])[..|tasks|] == tasks;
    assert Run(workers, tasks + [(task, round)]) == Distribute(s, task, round);
    if s.ended {
      assert |s.undelivered + [task]| != |s.undelivered|;
    } else {
      UndeliveredStep(s, task, round);
    }
  }

  /** The same told by what each worker has been asked: a task goes undelivered if and only if the distributor still
      runs and every worker is left alone when its turn comes, or refuses. */
  lemma UndeliveredByHistory<T>(workers: nat, tasks: seq<(T, Round)>, task: T, round: Round)
    requires workers > 0
    ensures var s := Run(workers, tasks);
      Run(workers, tasks + [(task, round)]).undelivered == s.undelivered + [task]
      <==> !s.ended && forall w: nat :: w < workers ==> Unreachable(workers, tasks, s.current, round, w)
  {
    var s := Run(workers, tasks);
    UndeliveredExactlyWhenAllFail(workers, tasks, task, round);
    forall w: nat | w < workers
      ensures Fails(s.workers, s.current, round, w) <==> Unreachable(workers, tasks, s.current, round, w)
    {
      FailsByHistory(workers, tasks, s.current, round, w);
    }
  }

  predicate Unreachable<T>(workers: nat, tasks: seq<(T, Round)>, current: nat, round: Round, w: nat)
    requires w < workers
  {
    LeftAlone(Asked(TriesMet(workers, tasks, w)), round.checkedAt(TurnOf(current, workers, w))) || !round.accepts(w)
  }

  lemma FailsByHistory<T>(workers: nat, tasks: seq<(T, Round)>, current: nat, round: Round, w: nat)
    requires w < workers
    ensures Fails(Run(workers, tasks).workers, current, round, w) <==> Unreachable(workers, tasks, current, round, w)
  {
    var states, met := Run(workers, tasks).workers, TriesMet(workers, tasks, w);
    WorkersFollowTheirTries(workers, tasks, w);
    CircuitsByHistory(met);
    FailsAtItsTurn(states, current, round, w);
    var k := EveryWorkerMet(current, workers, w);
    TurnFails(states, current, round, w, k, Asked(met));
  }

  lemma TurnFails(states: seq<WorkerState>, current: nat, round: Round, w: nat, k: nat, asked: seq<Try>)
    requires w < |states| && WorkerAt(current, |states|, k) == w && StateOf(states[w], asked)
    ensures FailsAt(states, current, round, k) <==> LeftAlone(asked, round.checkedAt(k)) || !round.accepts(w)
  {
  }

  /** A worker is met once in a pass, at its turn. */
  lemma FailsAtItsTurn(states: seq<WorkerState>, current: nat, round: Round, w: nat)
    requires w < |states|
    ensures Fails(states, current, round, w) <==> FailsAt(states, current, round, TurnOf(current, |states|, w))
  {
    var k := EveryWorkerMet(current, |states|, w);
    if FailsAt(states, current, round, k) {
      assert MetAndFails(states, current, round, w, k);
    }
    if k': nat :| MetAndFails(states, current, round, w, k') && k' != k {
      DistinctWorkers(current, |states|, if k < k' then k else k', if k < k' then k' else k);
    }
  }

  /** Otherwise it goes to the first worker, in turn, that does not fail, and to no other; turns rotate either way. */
  lemma DeliveredToTheFirst<T>(workers: nat, tasks: seq<(T, Round)>, task: T, round: Round, k: nat)
    requires k < workers && !Run(workers, tasks).ended
    requires var s := Run(workers, tasks);
      !FailsAt(s.workers, s.current, round, k) && forall i :: 0 <= i < k ==> FailsAt(s.workers, s.current, round, i)
    ensures var s, s' := Run(workers, tasks), Run(workers, tasks + [(task, round)]);
      var w := (s.current + k) % workers;
      && s'.queues == s.queues[w := s.queues[w] + [task]] && s'.undelivered == s.undelivered && !s'.ended
      && s'.current == (s.current + 1) % workers
  {
    var s := Run(workers, tasks);
    assert (tasks + [(task, round)])[..|tasks|] == tasks;
    var j := PassFindsFirst(s.workers, s.workers, s.current, round, 0);
    assert j == k;
  }

  /** The distributor ends exactly when a task reaches nobody and leaves every circuit open. */
  lemma EndsExactly<T>(workers: nat, tasks: seq<(T, Round)>, task: T, round: Round)
    requires workers > 0
    ensures var s, s' := Run(workers, tasks), Run(workers, tasks + [(task, round)]);
      && (s'.ended <==> s.ended || (s'.undelivered == s.undelivered + [task]
                                    && forall w :: 0 <= w < workers ==> s'.workers[w].circuitOpen))
      && (!s'.ended ==> s'.current == (s.current + 1) % workers)
  {
    var s := Run(workers, tasks);
    assert (tasks + [(task, round)])[..|tasks|] == tasks;
    assert |s.undelivered + [task]| != |s.undelivered|;
    if !s.ended {
      PassKeepsLength(s.workers, s.current, round, 0);
    }
  }

  lemma EveryWorkerMet(current: nat, n: nat, w: nat) returns (k: nat)
    requires w < n
    ensures k == TurnOf(current, n, w) && k < n && WorkerAt(current, n, k) == w
  {
    var c := current % n;
    k := if w >= c then w - c else w + n - c;
    var q := current / n;
    assert current == n * q + c;
    if w >= c {
      RemainderOf(n, q, w);
    } else {
      assert n * q + n == n * (q + 1);
      RemainderOf(n, q + 1, w);
    }
  }

  lemma RemainderOf(n: nat, q: int, r: nat)
    requires r < n
    ensures (n * q + r) % n == r
  {
    var x := n * q + r;
    assert x == n * (x / n) + x % n;
    assert n * q - n * (x / n) == n * (q - x / n);
    Multiples(n, q - x / n);
  }

  // ----- a worker's history in a run

  /** When in a pass the worker's turn comes. */
  function TurnOf(current: nat, n: nat, w: nat): nat
    requires w < n
  {
    var c := current % n;
    if w >= c then w - c else w + n - c
  }

  /** The first attempt from the `k`-th on that does not fail, or the number of workers. */
  function FirstTaker(states: seq<WorkerState>, current: nat, round: Round, k: nat): nat
    requires |states| > 0 && k <= |states|
    decreases |states| - k
  {
    if k == |states| || !FailsAt(states, current, round, k) then k else FirstTaker(states, current, round, k + 1)
  }

  lemma {:induction false} FirstTakerIs(states: seq<WorkerState>, current: nat, round: Round, k: nat, j: nat)
    requires |states| > 0 && k <= j <= |states|
    requires forall i :: k <= i < j ==> FailsAt(states, current, round, i)
    requires j < |states| ==> !FailsAt(states, current, round, j)
    ensures FirstTaker(states, current, round, k) == j
    decreases j - k
  {
    if k < j {
      FirstTakerIs(states, current, round, k + 1, j);
    }
  }

  /** The attempts a worker has met in a run: one for each pass that came to its turn. */
  function TriesMet<T>(workers: nat, tasks: seq<(T, Round)>, w: nat): seq<Try>
    requires w < workers
    decreases |tasks|
  {
    if tasks == [] then []
    else
      var n := |tasks| - 1;
      var before, round := Run(workers, tasks[..n]), tasks[n].1;
      var met, k := TriesMet(workers, tasks[..n], w), TurnOf(before.current, workers, w);
      if before.ended || k > FirstTaker(before.workers, before.current, round, 0) then met
      else met + [Try(round.checkedAt(k), round.failedAt(k), round.accepts(w))]
  }

  /** After any run a worker is in the state its own attempts have put it in. */
  lemma {:induction false} WorkersFollowTheirTries<T>(workers: nat, tasks: seq<(T, Round)>, w: nat)
    requires w < workers
    ensures Run(workers, tasks).workers[w] == WorkerAfter(TriesMet(workers, tasks, w))
    decreases |tasks|
  {
    if tasks != [] {
      var n := |tasks| - 1;
      var before, round := Run(workers, tasks[..n]), tasks[n].1;
      WorkersFollowTheirTries(workers, tasks[..n], w);
      if !before.ended {
        PassTries(before.workers, before.current, round, w);
        DistributeWorkers(before, tasks[n].0, round);
        var k := TurnOf(before.current, workers, w);
        OneMoreTry(TriesMet(workers, tasks[..n], w), Try(round.checkedAt(k), round.failedAt(k), round.accepts(w)));
      }
    }
  }

  /** Over every run: a worker's circuit is open exactly when, of the attempts it has met since its last reset, five in
      a row were refused. */
  lemma CircuitsOverARun<T>(workers: nat, tasks: seq<(T, Round)>, w: nat)
    requires w < workers
    ensures Run(workers, tasks).workers[w].circuitOpen
            <==> HasRefusedFive(SinceReset(TriesMet(workers, tasks, w)))
  {
    WorkersFollowTheirTries(workers, tasks, w);
    CircuitOpensAfterFiveInARow(TriesMet(workers, tasks, w));
  }

  lemma DistributeWorkers<T>(s: State<T>, task: T, round: Round)
    requires |s.workers| == |s.queues| > 0 && !s.ended
    ensures Distribute(s, task, round).workers == Pass(s.workers, s.current, round, 0).0
  {
  }

  lemma OneMoreTry(met: seq<Try>, t: Try)
    ensures WorkerAfter(met + [t]) == Attempt(WorkerAfter(met), t.checkedAt, t.failedAt, t.accepts).0
  {
    assert (met + [t])[..|met|] == met;
  }

  lemma PassTries(states: seq<WorkerState>, current: nat, round: Round, w: nat)
    requires w < |states|
    ensures |Pass(states, current, round, 0).0| == |states|
    ensures var k := TurnOf(current, |states|, w);
      Pass(states, current, round, 0).0[w]
      == if k > FirstTaker(states, current, round, 0) then states[w]
         else Attempt(states[w], round.checkedAt(k), round.failedAt(k), round.accepts(w)).0
  {
    var j := PassFindsFirst(states, states, current, round, 0);
    FirstTakerIs(states, current, round, 0, j);
    var k := EveryWorkerMet(current, |states|, w);
  }

  // ----- healthy workers

  predicate AlwaysAccepted<T>(workers: nat, tasks: seq<(T, Round)>) {
    forall i, w :: 0 <= i < |tasks| && 0 <= w < workers ==> tasks[i].1.accepts(w)
  }

  /** With every worker accepting, no circuit opens, nothing is lost and turns rotate. */
  lemma {:induction false} HealthyRun<T>(workers: nat, tasks: seq<(T, Round)>)
    requires workers > 0 && AlwaysAccepted(workers, tasks)
    ensures var s := Run(workers, tasks);
      && s.current == |tasks| % workers && !s.ended && s.undelivered == []
      && forall w :: 0 <= w < workers ==> s.workers[w].failures == 0 && !s.workers[w].circuitOpen
    decreases |tasks|
  {
    if tasks != [] {
      var n := |tasks| - 1;
      HealthyRun(workers, tasks[..n]);
      var s := Run(workers, tasks[..n]);
      assert s.current < workers && tasks[n].1.accepts(s.current);
      assert (s.current + 0) % workers == s.current by { RemainderOf(workers, 0, s.current); }
      TurnAdvances(n, workers);
    }
  }

  lemma TurnAdvances(i: nat, n: nat)
    requires n > 0
    ensures (i % n + 1) % n == (i + 1) % n
  {
    var q, r := i / n, i % n;
    assert i + 1 == n * q + (r + 1);
    if r + 1 < n {
      RemainderOf(n, q, r + 1);
      RemainderOf(n, 0, r + 1);
    } else {
      assert n * q + n == n * (q + 1);
      RemainderOf(n, q + 1, 0);
      RemainderOf(n, 1, 0);
    }
  }

  /** Round robin: with every worker accepting, the i-th task goes to worker i modulo the number of workers. */
  lemma RoundRobin<T>(workers: nat, tasks: seq<(T, Round)>, i: nat)
    requires workers > 0 && AlwaysAccepted(workers, tasks) && i < |tasks|
    ensures var s, s' := Run(workers, tasks[..i]), Run(workers, tasks[..i + 1]);
      var w := i % workers;
      s'.queues == s.queues[w := s.queues[w] + [tasks[i].0]]
  {
    HealthyRun(workers, tasks[..i]);
    var s := Run(workers, tasks[..i]);
    assert tasks[..i + 1][..i] == tasks[..i];
    assert tasks[i].1.accepts(s.current);
    RemainderOf(workers, 0, s.current);
  }
}
