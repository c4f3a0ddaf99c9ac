/** The batching loop of a worker (`src/consumer/consumer.rs`, `run_batch_processor`). */
module Batching {

  /** What the loop's select wakes up with. */
  datatype Event<T> = Receive(task: T) | Tick | Close

  /** The batches handed over so far, the one being filled, and whether the channel has closed. */
  datatype Batches<T> = Batches(handed: seq<seq<T>>, pending: seq<T>, closed: bool)

  function HandOver<T>(b: Batches<T>): Batches<T> {
    if b.pending == [] then b else b.(handed := b.handed + [b.pending], pending := [])
  }

  function Wake<T>(b: Batches<T>, event: Event<T>, batchSize: nat): Batches<T> {
    if b.closed then b
    else match event
      case Receive(task) =>
        var filled := b.(pending := b.pending + [task]);
        if |filled.pending| >= batchSize then HandOver(filled) else filled
      case Tick => HandOver(b)
      case Close => HandOver(b).(closed := true)
  }

  function Run<T>(events: seq<Event<T>>, batchSize: nat): Batches<T>
    decreases |events|
  {
    if events == [] then Batches([], [], false)
    else Wake(Run(events[..|events| - 1], batchSize), events[|events| - 1], batchSize)
  }

  /** The loop; after the channel closes it is left. */
  method RunBatchProcessor<T>(events: seq<Event<T>>, batchSize: nat) returns (handed: seq<seq<T>>, pending: seq<T>)
    ensures var b := Run(events, batchSize); handed == b.handed && pending == b.pending
  {
    handed, pending := [], [];
    var i := 0;
    while i < |events|
      invariant 0 <= i <= |events|
      invariant Run(events[..i], batchSize) == Batches(handed, pending, false)
    {
      ghost var before := events[..i];
      assert events[..i + 1][..i] == before;
      match events[i] {
        case Receive(task) =>
          pending := pending + [task];
          if |pending| >= batchSize {
            handed := handed + [pending];
            pending := [];
          }
        case Tick =>
          if pending != [] {
            handed := handed + [pending];
            pending := [];
          }
        case Close =>
          if pending != [] {
            handed := handed + [pending];
            pending := [];
          }
          ClosedStays(events, i + 1, batchSize);
          return;
      }
      i := i + 1;
    }
    assert events[..|events|] == events;
  }

  lemma {:induction false} ClosedStays<T>(events: seq<Event<T>>, i: nat, batchSize: nat)
    requires i <= |events| && Run(events[..i], batchSize).closed
    ensures Run(events, batchSize) == Run(events[..i], batchSize)
    decreases |events| - i
  {
    if i == |events| {
      assert events[..i] == events;
    } else {
      assert events[..i + 1][..i] == events[..i];
      ClosedStays(events, i + 1, batchSize);
    }
  }

  function Flatten<T>(batches: seq<seq<T>>): seq<T> {
    if batches == [] then [] else Flatten(batches[..|batches| - 1]) + batches[|batches| - 1]
  }

  /** The tasks received before the channel closed. */
  function Received<T>(events: seq<Event<T>>): seq<T> {
    if events == [] || events[0].Close? then []
    else if events[0].Tick? then Received(events[1..])
    else [events[0].task] + Received(events[1..])
  }

  predicate HasClosed<T>(events: seq<Event<T>>) {
    exists i :: 0 <= i < |events| && events[i].Close?
  }

  lemma {:induction false} ReceivedPush<T>(events: seq<Event<T>>, event: Event<T>)
    ensures Received(events + [event])
            == Received(events) + if !HasClosed(events) && event.Receive? then [event.task] else []
    ensures HasClosed(events + [event]) <==> HasClosed(events) || event.Close?
  {
    var all := events + [event];
    assert all[|events|] == event && forall i :: 0 <= i < |events| ==> all[i] == events[i];
    if events == [] {
      assert all[1..] == [];
    } else {
      assert all[1..] == events[1..] + [event];
      ReceivedPush(events[1..], event);
      assert HasClosed(events) <==> events[0].Close? || HasClosed(events[1..]) by {
        assert forall i :: 0 <= i < |events| - 1 ==> events[1..][i] == events[i + 1];
        assert forall i :: 1 <= i < |events| ==> events[i] == events[1..][i - 1];
      }
    }
  }

  lemma FlattenPush<T>(batches: seq<seq<T>>, batch: seq<T>)
    ensures Flatten(batches + [batch]) == Flatten(batches) + batch
  {
    assert (batches + [batch])[..|batches|] == batches;
  }

  function Most(batchSize: nat): nat {
    if batchSize == 0 then 1 else batchSize
  }

  /** What has been handed over and is pending is `received`, in batches of a permitted size. */
  ghost predicate Holds<T>(b: Batches<T>, received: seq<T>, batchSize: nat) {
    && Flatten(b.handed) + b.pending == received
    && (forall i :: 0 <= i < |b.handed| ==> 1 <= |b.handed[i]| <= Most(batchSize))
    && |b.pending| < Most(batchSize)
    && (b.closed ==> b.pending == [])
  }

  lemma HandOverHolds<T>(b: Batches<T>, batchSize: nat)
    requires forall i :: 0 <= i < |b.handed| ==> 1 <= |b.handed[i]| <= Most(batchSize)
    requires |b.pending| <= Most(batchSize) && !b.closed
    ensures Holds(HandOver(b), Flatten(b.handed) + b.pending, batchSize) && HandOver(b).pending == []
  {
    if b.pending != [] {
      FlattenPush(b.handed, b.pending);
      var all := b.handed + [b.pending];
      assert Flatten(all) + [] == Flatten(all);
      assert forall i :: 0 <= i < |all| ==> all[i] == if i < |b.handed| then b.handed[i] else b.pending;
    }
  }

  lemma WakeHolds<T>(b: Batches<T>, received: seq<T>, event: Event<T>, batchSize: nat)
    requires Holds(b, received, batchSize) && !b.closed
    ensures Holds(Wake(b, event, batchSize), received + if event.Receive? then [event.task] else [], batchSize)
    ensures Wake(b, event, batchSize).closed <==> event.Close?
  {
    match event
    case Receive(task) =>
      var filled := b.(pending := b.pending + [task]);
      assert Flatten(b.handed) + (b.pending + [task]) == received + [task];
      HandOverHolds(filled, batchSize);
    case Tick =>
      HandOverHolds(b, batchSize);
      assert received + [] == received;
    case Close =>
      HandOverHolds(b, batchSize);
      assert received + [] == received;
  }

  /** Over every run: the batches handed over, followed by the pending one, are the tasks received, in order and each
      once; every batch has between one and `batchSize` tasks (one, for a batch size of zero); the pending batch is
      smaller than a full one, and empty once the channel has closed. */
  lemma {:induction false} BatchesAreTheTasks<T>(events: seq<Event<T>>, batchSize: nat)
    ensures var b := Run(events, batchSize);
      && Flatten(b.handed) + b.pending == Received(events)
      && (forall i :: 0 <= i < |b.handed| ==> 1 <= |b.handed[i]| <= Most(batchSize))
      && |b.pending| < Most(batchSize)
      && (b.closed <==> HasClosed(events))
      && (b.closed ==> b.pending == [])
    decreases |events|
  {
    if events != [] {
      var n := |events| - 1;
      var b := Run(events[..n], batchSize);
      BatchesAreTheTasks(events[..n], batchSize);
      assert events == events[..n] + [events[n]];
      ReceivedPush(events[..n], events[n]);
      if b.closed {
        assert Received(events[..n]) + [] == Received(events[..n]);
      } else {
        WakeHolds(b, Received(events[..n]), events[n], batchSize);
      }
    }
  }

  // ----- when a batch is handed over

  /** A stretch of events from which only tasks were received. */
  predicate OnlyReceives<T>(events: seq<Event<T>>, from: int, to: int) {
    0 <= from <= to <= |events| && forall i :: from <= i < to ==> events[i].Receive?
  }

  /** The batch is what was received from `from` to before `to`, and there it was full or a tick or the end of the
      channel came. */
  ghost predicate CutOut<T>(events: seq<Event<T>>, batch: seq<T>, from: int, to: int, batchSize: nat) {
    && OnlyReceives(events, from, to) && batch == Received(events[from..to])
    && (|batch| == Most(batchSize) || (to < |events| && !events[to].Receive?))
  }

  /** The `i`-th batch begins where the ones before it end. */
  ghost predicate InPlace<T>(events: seq<Event<T>>, handed: seq<seq<T>>, i: nat, from: int, to: int, batchSize: nat)
    requires i < |handed|
  {
    CutOut(events, handed[i], from, to, batchSize) && Received(events[..from]) == Flatten(handed[..i])
  }

  ghost predicate HasPlace<T>(events: seq<Event<T>>, handed: seq<seq<T>>, i: nat, batchSize: nat)
    requires i < |handed|
  {
    exists from, to :: InPlace(events, handed, i, from, to, batchSize)
  }

  ghost predicate AllInPlace<T>(events: seq<Event<T>>, handed: seq<seq<T>>, batchSize: nat) {
    forall i: nat :: i < |handed| ==> HasPlace(events, handed, i, batchSize)
  }

  /** What is pending has been received since `from` without a tick or the end of the channel. */
  ghost predicate PendingSince<T>(events: seq<Event<T>>, b: Batches<T>, from: int) {
    OnlyReceives(events, from, |events|) && b.pending == Received(events[from..])
    && Received(events[..from]) == Flatten(b.handed)
  }

  lemma {:induction false} OnlyReceived<T>(events: seq<Event<T>>)
    requires OnlyReceives(events, 0, |events|)
    ensures |Received(events)| == |events| && !HasClosed(events)
  {
    if events != [] {
      OnlyReceived(events[1..]);
    }
  }

  lemma InPlaceStays<T>(events: seq<Event<T>>, event: Event<T>, handed: seq<seq<T>>, batchSize: nat)
    requires AllInPlace(events, handed, batchSize)
    ensures AllInPlace(events + [event], handed, batchSize)
  {
    forall i: nat | i < |handed| ensures HasPlace(events + [event], handed, i, batchSize) {
      assert HasPlace(events, handed, i, batchSize);
      var from, to :| InPlace(events, handed, i, from, to, batchSize);
      assert (events + [event])[from..to] == events[from..to] && (events + [event])[..from] == events[..from];
      assert InPlace(events + [event], handed, i, from, to, batchSize);
    }
  }

  lemma InPlacePush<T>(events: seq<Event<T>>, handed: seq<seq<T>>, batch: seq<T>, from: int, to: int, batchSize: nat)
    requires AllInPlace(events, handed, batchSize)
    requires CutOut(events, batch, from, to, batchSize) && Received(events[..from]) == Flatten(handed)
    ensures AllInPlace(events, handed + [batch], batchSize)
  {
    var all := handed + [batch];
    forall i: nat | i < |all| ensures HasPlace(events, all, i, batchSize) {
      if i < |handed| {
        assert HasPlace(events, handed, i, batchSize);
        var f, t :| InPlace(events, handed, i, f, t, batchSize);
        assert all[..i] == handed[..i];
        assert InPlace(events, all, i, f, t, batchSize);
      } else {
        assert all[..i] == handed;
        assert InPlace(events, all, i, from, to, batchSize);
      }
    }
  }

  ghost predicate SomePendingSince<T>(events: seq<Event<T>>, b: Batches<T>) {
    exists from :: PendingSince(events, b, from)
  }

  /** Nothing pending after these events, all received accounted for: the next stretch begins at the end. */
  lemma StartsAfresh<T>(events: seq<Event<T>>, b: Batches<T>)
    requires b.pending == [] && Received(events) == Flatten(b.handed)
    ensures SomePendingSince(events, b)
  {
    assert events[|events|..] == [] && events[..|events|] == events;
    assert PendingSince(events, b, |events|);
  }

  lemma ReceivedSince<T>(events: seq<Event<T>>, event: Event<T>, from: nat)
    requires from <= |events| && OnlyReceives(events, from, |events|) && event.Receive?
    ensures Received((events + [event])[from..]) == Received(events[from..]) + [event.task]
    ensures OnlyReceives(events + [event], from, |events| + 1)
  {
    assert (events + [event])[from..] == events[from..] + [event];
    OnlyReceived(events[from..]);
    ReceivedPush(events[from..], event);
  }

  lemma ReceiveInPlace<T>(events: seq<Event<T>>, b: Batches<T>, event: Event<T>, batchSize: nat, from: int)
    requires event.Receive? && !b.closed && AllInPlace(events, b.handed, batchSize)
    requires PendingSince(events, b, from) && |b.pending| < Most(batchSize)
    requires var b' := Wake(b, event, batchSize); Flatten(b'.handed) + b'.pending == Received(events + [event])
    ensures var b' := Wake(b, event, batchSize);
      AllInPlace(events + [event], b'.handed, batchSize) && SomePendingSince(events + [event], b')
  {
    var all, b' := events + [event], Wake(b, event, batchSize);
    ReceivedSince(events, event, from);
    InPlaceStays(events, event, b.handed, batchSize);
    assert all[..from] == events[..from];
    if b'.pending == [] {
      var batch := b.pending + [event.task];
      assert all[from..|all|] == all[from..];
      assert CutOut(all, batch, from, |all|, batchSize);
      InPlacePush(all, b.handed, batch, from, |all|, batchSize);
      assert Flatten(b'.handed) + [] == Flatten(b'.handed);
      StartsAfresh(all, b');
    } else {
      assert PendingSince(all, b', from);
    }
  }

  lemma CutInPlace<T>(events: seq<Event<T>>, b: Batches<T>, event: Event<T>, batchSize: nat, from: int)
    requires !event.Receive? && !b.closed && AllInPlace(events, b.handed, batchSize) && PendingSince(events, b, from)
    requires var b' := Wake(b, event, batchSize); Flatten(b'.handed) + b'.pending == Received(events + [event])
    ensures var b' := Wake(b, event, batchSize);
      && b'.pending == [] && AllInPlace(events + [event], b'.handed, batchSize)
      && SomePendingSince(events + [event], b')
  {
    var all, b' := events + [event], Wake(b, event, batchSize);
    InPlaceStays(events, event, b.handed, batchSize);
    if b.pending != [] {
      assert all[from..|events|] == events[from..] && all[..from] == events[..from];
      assert CutOut(all, b.pending, from, |events|, batchSize);
      InPlacePush(all, b.handed, b.pending, from, |events|, batchSize);
    }
    assert Flatten(b'.handed) + [] == Flatten(b'.handed);
    StartsAfresh(all, b');
  }

  /** Over every run: a batch is handed over exactly when it is full or a tick or the end of the channel comes. After
      either nothing is pending; and every batch is what was received, without either, from where the batch before it
      ended to where it was full or one of them came. */
  lemma {:induction false} HandedOverWhenDue<T>(events: seq<Event<T>>, batchSize: nat)
    ensures var b := Run(events, batchSize);
      && (events != [] && !events[|events| - 1].Receive? ==> b.pending == [])
      && AllInPlace(events, b.handed, batchSize)
      && (!b.closed ==> SomePendingSince(events, b))
    decreases |events|
  {
    BatchesAreTheTasks(events, batchSize);
    if events == [] {
      StartsAfresh(events, Run(events, batchSize));
    } else {
      var n := |events| - 1;
      var before, event, b := events[..n], events[n], Run(events[..n], batchSize);
      assert events == before + [event];
      HandedOverWhenDue(before, batchSize);
      BatchesAreTheTasks(before, batchSize);
      if b.closed {
        InPlaceStays(before, event, b.handed, batchSize);
      } else {
        var from :| PendingSince(before, b, from);
        if event.Receive? {
          ReceiveInPlace(before, b, event, batchSize, from);
        } else {
          CutInPlace(before, b, event, batchSize, from);
        }
      }
    }
  }
}
