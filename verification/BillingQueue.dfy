// The billing client (billing/client.go): a bounded queue that callers fill, a background
// worker empties, and Close drains while the worker may still be running.
module BillingQueue {
  import opened Ordering

  datatype UsageEvent = UsageEvent(
    customerID: string, serviceKey: string, source: string, quantity: real,
    unit: string, providerCost: real, metadata: string)

  const CAPACITY: nat := 256

  // The defaults that Record fills in.
  function WithDefaults(e: UsageEvent, service: string): UsageEvent {
    var e1 := if e.serviceKey == "" then e.(serviceKey := service) else e;
    if e1.source == "" then e1.(source := service) else e1
  }

  // What Record puts on a queue of the given content: the event, or nothing when it is full.
  function Accepted(queue: seq<UsageEvent>, e: UsageEvent, service: string): seq<UsageEvent> {
    if |queue| < CAPACITY then [WithDefaults(e, service)] else []
  }

  // The client as one goroutine sees it while no other runs.
  class Client {
    const service: string
    var queue: seq<UsageEvent>
    var done: bool
    // the events handed to post, in order
    var posted: seq<UsageEvent>

    constructor (service: string)
      ensures this.service == service && queue == [] && !done && posted == []
    {
      this.service := service;
      queue, done, posted := [], false, [];
    }

    method Record(event: UsageEvent)
      modifies this`queue
      ensures queue == old(queue) + Accepted(old(queue), event, service)
      ensures |old(queue)| >= 256 ==> queue == old(queue)
      ensures |old(queue)| < 256 ==> queue == old(queue) + [
        UsageEvent(event.customerID,
                   if event.serviceKey == "" then service else event.serviceKey,
                   if event.source == "" then service else event.source,
                   event.quantity, event.unit, event.providerCost, event.metadata)]
    {
      var e := event;
      if e.serviceKey == "" {
        e := e.(serviceKey := service);
      }
      if e.source == "" {
        e := e.(source := service);
      }
      if |queue| < CAPACITY {
        queue := queue + [e];
      }
    }

    method Close()
      requires !done
      modifies this
      ensures done && queue == [] && posted == old(posted) + old(queue)
    {
      done := true;
      while |queue| > 0
        invariant done && posted + queue == old(posted) + old(queue)
        decreases |queue|
      {
        var event := queue[0];
        queue := queue[1..];
        Post(event);
      }
    }

    // One turn of the worker's loop; with both channels ready either case may be taken.
    method WorkerTurn(preferQueue: bool) returns (running: bool)
      modifies this
      ensures done == old(done)
      ensures if old(queue) != [] && (preferQueue || !old(done))
              then running && queue == old(queue)[1..] && posted == old(posted) + [old(queue)[0]]
              else running == !old(done) && queue == old(queue) && posted == old(posted)
    {
      if |queue| > 0 && (preferQueue || !done) {
        var event := queue[0];
        queue := queue[1..];
        Post(event);
        return true;
      }
      return !done;
    }

    method Post(event: UsageEvent)
      modifies this`posted
      ensures posted == old(posted) + [event]
    {
      posted := posted + [event];
    }
  }

  // --- Recorders, worker and closer interleaved ---

  // Taking an event off the queue and handing it to post are two steps, and post takes time.
  // Events go by their position in the order of acceptance.
  datatype Hand = Empty | Holding(i: nat) | Posting(i: nat)

  datatype Closer = NotClosed | Draining(hand: Hand) | Returned

  datatype Worker = Running(hand: Hand) | Exited

  datatype State = State(
    service: string,
    queue: seq<UsageEvent>,
    accepted: seq<UsageEvent>,   // every event that was put on the queue
    dequeued: seq<UsageEvent>,   // every event that was taken off it
    worker: Worker,
    closer: Closer,
    byWorker: seq<nat>,          // the positions handed to post by the worker, and by Close
    byCloser: seq<nat>,
    closedAt: nat)               // how many had been accepted when done was closed

  datatype Step =
    | RecordEvent(e: UsageEvent)
    | WorkerTake | WorkerPost | WorkerPosted | WorkerExit
    | CloseDone | CloserTake | CloserPost | CloserPosted | CloserReturn

  function Init(service: string): State {
    State(service, [], [], [], Running(Empty), NotClosed, [], [], 0)
  }

  ghost predicate Next(s: State, step: Step, s': State) {
    match step
    case RecordEvent(e) =>
      var put := Accepted(s.queue, e, s.service);
      s' == s.(queue := s.queue + put, accepted := s.accepted + put)
    case WorkerTake =>
      && s.worker == Running(Empty) && s.queue != []
      && s' == s.(queue := s.queue[1..], dequeued := s.dequeued + [s.queue[0]],
                  worker := Running(Holding(|s.dequeued|)))
    case WorkerPost =>
      && s.worker.Running? && s.worker.hand.Holding?
      && s' == s.(byWorker := s.byWorker + [s.worker.hand.i], worker := Running(Posting(s.worker.hand.i)))
    case WorkerPosted =>
      s.worker.Running? && s.worker.hand.Posting? && s' == s.(worker := Running(Empty))
    case WorkerExit =>
      s.worker == Running(Empty) && s.closer != NotClosed && s' == s.(worker := Exited)
    case CloseDone =>
      s.closer == NotClosed && s' == s.(closer := Draining(Empty), closedAt := |s.accepted|)
    case CloserTake =>
      && s.closer == Draining(Empty) && s.queue != []
      && s' == s.(queue := s.queue[1..], dequeued := s.dequeued + [s.queue[0]],
                  closer := Draining(Holding(|s.dequeued|)))
    case CloserPost =>
      && s.closer.Draining? && s.closer.hand.Holding?
      && s' == s.(byCloser := s.byCloser + [s.closer.hand.i], closer := Draining(Posting(s.closer.hand.i)))
    case CloserPosted =>
      s.closer.Draining? && s.closer.hand.Posting? && s' == s.(closer := Draining(Empty))
    case CloserReturn =>
      s.closer == Draining(Empty) && s.queue == [] && s' == s.(closer := Returned)
  }

  ghost predicate CanStep(s: State, s': State) {
    exists step :: Next(s, step, s')
  }

  ghost predicate IsRun(run: seq<State>, service: string) {
    && run != [] && run[0] == Init(service)
    && forall i :: 0 < i < |run| ==> CanStep(run[i - 1], run[i])
  }

  // --- The invariant ---

  predicate WorkerHolds(s: State, i: nat) {
    s.worker == Running(Holding(i))
  }

  predicate CloserHolds(s: State, i: nat) {
    s.closer == Draining(Holding(i))
  }

  predicate Handed(s: State, i: nat) {
    i in s.byWorker || i in s.byCloser
  }

  // Every dequeued event is in exactly one place: handed over by one of the two, or in the
  // hand of one of the two.
  predicate InOnePlace(s: State, i: nat) {
    && (Handed(s, i) || WorkerHolds(s, i) || CloserHolds(s, i))
    && !(i in s.byWorker && i in s.byCloser)
    && !(Handed(s, i) && (WorkerHolds(s, i) || CloserHolds(s, i)))
    && !(WorkerHolds(s, i) && CloserHolds(s, i))
  }

  // What a goroutine holds comes after everything it has handed over.
  ghost predicate BelowHand(handed: seq<nat>, hand: Hand) {
    hand.Holding? ==> forall k :: 0 <= k < |handed| ==> handed[k] < hand.i
  }

  ghost predicate Inv(s: State) {
    && s.accepted == s.dequeued + s.queue
    && |s.queue| <= CAPACITY
    && (forall i: nat :: i < |s.dequeued| ==> InOnePlace(s, i))
    && (forall i: nat :: Handed(s, i) || WorkerHolds(s, i) || CloserHolds(s, i) ==> i < |s.dequeued|)
    && Ascending(s.byWorker) && Ascending(s.byCloser)
    && (s.worker.Running? ==> BelowHand(s.byWorker, s.worker.hand))
    && (s.closer.Draining? ==> BelowHand(s.byCloser, s.closer.hand))
    && s.closedAt <= |s.accepted|
    && (s.closer == Returned ==> s.closedAt <= |s.dequeued|)
    && (s.worker == Exited ==> s.closer != NotClosed)
  }

  lemma StepKeepsInv(s: State, step: Step, s': State)
    requires Inv(s) && Next(s, step, s')
    ensures Inv(s')
  {
    match step
    case RecordEvent(e) =>
      assert s'.accepted == s.dequeued + s'.queue;
      Unmoved(s, s');
    case WorkerTake => TakeKeepsPlaces(s, step, s');
    case CloserTake => TakeKeepsPlaces(s, step, s');
    case WorkerPost => WorkerPostKeepsPlaces(s, s');
    case CloserPost => CloserPostKeepsPlaces(s, s');
    case WorkerPosted => Unmoved(s, s');
    case CloserPosted => Unmoved(s, s');
    case WorkerExit => Unmoved(s, s');
    case CloseDone => Unmoved(s, s');
    case CloserReturn => Unmoved(s, s');
  }

  // No event changes its place.
  lemma Unmoved(s: State, s': State)
    requires Inv(s)
    requires s'.dequeued == s.dequeued && s'.byWorker == s.byWorker && s'.byCloser == s.byCloser
    requires forall i :: (WorkerHolds(s', i) <==> WorkerHolds(s, i)) && (CloserHolds(s', i) <==> CloserHolds(s, i))
    ensures forall i: nat :: i < |s'.dequeued| ==> InOnePlace(s', i)
    ensures forall i: nat :: Handed(s', i) || WorkerHolds(s', i) || CloserHolds(s', i) ==> i < |s'.dequeued|
  {
    forall i: nat | i < |s'.dequeued|
      ensures InOnePlace(s', i)
    {
      assert InOnePlace(s, i);
    }
    forall i: nat | Handed(s', i) || WorkerHolds(s', i) || CloserHolds(s', i)
      ensures i < |s'.dequeued|
    {
      assert Handed(s, i) || WorkerHolds(s, i) || CloserHolds(s, i);
    }
  }

  lemma TakeKeepsPlaces(s: State, step: Step, s': State)
    requires Inv(s) && Next(s, step, s') && (step.WorkerTake? || step.CloserTake?)
    ensures Inv(s')
  {
    assert s'.accepted == s'.dequeued + s'.queue;
    var n := |s.dequeued|;
    assert !Handed(s, n);
    forall i: nat | i < |s'.dequeued|
      ensures InOnePlace(s', i)
    {
      assert i < n ==> InOnePlace(s, i);
      assert WorkerHolds(s', i) ==> i == n || WorkerHolds(s, i);
      assert CloserHolds(s', i) ==> i == n || CloserHolds(s, i);
    }
    forall i: nat | Handed(s', i) || WorkerHolds(s', i) || CloserHolds(s', i)
      ensures i < |s'.dequeued|
    {
      assert i == n || Handed(s, i) || WorkerHolds(s, i) || CloserHolds(s, i);
    }
    forall k | 0 <= k < |s.byWorker|
      ensures s.byWorker[k] < n
    {
      assert Handed(s, s.byWorker[k]);
    }
    forall k | 0 <= k < |s.byCloser|
      ensures s.byCloser[k] < n
    {
      assert Handed(s, s.byCloser[k]);
    }
  }

  lemma WorkerPostKeepsPlaces(s: State, s': State)
    requires Inv(s) && Next(s, WorkerPost, s')
    ensures Inv(s')
  {
    var n := s.worker.hand.i;
    assert WorkerHolds(s, n) && InOnePlace(s, n);
    forall i: nat
      ensures i < |s'.dequeued| ==> InOnePlace(s', i)
      ensures Handed(s', i) || WorkerHolds(s', i) || CloserHolds(s', i) ==> i < |s'.dequeued|
    {
      assert i < |s.dequeued| ==> InOnePlace(s, i);
      assert Handed(s', i) <==> Handed(s, i) || i == n;
      assert i != n ==> !WorkerHolds(s, i);
      assert !WorkerHolds(s', i) && (CloserHolds(s', i) <==> CloserHolds(s, i));
    }
    assert forall k :: 0 <= k < |s.byWorker| ==> s.byWorker[k] < n;
  }

  lemma CloserPostKeepsPlaces(s: State, s': State)
    requires Inv(s) && Next(s, CloserPost, s')
    ensures Inv(s')
  {
    var n := s.closer.hand.i;
    assert CloserHolds(s, n) && InOnePlace(s, n);
    forall i: nat
      ensures i < |s'.dequeued| ==> InOnePlace(s', i)
      ensures Handed(s', i) || WorkerHolds(s', i) || CloserHolds(s', i) ==> i < |s'.dequeued|
    {
      assert i < |s.dequeued| ==> InOnePlace(s, i);
      assert Handed(s', i) <==> Handed(s, i) || i == n;
      assert i != n ==> !CloserHolds(s, i);
      assert !CloserHolds(s', i) && (WorkerHolds(s', i) <==> WorkerHolds(s, i));
    }
    assert forall k :: 0 <= k < |s.byCloser| ==> s.byCloser[k] < n;
  }

  lemma {:induction false} RunKeepsInv(run: seq<State>, service: string, k: nat)
    requires IsRun(run, service) && k < |run|
    ensures Inv(run[k])
  {
    if k > 0 {
      RunKeepsInv(run, service, k - 1);
      assert CanStep(run[k - 1], run[k]);
      var step :| Next(run[k - 1], step, run[k]);
      StepKeepsInv(run[k - 1], step, run[k]);
    }
  }

  // --- Main results ---

  // Nothing is lost, duplicated or reordered on the way through the queue, which stays within
  // its capacity; worker and Close each hand over in order, and never the same event.
  lemma QueueConserves(run: seq<State>, service: string, k: nat)
    requires IsRun(run, service) && k < |run|
    ensures var s := run[k];
      && s.accepted == s.dequeued + s.queue
      && |s.queue| <= 256
      && Ascending(s.byWorker) && Ascending(s.byCloser)
      && (forall i :: i in s.byWorker ==> i < |s.dequeued| && i !in s.byCloser)
      && (forall i :: i in s.byCloser ==> i < |s.dequeued| && i !in s.byWorker)
  {
    RunKeepsInv(run, service, k);
    var s := run[k];
    forall i | i in s.byWorker || i in s.byCloser
      ensures i < |s.dequeued| && !(i in s.byWorker && i in s.byCloser)
    {
      assert Handed(s, i) && InOnePlace(s, i);
    }
  }

  // When Close has returned, every event accepted before done was closed has been handed over,
  // except for one that may still be in the worker's hand.
  lemma CloseDelivers(run: seq<State>, service: string, k: nat, i: nat)
    requires IsRun(run, service) && k < |run|
    requires run[k].closer == Returned && i < run[k].closedAt
    ensures i < |run[k].accepted|
    ensures Handed(run[k], i) <==> !WorkerHolds(run[k], i)
  {
    RunKeepsInv(run, service, k);
    assert InOnePlace(run[k], i);
  }

  // Once Close has returned, an event held back by the worker is the only one, and when nothing
  // was recorded after Close began the queue is empty.
  lemma CloseLeavesNothing(run: seq<State>, service: string, k: nat)
    requires IsRun(run, service) && k < |run|
    requires run[k].closer == Returned && run[k].closedAt == |run[k].accepted|
    ensures run[k].queue == [] && run[k].dequeued == run[k].accepted
    ensures forall i: nat, j: nat ::
      i < |run[k].accepted| && j < |run[k].accepted| && !Handed(run[k], i) && !Handed(run[k], j) ==> i == j
  {
    RunKeepsInv(run, service, k);
    var s := run[k];
    assert |s.accepted| == |s.dequeued| + |s.queue|;
    forall i: nat, j: nat | i < |s.accepted| && j < |s.accepted| && !Handed(s, i) && !Handed(s, j)
      ensures i == j
    {
      assert InOnePlace(s, i) && InOnePlace(s, j);
    }
  }

  // --- Close comes to an end ---

  function HandWeight(hand: Hand): nat {
    match hand
    case Empty => 1
    case Posting(_) => 2
    case Holding(_) => 3
  }

  // Every step but a recording makes this smaller once done is closed.
  function Remaining(s: State): nat {
    3 * |s.queue|
    + (if s.worker.Running? then HandWeight(s.worker.hand) else 0)
    + (if s.closer.Draining? then HandWeight(s.closer.hand) else 0)
  }

  ghost predicate IsRecording(s: State, s': State) {
    exists e :: Next(s, RecordEvent(e), s')
  }

  // Until Close has returned it can always go on by itself.
  lemma CloserNeverStuck(s: State) returns (step: Step, s': State)
    requires s.closer.Draining?
    ensures step in {CloserTake, CloserPost, CloserPosted, CloserReturn} && Next(s, step, s')
  {
    match s.closer.hand
    case Holding(i) =>
      step, s' := CloserPost, s.(byCloser := s.byCloser + [i], closer := Draining(Posting(i)));
    case Posting(_) =>
      step, s' := CloserPosted, s.(closer := Draining(Empty));
    case Empty =>
      if s.queue == [] {
        step, s' := CloserReturn, s.(closer := Returned);
      } else {
        step := CloserTake;
        s' := s.(queue := s.queue[1..], dequeued := s.dequeued + [s.queue[0]],
                 closer := Draining(Holding(|s.dequeued|)));
      }
  }

  lemma StepUsesUp(s: State, s': State)
    requires CanStep(s, s') && !IsRecording(s, s') && s.closer != NotClosed
    ensures Remaining(s') < Remaining(s) && s'.closer != NotClosed
  {
    var step :| Next(s, step, s');
    if step.RecordEvent? {
      assert IsRecording(s, s');
    }
  }

  // After done is closed at j, worker and Close together take at most 774 further steps as long
  // as nothing is recorded.
  lemma {:induction false} CloseTerminates(run: seq<State>, service: string, j: nat, k: nat)
    requires IsRun(run, service) && j <= k < |run| && run[j].closer != NotClosed
    requires forall i :: j < i <= k ==> !IsRecording(run[i - 1], run[i])
    ensures run[k].closer != NotClosed
    ensures k - j + Remaining(run[k]) <= Remaining(run[j]) <= 774
    decreases k
  {
    RunKeepsInv(run, service, j);
    if j < k {
      CloseTerminates(run, service, j, k - 1);
      assert CanStep(run[k - 1], run[k]) && !IsRecording(run[k - 1], run[k]);
      StepUsesUp(run[k - 1], run[k]);
    }
  }
}
