// The billing client class at work: what its methods do is a run of recorders, worker and closer,
// in which nothing else happens meanwhile.
module BillingSession {
  import opened Ordering
  import opened BillingQueue

  function Last(run: seq<State>): State
    requires run != []
  {
    run[|run| - 1]
  }

  // The run goes on to s'.
  ghost predicate LeadsTo(run: seq<State>, service: string, run': seq<State>, s': State) {
    IsRun(run', service) && run <= run' && Last(run') == s'
  }

  lemma Goes(run: seq<State>, service: string, step: Step, s': State) returns (run': seq<State>)
    requires IsRun(run, service) && Next(Last(run), step, s')
    ensures LeadsTo(run, service, run', s')
  {
    run' := run + [s'];
    assert CanStep(Last(run), s');
    forall i | 0 < i < |run'|
      ensures CanStep(run'[i - 1], run'[i])
    {
      assert i < |run| ==> run'[i] == run[i];
      assert run'[i - 1] == run[i - 1];
    }
  }

  // Between two calls nobody holds an event, so all that were taken off the queue are posted.
  ghost predicate IsClientOf(client: Client, s: State)
    reads client
  {
    && client.service == s.service && client.queue == s.queue && client.posted == s.dequeued
    && (client.done <==> s.closer != NotClosed)
    && s.worker in {Running(Empty), Exited} && s.closer in {NotClosed, Returned}
  }

  // The worker takes the first event and posts it.
  function Worked(s: State): State
    requires s.queue != []
  {
    s.(queue := s.queue[1..], dequeued := s.dequeued + [s.queue[0]], byWorker := s.byWorker + [|s.dequeued|])
  }

  lemma WorkerPosts(run: seq<State>, service: string) returns (run': seq<State>)
    requires IsRun(run, service) && Last(run).worker == Running(Empty) && Last(run).queue != []
    ensures LeadsTo(run, service, run', Worked(Last(run)))
  {
    var s := Last(run);
    var n := |s.dequeued|;
    var taken := s.(queue := s.queue[1..], dequeued := s.dequeued + [s.queue[0]], worker := Running(Holding(n)));
    var r1 := Goes(run, service, WorkerTake, taken);
    var r2 := Goes(r1, service, WorkerPost, taken.(byWorker := s.byWorker + [n], worker := Running(Posting(n))));
    run' := Goes(r2, service, WorkerPosted, Worked(s));
  }

  // The closer takes and posts everything that is left.
  function Drained(s: State): State
    decreases |s.queue|
  {
    if s.queue == [] then s
    else Drained(s.(queue := s.queue[1..], dequeued := s.dequeued + [s.queue[0]],
                    byCloser := s.byCloser + [|s.dequeued|]))
  }

  lemma {:induction false} DrainedAll(s: State)
    ensures var d := Drained(s);
      && d == s.(queue := [], dequeued := d.dequeued, byCloser := d.byCloser)
      && d.dequeued == s.dequeued + s.queue
    decreases |s.queue|
  {
    if s.queue != [] {
      DrainedAll(s.(queue := s.queue[1..], dequeued := s.dequeued + [s.queue[0]],
                    byCloser := s.byCloser + [|s.dequeued|]));
    }
  }

  lemma {:induction false} CloserDrains(run: seq<State>, service: string) returns (run': seq<State>)
    requires IsRun(run, service) && Last(run).closer == Draining(Empty)
    ensures LeadsTo(run, service, run', Drained(Last(run)))
    decreases |Last(run).queue|
  {
    var s := Last(run);
    run' := run;
    if s.queue != [] {
      var n := |s.dequeued|;
      var taken := s.(queue := s.queue[1..], dequeued := s.dequeued + [s.queue[0]], closer := Draining(Holding(n)));
      var posted := taken.(byCloser := s.byCloser + [n], closer := Draining(Posting(n)));
      var r1 := Goes(run, service, CloserTake, taken);
      var r2 := Goes(r1, service, CloserPost, posted);
      var r3 := Goes(r2, service, CloserPosted, posted.(closer := Draining(Empty)));
      run' := CloserDrains(r3, service);
    }
  }

  // --- The methods ---

  method Submit(client: Client, event: UsageEvent, ghost run: seq<State>) returns (ghost run': seq<State>)
    requires IsRun(run, client.service) && IsClientOf(client, Last(run))
    modifies client
    ensures var s, put := Last(run), Accepted(Last(run).queue, event, client.service);
      LeadsTo(run, client.service, run', s.(queue := s.queue + put, accepted := s.accepted + put))
    ensures IsClientOf(client, Last(run'))
  {
    ghost var s, put := Last(run), Accepted(Last(run).queue, event, client.service);
    client.Record(event);
    run' := Goes(run, client.service, RecordEvent(event), s.(queue := s.queue + put, accepted := s.accepted + put));
  }

  // A turn of the running worker, which ends it when done is closed and it takes that case.
  method Turn(client: Client, preferQueue: bool, ghost run: seq<State>) returns (running: bool, ghost run': seq<State>)
    requires IsRun(run, client.service) && IsClientOf(client, Last(run)) && Last(run).worker == Running(Empty)
    modifies client
    ensures var s := Last(run);
      LeadsTo(run, client.service, run',
              if s.queue != [] && (preferQueue || s.closer == NotClosed) then Worked(s)
              else if s.closer == NotClosed then s else s.(worker := Exited))
    ensures IsClientOf(client, Last(run')) && (running <==> Last(run').worker == Running(Empty))
  {
    ghost var s := Last(run);
    running := client.WorkerTurn(preferQueue);
    run' := run;
    if s.queue != [] && (preferQueue || s.closer == NotClosed) {
      run' := WorkerPosts(run, client.service);
    } else if s.closer != NotClosed {
      run' := Goes(run, client.service, WorkerExit, s.(worker := Exited));
    }
  }

  method CloseClient(client: Client, ghost run: seq<State>) returns (ghost run': seq<State>)
    requires IsRun(run, client.service) && IsClientOf(client, Last(run)) && Last(run).closer == NotClosed
    modifies client
    ensures IsRun(run', client.service) && run <= run' && IsClientOf(client, Last(run'))
    ensures var s := Last(run');
      s.closer == Returned && s.accepted == Last(run).accepted && s.closedAt == |s.accepted|
  {
    ghost var s := Last(run);
    client.Close();
    ghost var closing := s.(closer := Draining(Empty), closedAt := |s.accepted|);
    run' := Goes(run, client.service, CloseDone, closing);
    run' := CloserDrains(run', client.service);
    DrainedAll(closing);
    run' := Goes(run', client.service, CloserReturn, Drained(closing).(closer := Returned));
  }

  // --- Sessions ---

  datatype Use = Submitting(e: UsageEvent) | Turning(preferQueue: bool)

  // What waits in the queue, and what has been accepted, after the uses of an open client.
  datatype Books = Books(waiting: nat, accepted: seq<UsageEvent>)

  function BooksAfter(service: string, uses: seq<Use>): Books {
    if uses == [] then Books(0, [])
    else
      var b := BooksAfter(service, uses[..|uses| - 1]);
      match uses[|uses| - 1]
      case Submitting(e) =>
        if b.waiting < CAPACITY then Books(b.waiting + 1, b.accepted + [WithDefaults(e, service)]) else b
      case Turning(_) => if b.waiting > 0 then b.(waiting := b.waiting - 1) else b
  }

  // Whatever a client is used for before it is closed, it posts exactly the events that found
  // room, with their defaults, each once and in order; and its life is a run of the machine.
  method RunAndClose(service: string, uses: seq<Use>) returns (posted: seq<UsageEvent>, ghost run: seq<State>)
    ensures posted == BooksAfter(service, uses).accepted
    ensures IsRun(run, service) && Last(run).closer == Returned && Last(run).accepted == posted
    ensures forall i: nat :: i < |posted| ==> Handed(Last(run), i)
  {
    var client := new Client(service);
    run := [Init(service)];
    for i := 0 to |uses|
      invariant fresh(client) && IsRun(run, service) && IsClientOf(client, Last(run))
      invariant Last(run).worker == Running(Empty) && Last(run).closer == NotClosed
      invariant BooksAfter(service, uses[..i]) == Books(|Last(run).queue|, Last(run).accepted)
    {
      assert uses[..i + 1][..i] == uses[..i];
      match uses[i]
      case Submitting(e) =>
        run := Submit(client, e, run);
      case Turning(preferQueue) =>
        var running;
        running, run := Turn(client, preferQueue, run);
    }
    assert uses[..|uses|] == uses;
    run := CloseClient(client, run);
    posted := client.posted;
    CloseLeavesNothing(run, service, |run| - 1);
    forall i: nat | i < |posted|
      ensures Handed(Last(run), i)
    {
      CloseDelivers(run, service, |run| - 1, i);
    }
  }

  // --- A burst of events ---

  function Submissions(events: seq<UsageEvent>): seq<Use> {
    seq(|events|, i requires 0 <= i < |events| => Submitting(events[i]))
  }

  lemma {:induction false} BurstBooks(service: string, events: seq<UsageEvent>)
    ensures var b := BooksAfter(service, Submissions(events));
      && b.waiting == |b.accepted| == (if |events| <= CAPACITY then |events| else CAPACITY)
      && forall i :: 0 <= i < |b.accepted| ==> b.accepted[i] == WithDefaults(events[i], service)
  {
    if events != [] {
      var n := |events| - 1;
      BurstBooks(service, events[..n]);
      assert Submissions(events)[..n] == Submissions(events[..n]);
    }
  }

  // Of events recorded at once, before the worker takes any, the first 256 are posted when the
  // client is closed, in order and with an empty service key or source replaced by the service.
  method BurstAndClose(service: string, events: seq<UsageEvent>) returns (posted: seq<UsageEvent>)
    ensures |posted| == if |events| <= 256 then |events| else 256
    ensures forall i :: 0 <= i < |posted| ==>
      && posted[i].customerID == events[i].customerID && posted[i].quantity == events[i].quantity
      && posted[i].unit == events[i].unit && posted[i].providerCost == events[i].providerCost
      && posted[i].metadata == events[i].metadata
      && posted[i].serviceKey == (if events[i].serviceKey == "" then service else events[i].serviceKey)
      && posted[i].source == (if events[i].source == "" then service else events[i].source)
  {
    BurstBooks(service, events);
    ghost var run;
    posted, run := RunAndClose(service, Submissions(events));
  }
}
