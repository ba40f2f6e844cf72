/** Publishers and the single consumer, interleaved at every await: what holds of each accepted
    event over whole runs, and when the consumer blocks on its own queue. */
module Delivery {
  import opened EventBus

  /** Where the consumer loop is: waiting in `get`, in a handler, or waiting to put a retry. */
  datatype Consumer = Idle | Handling(envelope: Envelope) | Requeueing(envelope: Envelope)

  /** The bus and the consumer, with the history the claims speak of. */
  datatype State = State(
    maxSize: int, queue: seq<Envelope>, consumer: Consumer, unfinished: int,
    accepted: map<TraceId, Issue>, succeeded: seq<TraceId>, givenUp: seq<TraceId>,
    failures: map<TraceId, nat>, handlings: nat,
    sizeAfterGet: nat, publishedSinceGet: nat)

  datatype Step =
    | PublishNowait(traceId: TraceId, issue: Issue)
    | Publish(traceId: TraceId, issue: Issue)
    | Fetch
    | Succeed
    | Fail
    | Requeue

  function Init(maxSize: int): State {
    State(maxSize, [], Idle, 0, map[], [], [], map[], 0, 0, 0)
  }

  predicate Full(s: State) {
    IsFull(s.maxSize, s.queue)
  }

  function Accept(s: State, traceId: TraceId, issue: Issue): State {
    s.(queue := s.queue + [Envelope(issue, traceId, 1)], unfinished := s.unfinished + 1,
       accepted := s.accepted[traceId := issue], failures := s.failures[traceId := 0],
       publishedSinceGet := s.publishedSinceGet + 1)
  }

  /** A step that is enabled: trace ids are fresh, and an awaited `get` or `put` only resumes
      when the queue lets it. */
  predicate Enabled(s: State, step: Step) {
    match step
    case PublishNowait(t, _) => t !in s.accepted
    case Publish(t, _) => t !in s.accepted && !Full(s)
    case Fetch => s.consumer.Idle? && s.queue != []
    case Succeed => s.consumer.Handling?
    case Fail => s.consumer.Handling?
    case Requeue => s.consumer.Requeueing? && !Full(s)
  }

  function After(s: State, step: Step): State
    requires Enabled(s, step)
  {
    match step
    case PublishNowait(t, i) => if Full(s) then s else Accept(s, t, i)
    case Publish(t, i) => Accept(s, t, i)
    case Fetch =>
      s.(queue := s.queue[1..], consumer := Handling(s.queue[0]), sizeAfterGet := |s.queue| - 1, publishedSinceGet := 0)
    case Succeed =>
      s.(consumer := Idle, succeeded := s.succeeded + [s.consumer.envelope.traceId],
         unfinished := s.unfinished - 1, handlings := s.handlings + 1)
    case Fail =>
      var e := s.consumer.envelope;
      var count := if e.traceId in s.failures then s.failures[e.traceId] + 1 else 1;
      var failed := s.(failures := s.failures[e.traceId := count], handlings := s.handlings + 1);
      if e.attempt >= MAX_ATTEMPTS
      then failed.(consumer := Idle, givenUp := s.givenUp + [e.traceId], unfinished := s.unfinished - 1)
      else failed.(consumer := Requeueing(Next(e)))
    case Requeue =>
      s.(consumer := Idle, queue := s.queue + [s.consumer.envelope])
  }

  /** The state after a whole run; a step that is not enabled is not taken. */
  function Run(s: State, steps: seq<Step>): State {
    if steps == [] then s
    else
      var before, step := Run(s, steps[..|steps| - 1]), steps[|steps| - 1];
      if Enabled(before, step) then After(before, step) else before
  }

  /** Every envelope that is neither done nor given up. */
  function Live(s: State): seq<Envelope> {
    s.queue + if s.consumer.Idle? then [] else [s.consumer.envelope]
  }

  ghost predicate EnvelopeOk(s: State, e: Envelope) {
    && Deliverable(e)
    && e.traceId in s.accepted && s.accepted[e.traceId] == e.payload
    && e.traceId in s.failures && s.failures[e.traceId] == e.attempt - 1
  }

  /** Every accepted event is in exactly one place. */
  ghost predicate OnePlaceEach(s: State) {
    multiset(Traces(Live(s))) + multiset(s.succeeded) + multiset(s.givenUp) == multiset(s.accepted.Keys)
  }

  ghost predicate Inv(s: State) {
    && WithinCapacity(s.maxSize, s.queue)
    && s.unfinished == |Live(s)|
    && OnePlaceEach(s)
    && (forall e | e in Live(s) :: EnvelopeOk(s, e))
    && (forall t | t in s.givenUp :: t in s.failures && s.failures[t] == MAX_ATTEMPTS)
    && (forall t | t in s.succeeded :: t in s.failures && s.failures[t] < MAX_ATTEMPTS)
    && s.handlings + Budget(Live(s)) <= MAX_ATTEMPTS * |s.accepted|
    && (!s.consumer.Idle? ==>
        |s.queue| == s.sizeAfterGet + s.publishedSinceGet && (s.maxSize > 0 ==> s.sizeAfterGet < s.maxSize))
  }

  // ----- Each step keeps the invariant -----

  lemma LiveTraces(s: State)
    requires !s.consumer.Idle?
    ensures multiset(Traces(Live(s))) == multiset(Traces(s.queue)) + multiset{s.consumer.envelope.traceId}
    ensures Budget(Live(s)) == Budget(s.queue) + (MAX_ATTEMPTS + 1 - s.consumer.envelope.attempt)
  {
    TracesAdd(s.queue, [s.consumer.envelope]);
    TracesOfOne(s.consumer.envelope);
    BudgetAdds(s.queue, [s.consumer.envelope]);
    BudgetOfOne(s.consumer.envelope);
  }

  lemma AcceptAddsOne(s: State, t: TraceId, i: Issue)
    requires !Full(s)
    ensures multiset(Traces(Live(Accept(s, t, i)))) == multiset(Traces(Live(s))) + multiset{t}
    ensures Budget(Live(Accept(s, t, i))) == Budget(Live(s)) + MAX_ATTEMPTS
    ensures |Live(Accept(s, t, i))| == |Live(s)| + 1
    ensures forall q :: q in Live(Accept(s, t, i)) <==> q in Live(s) || q == Envelope(i, t, 1)
  {
    hide Budget, Traces;
    var s', e, held := Accept(s, t, i), Envelope(i, t, 1), if s.consumer.Idle? then [] else [s.consumer.envelope];
    assert Live(s) == s.queue + held && Live(s') == s.queue + [e] + held;
    TracesAdd(s.queue, held);
    TracesAdd(s.queue + [e], held);
    TracesAdd(s.queue, [e]);
    TracesOfOne(e);
    BudgetAdds(s.queue, held);
    BudgetAdds(s.queue + [e], held);
    BudgetAdds(s.queue, [e]);
    BudgetOfOne(e);
  }

  lemma AcceptKeepsInv(s: State, t: TraceId, i: Issue)
    requires Inv(s) && t !in s.accepted && !Full(s)
    ensures Inv(Accept(s, t, i))
  {
    hide Budget, Traces, Live;
    var s' := Accept(s, t, i);
    AcceptAddsOne(s, t, i);
    TracesAreAccepted(s);
    assert s'.accepted.Keys == s.accepted.Keys + {t};
    assert |s'.accepted| == |s'.accepted.Keys| == |s.accepted| + 1;
    assert multiset(s.accepted.Keys + {t}) == multiset(s.accepted.Keys) + multiset{t};
  }

  /** Only accepted trace ids occur anywhere. */
  lemma TracesAreAccepted(s: State)
    requires OnePlaceEach(s)
    ensures forall t | t in s.succeeded || t in s.givenUp :: t in s.accepted
  {
    forall t | t in s.succeeded || t in s.givenUp ensures t in s.accepted {
      assert t in multiset(s.succeeded) || t in multiset(s.givenUp);
      assert t in multiset(s.accepted.Keys);
    }
  }

  lemma FetchKeepsInv(s: State)
    requires Inv(s) && Enabled(s, Fetch)
    ensures Inv(After(s, Fetch))
  {
    hide Budget, Traces;
    var s', e := After(s, Fetch), s.queue[0];
    assert s.queue == [e] + s'.queue && Live(s) == s.queue + [] == s.queue && Live(s') == s'.queue + [e];
    TracesAdd([e], s'.queue);
    TracesAdd(s'.queue, [e]);
    BudgetAdds([e], s'.queue);
    BudgetAdds(s'.queue, [e]);
    assert forall q | q in Live(s') :: q in Live(s);
    assert OnePlaceEach(s');
  }

  lemma OnlyOnce(s: State, e: Envelope)
    requires OnePlaceEach(s) && !s.consumer.Idle? && e in s.queue
    ensures e.traceId != s.consumer.envelope.traceId
  {
    LiveTraces(s);
    var i :| 0 <= i < |s.queue| && s.queue[i] == e;
    assert Traces(s.queue)[i] == e.traceId;
    assert e.traceId in multiset(Traces(s.queue));
    assert multiset(s.accepted.Keys)[e.traceId] <= 1;
  }

  lemma SucceedKeepsInv(s: State)
    requires Inv(s) && Enabled(s, Succeed)
    ensures Inv(After(s, Succeed)) && Budget(Live(After(s, Succeed))) < Budget(Live(s))
  {
    hide Budget, Traces;
    var s' := After(s, Succeed);
    LiveTraces(s);
    assert Live(s') == s.queue + [] == s.queue;
    assert s.consumer.envelope in Live(s);
    assert forall q | q in s.queue :: q in Live(s);
    assert OnePlaceEach(s');
  }

  lemma FailKeepsInv(s: State)
    requires Inv(s) && Enabled(s, Fail)
    ensures Inv(After(s, Fail)) && Budget(Live(After(s, Fail))) < Budget(Live(s))
  {
    hide Budget, Traces;
    var s', e := After(s, Fail), s.consumer.envelope;
    LiveTraces(s);
    assert e in Live(s);
    forall q | q in s.queue ensures EnvelopeOk(s', q) {
      OnlyOnce(s, q);
      assert q in Live(s);
    }
    DoneIsDone(s);
    if s'.consumer.Idle? {
      assert Live(s') == s.queue + [] == s.queue;
    } else {
      LiveTraces(s');
    }
  }

  /** The event in hand is not among those that ended. */
  lemma DoneIsDone(s: State)
    requires OnePlaceEach(s) && !s.consumer.Idle?
    ensures s.consumer.envelope.traceId !in s.succeeded && s.consumer.envelope.traceId !in s.givenUp
  {
    hide Traces;
    LiveTraces(s);
    var t := s.consumer.envelope.traceId;
    assert multiset(s.accepted.Keys)[t] <= 1;
    assert multiset(s.succeeded)[t] == 0 && multiset(s.givenUp)[t] == 0;
  }

  lemma RequeueKeepsInv(s: State)
    requires Inv(s) && Enabled(s, Requeue)
    ensures Inv(After(s, Requeue))
  {
    hide Budget, Traces;
    var s' := After(s, Requeue);
    assert Live(s') == s'.queue + [] == Live(s);
  }

  lemma StepKeepsInv(s: State, step: Step)
    requires Inv(s) && Enabled(s, step)
    ensures Inv(After(s, step))
  {
    hide Inv;
    match step
    case PublishNowait(t, i) => if !Full(s) { AcceptKeepsInv(s, t, i); }
    case Publish(t, i) => AcceptKeepsInv(s, t, i);
    case Fetch => FetchKeepsInv(s);
    case Succeed => SucceedKeepsInv(s);
    case Fail => FailKeepsInv(s);
    case Requeue => RequeueKeepsInv(s);
  }

  /** Over every interleaving the invariant holds. */
  lemma {:induction false} RunKeepsInv(s: State, steps: seq<Step>)
    requires Inv(s)
    ensures Inv(Run(s, steps))
    decreases |steps|
  {
    hide Inv;
    if steps != [] {
      RunKeepsInv(s, steps[..|steps| - 1]);
      var before := Run(s, steps[..|steps| - 1]);
      if Enabled(before, steps[|steps| - 1]) { StepKeepsInv(before, steps[|steps| - 1]); }
    }
  }

  lemma InitInv(maxSize: int)
    ensures Inv(Init(maxSize))
  {
  }

  /** The states that some interleaving from an empty bus leads to. */
  ghost predicate Reachable(s: State) {
    exists steps :: s == Run(Init(s.maxSize), steps)
  }

  lemma ReachableInv(s: State)
    requires Reachable(s)
    ensures Inv(s)
  {
    var steps :| s == Run(Init(s.maxSize), steps);
    InitInv(s.maxSize);
    RunKeepsInv(Init(s.maxSize), steps);
  }

  /** When nothing is left to do, every accepted event has ended, exactly once, and all events
      together took at most three handlings each. */
  lemma QuiescentOutcome(s: State)
    requires Reachable(s) && s.consumer.Idle? && s.queue == []
    ensures multiset(s.succeeded) + multiset(s.givenUp) == multiset(s.accepted.Keys)
    ensures forall t | t in s.accepted :: t in s.failures && (t in s.givenUp <==> s.failures[t] == MAX_ATTEMPTS)
    ensures s.handlings <= MAX_ATTEMPTS * |s.accepted| && s.unfinished == 0
  {
    ReachableInv(s);
    NothingLeft();
    assert Live(s) == [];
    forall t | t in s.accepted ensures t in s.failures && (t in s.givenUp <==> s.failures[t] == MAX_ATTEMPTS) {
      assert t in multiset(s.accepted.Keys);
      assert t in multiset(s.succeeded) || t in multiset(s.givenUp);
    }
  }

  /** A retry finds no free slot only if a publisher took the one that the last `get` left:
      with none since, it never blocks. */
  lemma RetryBlocksOnlyAfterPublish(s: State)
    requires Reachable(s) && s.consumer.Requeueing?
    ensures Full(s) ==> s.publishedSinceGet > 0
    ensures Full(s) <==> s.maxSize > 0 && s.sizeAfterGet + s.publishedSinceGet == s.maxSize
  {
    ReachableInv(s);
  }

  // ----- Blocking for good -----

  /** No step can ever change the state again. */
  ghost predicate Stuck(s: State) {
    forall step :: Enabled(s, step) ==> After(s, step) == s
  }

  /** The bus is stuck exactly when the only consumer waits to put a retry into the full queue
      that nobody but itself could drain. */
  lemma StuckExactly(s: State)
    requires Reachable(s)
    ensures Stuck(s) <==> s.consumer.Requeueing? && Full(s)
  {
    ReachableInv(s);
    if Stuck(s) {
      assert s.consumer.Handling? ==> After(s, Succeed).consumer != s.consumer;
      assert Enabled(s, Fetch) ==> After(s, Fetch).consumer != s.consumer;
      assert Enabled(s, Requeue) ==> After(s, Requeue).consumer != s.consumer;
      var t := FreshTrace(s.accepted.Keys);
      assert Enabled(s, Publish(t, "")) ==> t in After(s, Publish(t, "")).accepted;
    }
  }

  lemma {:induction false} FreshTrace(used: set<TraceId>) returns (t: TraceId)
    ensures t !in used && forall u | u in used :: u < t
    decreases |used|
  {
    if used == {} { return 0; }
    var u :| u in used;
    var below := FreshTrace(used - {u});
    t := if below > u then below else u + 1;
    assert used == (used - {u}) + {u};
  }

  lemma {:induction false} StuckForever(s: State, steps: seq<Step>)
    requires Stuck(s)
    ensures Run(s, steps) == s
    decreases |steps|
  {
    if steps != [] { StuckForever(s, steps[..|steps| - 1]); }
  }

  lemma RunSnoc(s: State, steps: seq<Step>, step: Step)
    ensures var before := Run(s, steps);
            Run(s, steps + [step]) == if Enabled(before, step) then After(before, step) else before
  {
    assert (steps + [step])[..|steps|] == steps;
  }

  /** Publishing n events while the consumer handles the first one. */
  lemma {:induction false} PublishMany(maxSize: nat, n: nat) returns (steps: seq<Step>)
    requires 1 <= maxSize && n <= maxSize
    ensures var s := Run(Init(maxSize), steps);
            && s.maxSize == maxSize && s.consumer == Handling(Envelope("", 0, 1)) && |s.queue| == n
            && forall t: TraceId :: t in s.accepted <==> t <= n
    decreases n
  {
    if n == 0 {
      RunSnoc(Init(maxSize), [], Publish(0, ""));
      RunSnoc(Init(maxSize), [Publish(0, "")], Fetch);
      assert [] + [Publish(0, "")] == [Publish(0, "")];
      steps := [Publish(0, "")] + [Fetch];
      assert Run(Init(maxSize), []) == Init(maxSize);
      assert Run(Init(maxSize), steps).accepted == map[0 := ""];
    } else {
      var before := PublishMany(maxSize, n - 1);
      steps := before + [Publish(n, "")];
      RunSnoc(Init(maxSize), before, Publish(n, ""));
      var b := Run(Init(maxSize), before);
      assert n !in b.accepted && Run(Init(maxSize), steps) == Accept(b, n, "");
    }
  }

  /** For every bounded capacity some interleaving gets the bus stuck for good, with events
      still undelivered. */
  lemma BoundedBusCanStick(maxSize: nat) returns (steps: seq<Step>)
    requires maxSize > 0
    ensures var s := Run(Init(maxSize), steps);
            && Reachable(s) && s.queue != [] && Stuck(s)
            && forall more :: Run(s, more) == s
  {
    var before := PublishMany(maxSize, maxSize);
    steps := before + [Fail];
    RunSnoc(Init(maxSize), before, Fail);
    var s := Run(Init(maxSize), steps);
    assert s.maxSize == maxSize;
    StuckExactly(s);
    forall more ensures Run(s, more) == s { StuckForever(s, more); }
  }

  /** An unbounded queue never sticks. */
  lemma UnboundedBusNeverSticks(s: State)
    requires Reachable(s) && s.maxSize <= 0
    ensures !Stuck(s)
  {
    StuckExactly(s);
  }

  // ----- The bus and the consumer as objects -----

  /** The bus with its single consumer, stopped at the awaits of `run_forever`. Each method is
      the code between two awaits, and takes exactly one step of the interleaving. */
  class Runtime {
    const bus: EventBus
    var consumer: Consumer
    ghost var s: State

    ghost predicate Valid()
      reads this, bus
    {
      && bus.Valid() && Inv(s)
      && bus.maxSize == s.maxSize && bus.queue == s.queue && bus.unfinished == s.unfinished && consumer == s.consumer
    }

    constructor (maxSize: int)
      ensures Valid() && fresh(bus) && s == Init(maxSize)
    {
      bus := new EventBus(maxSize);
      consumer := Idle;
      s := Init(maxSize);
      new;
      InitInv(maxSize);
    }

    method PublishEvent(event: Issue, traceId: TraceId) returns (accepted: bool)
      requires Valid() && traceId !in s.accepted
      modifies this, bus
      ensures Valid() && s == After(old(s), PublishNowait(traceId, event))
      ensures accepted <==> !Full(old(s))
    {
      StepKeepsInv(s, PublishNowait(traceId, event));
      var r := bus.PublishNowait(event, traceId);
      s := After(s, PublishNowait(traceId, event));
      accepted := r.Ok?;
    }

    method FetchNext()
      requires Valid() && Enabled(s, Fetch)
      modifies this, bus
      ensures Valid() && s == After(old(s), Fetch)
    {
      StepKeepsInv(s, Fetch);
      var envelope := bus.Get();
      consumer := Handling(envelope);
      s := After(s, Fetch);
    }

    method Finish(failed: bool)
      requires Valid() && consumer.Handling?
      modifies this, bus
      ensures Valid() && s == After(old(s), if failed then Fail else Succeed)
    {
      hide OnePlaceEach, Budget;
      StepKeepsInv(s, if failed then Fail else Succeed);
      var envelope := consumer.envelope;
      assert |Live(s)| == |s.queue| + 1;
      if failed && envelope.attempt < MAX_ATTEMPTS {
        consumer := Requeueing(Next(envelope));
      } else {
        if failed {
          var retried := bus.Retry(envelope);
          assert retried.Exhausted?;
        }
        consumer := Idle;
        bus.TaskDone();
      }
      s := After(s, if failed then Fail else Succeed);
    }

    method ResumeRetry()
      requires Valid() && Enabled(s, Requeue)
      modifies this, bus
      ensures Valid() && s == After(old(s), Requeue)
    {
      StepKeepsInv(s, Requeue);
      var accepted := bus.PutNowait(consumer.envelope);
      bus.TaskDone();
      consumer := Idle;
      s := After(s, Requeue);
    }
  }
}
