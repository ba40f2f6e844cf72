/** The in-process event bus: a bounded queue of envelopes, redelivered at most three times. */
module EventBus {
  import opened Wrappers

  type Issue = string
  type TraceId = nat

  datatype Envelope = Envelope(payload: Issue, traceId: TraceId, attempt: nat)

  const MAX_ATTEMPTS: nat := 3

  /** `asyncio.Queue.full`: a queue whose maximal size is not positive is unbounded. */
  predicate IsFull(maxSize: int, queue: seq<Envelope>) {
    0 < maxSize <= |queue|
  }

  predicate WithinCapacity(maxSize: int, queue: seq<Envelope>) {
    maxSize > 0 ==> |queue| <= maxSize
  }

  /** How many more handlings an envelope can take. */
  function Budget(es: seq<Envelope>): int {
    if es == [] then 0 else Budget(es[..|es| - 1]) + (MAX_ATTEMPTS + 1 - es[|es| - 1].attempt)
  }

  predicate Deliverable(e: Envelope) {
    1 <= e.attempt <= MAX_ATTEMPTS
  }

  function Next(e: Envelope): Envelope {
    e.(attempt := e.attempt + 1)
  }

  lemma {:induction false} BudgetAdds(a: seq<Envelope>, b: seq<Envelope>)
    ensures Budget(a + b) == Budget(a) + Budget(b)
    decreases |b|
  {
    if b == [] {
      assert a + b == a;
    } else {
      assert (a + b)[..|a + b| - 1] == a + b[..|b| - 1];
      BudgetAdds(a, b[..|b| - 1]);
    }
  }

  lemma BudgetOfOne(e: Envelope)
    ensures Budget([e]) == MAX_ATTEMPTS + 1 - e.attempt
  {
    assert [e][..0] == [];
  }

  lemma {:induction false} BudgetBounds(es: seq<Envelope>)
    requires forall e | e in es :: Deliverable(e)
    ensures |es| <= Budget(es) <= MAX_ATTEMPTS * |es|
    decreases |es|
  {
    if es != [] {
      assert es[|es| - 1] in es;
      BudgetBounds(es[..|es| - 1]);
    }
  }

  class EventBus {
    const maxSize: int
    var queue: seq<Envelope>
    /** Envelopes put and not yet reported done. */
    var unfinished: nat

    predicate Full()
      reads this
    {
      IsFull(maxSize, queue)
    }

    predicate Valid()
      reads this
    {
      WithinCapacity(maxSize, queue) && |queue| <= unfinished
    }

    constructor (maxSize: int)
      ensures Valid() && this.maxSize == maxSize && queue == [] && unfinished == 0
    {
      this.maxSize := maxSize;
      queue, unfinished := [], 0;
    }

    /** `put_nowait`: refused exactly when the queue is full. */
    method PutNowait(envelope: Envelope) returns (accepted: bool)
      requires Valid()
      modifies this
      ensures Valid()
      ensures accepted <==> !old(Full())
      ensures queue == if accepted then old(queue) + [envelope] else old(queue)
      ensures unfinished == if accepted then old(unfinished) + 1 else old(unfinished)
    {
      if Full() { return false; }
      queue := queue + [envelope];
      unfinished := unfinished + 1;
      return true;
    }

    /** A new event enters with attempt 1 and an unused trace id. */
    method PublishNowait(event: Issue, traceId: TraceId) returns (r: Result<Envelope>)
      requires Valid()
      modifies this
      ensures Valid()
      ensures r == if old(Full()) then Err("event bus at capacity") else Ok(Envelope(event, traceId, 1))
      ensures queue == if r.Ok? then old(queue) + [r.value] else old(queue)
      ensures unfinished == if r.Ok? then old(unfinished) + 1 else old(unfinished)
    {
      var envelope := Envelope(event, traceId, 1);
      var accepted := PutNowait(envelope);
      r := if accepted then Ok(envelope) else Err("event bus at capacity");
    }

    /** The queue's `get` once something is there. */
    method Get() returns (envelope: Envelope)
      requires Valid() && queue != []
      modifies this
      ensures Valid()
      ensures envelope == old(queue)[0] && queue == old(queue)[1..] && unfinished == old(unfinished)
      ensures maxSize > 0 ==> !Full()
    {
      envelope := queue[0];
      queue := queue[1..];
    }

    method TaskDone()
      requires Valid() && |queue| < unfinished
      modifies this
      ensures Valid() && queue == old(queue) && unfinished == old(unfinished) - 1
    {
      unfinished := unfinished - 1;
    }

    /** Re-enqueues with the next attempt number; an exhausted envelope is refused. While the queue
        is full the awaited `put` waits and nothing has happened yet. */
    method Retry(envelope: Envelope) returns (retried: Retried)
      requires Valid()
      modifies this
      ensures Valid()
      ensures retried == if envelope.attempt >= MAX_ATTEMPTS then Exhausted else if old(Full()) then Waiting else Queued
      ensures queue == if retried.Queued? then old(queue) + [Next(envelope)] else old(queue)
      ensures unfinished == if retried.Queued? then old(unfinished) + 1 else old(unfinished)
    {
      if envelope.attempt >= MAX_ATTEMPTS { return Exhausted; }
      var accepted := PutNowait(Envelope(envelope.payload, envelope.traceId, envelope.attempt + 1));
      retried := if accepted then Queued else Waiting;
    }
  }

  /** How far a retry has come. */
  datatype Retried = Exhausted | Waiting | Queued

  function Traces(es: seq<Envelope>): (r: seq<TraceId>)
    ensures |r| == |es|
  {
    seq(|es|, i requires 0 <= i < |es| => es[i].traceId)
  }

  lemma TracesAdd(a: seq<Envelope>, b: seq<Envelope>)
    ensures Traces(a + b) == Traces(a) + Traces(b)
  {
  }

  datatype Outcome = Succeeded | GivenUp | Requeued

  /** One round of the consumer loop with nobody publishing meanwhile: take the oldest envelope,
      handle it, re-enqueue it if that failed. The slot it freed is still there. */
  method DeliverOne(bus: EventBus, failed: bool) returns (envelope: Envelope, outcome: Outcome)
    requires bus.Valid() && bus.queue != [] && bus.unfinished == |bus.queue|
    modifies bus
    ensures bus.Valid() && bus.unfinished == |bus.queue|
    ensures envelope == old(bus.queue)[0]
    ensures outcome == if !failed then Succeeded else if envelope.attempt < MAX_ATTEMPTS then Requeued else GivenUp
    ensures bus.queue == QueueAfter(old(bus.queue), outcome)
  {
    envelope := bus.Get();
    outcome := Succeeded;
    if failed {
      var retried := bus.Retry(envelope);
      outcome := if retried.Queued? then Requeued else GivenUp;
    }
    bus.TaskDone();
  }

  /** Trace ids that ended with a given outcome. */
  function Ended(envelope: Envelope, outcome: Outcome, which: Outcome): seq<TraceId> {
    if outcome == which then [envelope.traceId] else []
  }

  /** The queue after one round. */
  function QueueAfter(before: seq<Envelope>, outcome: Outcome): seq<Envelope>
    requires before != []
  {
    before[1..] + if outcome.Requeued? then [Next(before[0])] else []
  }

  /** Every handling lowers the budget. */
  lemma RoundLowersBudget(before: seq<Envelope>, outcome: Outcome)
    requires before != [] && forall e | e in before :: Deliverable(e)
    requires outcome.Requeued? ==> before[0].attempt < MAX_ATTEMPTS
    ensures forall e | e in QueueAfter(before, outcome) :: Deliverable(e)
    ensures 0 <= Budget(QueueAfter(before, outcome)) < Budget(before)
  {
    hide Budget;
    var e, rest := before[0], before[1..];
    assert before == [e] + rest && e in before;
    BudgetAdds([e], rest);
    BudgetOfOne(e);
    if outcome.Requeued? {
      BudgetAdds(rest, [Next(e)]);
      BudgetOfOne(Next(e));
    } else {
      assert rest + [] == rest;
    }
    BudgetBounds(QueueAfter(before, outcome));
  }

  /** Every handling leaves each trace id in exactly as many places as before. */
  lemma RoundKeepsTraces(before: seq<Envelope>, outcome: Outcome)
    requires before != []
    ensures multiset(Traces(before)) == multiset(Traces(QueueAfter(before, outcome)))
              + multiset(Ended(before[0], outcome, Succeeded)) + multiset(Ended(before[0], outcome, GivenUp))
  {
    hide Traces;
    var e, rest := before[0], before[1..];
    assert before == [e] + rest;
    TracesAdd([e], rest);
    TracesOfOne(e);
    if outcome.Requeued? {
      TracesAdd(rest, [Next(e)]);
      TracesOfOne(Next(e));
    } else {
      assert rest + [] == rest;
    }
  }

  lemma TracesOfOne(e: Envelope)
    ensures Traces([e]) == [e.traceId]
  {
  }

  /** The trace ids of the handlings that `pick` names, in order. */
  ghost predicate TracesOfPicked(ids: seq<TraceId>, handled: seq<Envelope>, pick: nat -> bool) {
    exists at: seq<nat> ::
      && |at| == |ids|
      && (forall i, j | 0 <= i < j < |at| :: at[i] < at[j])
      && (forall k: nat :: k in at <==> k < |handled| && pick(k))
      && (forall i | 0 <= i < |at| :: at[i] < |handled| && ids[i] == handled[at[i]].traceId)
  }

  lemma NonePicked(pick: nat -> bool)
    ensures TracesOfPicked([], [], pick)
  {
    var at: seq<nat> := [];
    assert forall k: nat :: k !in at;
  }

  lemma PickNext(ids: seq<TraceId>, handled: seq<Envelope>, pick: nat -> bool, next: nat -> bool, e: Envelope)
    requires TracesOfPicked(ids, handled, pick)
    requires forall k: nat | k < |handled| :: pick(k) <==> next(k)
    ensures TracesOfPicked(ids + if next(|handled|) then [e.traceId] else [], handled + [e], next)
  {
    var at: seq<nat> :|
      && |at| == |ids|
      && (forall i, j | 0 <= i < j < |at| :: at[i] < at[j])
      && (forall k: nat :: k in at <==> k < |handled| && pick(k))
      && (forall i | 0 <= i < |at| :: at[i] < |handled| && ids[i] == handled[at[i]].traceId);
    var n := |handled|;
    var now: seq<nat> := at + if next(n) then [n] else [];
    var all := ids + if next(n) then [e.traceId] else [];
    forall k: nat ensures k in now <==> k < n + 1 && next(k) {
      assert k in now <==> k in at || (next(n) && k == n);
    }
    assert |now| == |all| && forall i | 0 <= i < |now| :: now[i] < n + 1 && all[i] == (handled + [e])[now[i]].traceId;
  }

  /** Handling k failed before the third attempt and was followed by the next one, or will be. */
  ghost predicate TriedAgain(handled: seq<Envelope>, queue: seq<Envelope>, k: nat)
    requires k < |handled|
  {
    var e := handled[k];
    var again := Envelope(e.payload, e.traceId, e.attempt + 1);
    again in queue || exists j | k < j < |handled| :: handled[j] == again
  }

  /** What the consumer loop does while nobody publishes: `handled` lists the envelopes it handed
      to the handler, handling k of them failing exactly when `fails(k)`. */
  ghost predicate LoopOk(was: seq<Envelope>, queue: seq<Envelope>, handled: seq<Envelope>, fails: nat -> bool) {
    && (forall e | e in was :: e in handled || e in queue)
    && (forall k: nat | k < |handled| && fails(k) && handled[k].attempt < 3 :: TriedAgain(handled, queue, k))
  }

  lemma TriedAgainNext(handled: seq<Envelope>, queue: seq<Envelope>, k: nat, more: seq<Envelope>)
    requires queue != [] && k < |handled| && TriedAgain(handled, queue, k)
    ensures TriedAgain(handled + [queue[0]], queue[1..] + more, k)
  {
    var all := handled + [queue[0]];
    var again := Envelope(handled[k].payload, handled[k].traceId, handled[k].attempt + 1);
    assert queue == [queue[0]] + queue[1..];
    if again in queue {
      assert again == queue[0] ==> all[|handled|] == again;
    } else {
      var j :| k < j < |handled| && handled[j] == again;
      assert all[j] == again;
    }
  }

  lemma LoopNext(was: seq<Envelope>, queue: seq<Envelope>, handled: seq<Envelope>, fails: nat -> bool)
    requires queue != [] && LoopOk(was, queue, handled, fails)
    ensures var e := queue[0];
            var again := if fails(|handled|) && e.attempt < 3 then [Envelope(e.payload, e.traceId, e.attempt + 1)]
                else [];
            LoopOk(was, queue[1..] + again, handled + [e], fails)
  {
    hide TriedAgain;
    var e, n, all := queue[0], |handled|, handled + [queue[0]];
    var again := if fails(n) && e.attempt < 3 then [Envelope(e.payload, e.traceId, e.attempt + 1)] else [];
    var now := queue[1..] + again;
    assert queue == [e] + queue[1..];
    forall k: nat | k < |all| && fails(k) && all[k].attempt < 3 ensures TriedAgain(all, now, k) {
      if k < n { TriedAgainNext(handled, queue, k, again); } else { QueuedAgain(all, now, k); }
    }
  }

  lemma QueuedAgain(handled: seq<Envelope>, queue: seq<Envelope>, k: nat)
    requires k < |handled| && Envelope(handled[k].payload, handled[k].traceId, handled[k].attempt + 1) in queue
    ensures TriedAgain(handled, queue, k)
  {
  }

  /** The consumer loop while nobody publishes: it never waits on its own full queue and leaves
      nothing behind. An event succeeds exactly with a handling that does not fail, and is given
      up exactly with a third one that does; every other failure is followed by the next attempt. */
  method RunUntilIdle(bus: EventBus, fails: nat -> bool)
    returns (succeeded: seq<TraceId>, givenUp: seq<TraceId>, ghost handled: seq<Envelope>, handlings: nat)
    requires bus.Valid() && bus.unfinished == |bus.queue|
    requires forall e | e in bus.queue :: Deliverable(e)
    modifies bus
    ensures bus.Valid() && bus.queue == [] && bus.unfinished == 0
    ensures multiset(succeeded) + multiset(givenUp) == old(multiset(Traces(bus.queue)))
    ensures |handled| == handlings <= old(Budget(bus.queue))
    ensures TracesOfPicked(succeeded, handled, (k: nat) => !fails(k))
    ensures TracesOfPicked(givenUp, handled, (k: nat) => fails(k) && k < |handled| && handled[k].attempt == 3)
    ensures forall e | e in old(bus.queue) :: e in handled
    ensures forall k | 0 <= k < |handled| :: 1 <= handled[k].attempt <= 3
    ensures forall k: nat | k < |handled| && fails(k) && handled[k].attempt < 3 :: exists j | k < j < |handled| ::
      handled[j] == Envelope(handled[k].payload, handled[k].traceId, handled[k].attempt + 1)
    ensures (forall k: nat :: !fails(k)) ==> givenUp == []
  {
    hide Budget, Traces, RunOk, QueueAfter, Ended;
    succeeded, givenUp, handled, handlings := [], [], [], 0;
    RunStarts(bus.queue, fails);
    while bus.queue != []
      invariant bus.Valid() && bus.unfinished == |bus.queue| && |handled| == handlings
      invariant RunOk(old(bus.queue), bus.queue, succeeded, givenUp, handled, fails)
      decreases Budget(bus.queue)
    {
      ghost var before := bus.queue;
      var envelope, outcome := DeliverOne(bus, fails(handlings));
      RunNext(old(bus.queue), before, succeeded, givenUp, handled, fails, outcome);
      succeeded := succeeded + Ended(envelope, outcome, Succeeded);
      givenUp := givenUp + Ended(envelope, outcome, GivenUp);
      handled := handled + [envelope];
      handlings := handlings + 1;
    }
    RunEnds(old(bus.queue), succeeded, givenUp, handled, fails);
  }

  /** What the loop keeps. */
  ghost predicate RunOk(was: seq<Envelope>, queue: seq<Envelope>, succeeded: seq<TraceId>, givenUp: seq<TraceId>,
                        handled: seq<Envelope>, fails: nat -> bool) {
    && (forall e | e in queue :: Deliverable(e)) && (forall e | e in handled :: Deliverable(e))
    && multiset(succeeded) + multiset(givenUp) + multiset(Traces(queue)) == multiset(Traces(was))
    && |handled| + Budget(queue) <= Budget(was)
    && TracesOfPicked(succeeded, handled, (k: nat) => !fails(k))
    && TracesOfPicked(givenUp, handled, GivesUp(fails, handled))
    && LoopOk(was, queue, handled, fails)
    && ((forall k: nat :: !fails(k)) ==> givenUp == [])
  }

  lemma RunStarts(queue: seq<Envelope>, fails: nat -> bool)
    requires forall e | e in queue :: Deliverable(e)
    ensures RunOk(queue, queue, [], [], [], fails)
  {
    hide Budget, Traces, TracesOfPicked;
    NonePicked((k: nat) => !fails(k));
    NonePicked(GivesUp(fails, []));
  }

  lemma RunNext(was: seq<Envelope>, before: seq<Envelope>, succeeded: seq<TraceId>, givenUp: seq<TraceId>,
                handled: seq<Envelope>, fails: nat -> bool, outcome: Outcome)
    requires before != [] && RunOk(was, before, succeeded, givenUp, handled, fails)
    requires outcome == if !fails(|handled|) then Succeeded else if before[0].attempt < MAX_ATTEMPTS then Requeued
        else GivenUp
    ensures RunOk(was, QueueAfter(before, outcome), succeeded + Ended(before[0], outcome, Succeeded),
                  givenUp + Ended(before[0], outcome, GivenUp), handled + [before[0]], fails)
    ensures 0 <= Budget(QueueAfter(before, outcome)) < Budget(before)
  {
    hide Budget, Traces, TracesOfPicked, LoopOk;
    var e := before[0];
    assert e in before;
    LoopNext(was, before, handled, fails);
    RoundLowersBudget(before, outcome);
    RoundKeepsTraces(before, outcome);
    PickNext(succeeded, handled, (k: nat) => !fails(k), (k: nat) => !fails(k), e);
    PickNext(givenUp, handled, GivesUp(fails, handled), GivesUp(fails, handled + [e]), e);
  }

  lemma RunEnds(was: seq<Envelope>, succeeded: seq<TraceId>, givenUp: seq<TraceId>, handled: seq<Envelope>,
                fails: nat -> bool)
    requires RunOk(was, [], succeeded, givenUp, handled, fails)
    ensures multiset(succeeded) + multiset(givenUp) == multiset(Traces(was)) && |handled| <= Budget(was)
    ensures TracesOfPicked(succeeded, handled, (k: nat) => !fails(k))
    ensures TracesOfPicked(givenUp, handled, (k: nat) => fails(k) && k < |handled| && handled[k].attempt == 3)
    ensures forall e | e in was :: e in handled
    ensures forall k | 0 <= k < |handled| :: 1 <= handled[k].attempt <= 3
    ensures forall k: nat | k < |handled| && fails(k) && handled[k].attempt < 3 :: exists j | k < j < |handled| ::
      handled[j] == Envelope(handled[k].payload, handled[k].traceId, handled[k].attempt + 1)
    ensures (forall k: nat :: !fails(k)) ==> givenUp == []
  {
    hide TracesOfPicked, LoopOk;
    NothingLeft();
    forall k | 0 <= k < |handled| ensures 1 <= handled[k].attempt <= 3 { assert handled[k] in handled; }
    PickSame(givenUp, handled, GivesUp(fails, handled), (k: nat) => fails(k) && k < |handled|
        && handled[k].attempt == 3);
    LoopEnds(was, handled, fails);
  }

  /** The handlings with which an event is given up. */
  ghost function GivesUp(fails: nat -> bool, handled: seq<Envelope>): nat -> bool {
    (k: nat) => fails(k) && k < |handled| && handled[k].attempt == 3
  }

  /** An event that fails twice and not a third time has succeeded. */
  lemma ThirdTimeSucceeds(succeeded: seq<TraceId>, handled: seq<Envelope>, fails: nat -> bool, first: nat)
    requires TracesOfPicked(succeeded, handled, (k: nat) => !fails(k))
    requires forall k: nat | k < |handled| && fails(k) && handled[k].attempt < 3 :: exists j | k < j < |handled| ::
      handled[j] == Envelope(handled[k].payload, handled[k].traceId, handled[k].attempt + 1)
    requires first < |handled| && handled[first].attempt == 1
    requires forall k: nat | k < |handled|
        && handled[k].traceId == handled[first].traceId :: fails(k) <==> handled[k].attempt < 3
    ensures handled[first].traceId in succeeded
  {
    var second: nat :| first < second < |handled|
        && handled[second] == Envelope(handled[first].payload, handled[first].traceId, 2);
    var third: nat :| second < third < |handled|
        && handled[third] == Envelope(handled[first].payload, handled[first].traceId, 3);
    var at: seq<nat> :|
      && |at| == |succeeded|
      && (forall i, j | 0 <= i < j < |at| :: at[i] < at[j])
      && (forall k: nat :: k in at <==> k < |handled| && !fails(k))
      && (forall i | 0 <= i < |at| :: at[i] < |handled| && succeeded[i] == handled[at[i]].traceId);
    assert third in at;
    var i :| 0 <= i < |at| && at[i] == third;
  }

  lemma PickSame(ids: seq<TraceId>, handled: seq<Envelope>, pick: nat -> bool, same: nat -> bool)
    requires TracesOfPicked(ids, handled, pick) && forall k: nat | k < |handled| :: pick(k) <==> same(k)
    ensures TracesOfPicked(ids, handled, same)
  {
  }

  lemma LoopEnds(was: seq<Envelope>, handled: seq<Envelope>, fails: nat -> bool)
    requires LoopOk(was, [], handled, fails)
    ensures forall e | e in was :: e in handled
    ensures forall k: nat | k < |handled| && fails(k) && handled[k].attempt < 3 :: exists j | k < j < |handled| ::
      handled[j] == Envelope(handled[k].payload, handled[k].traceId, handled[k].attempt + 1)
  {
    forall k: nat | k < |handled| && fails(k) && handled[k].attempt < 3
      ensures exists j | k < j < |handled| ::
        handled[j] == Envelope(handled[k].payload, handled[k].traceId, handled[k].attempt + 1)
    {
      assert TriedAgain(handled, [], k);
    }
  }

  lemma NothingLeft()
    ensures Budget([]) == 0 && Traces([]) == []
  {
  }
}
