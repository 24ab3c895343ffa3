/** What every run of the delivery protocol keeps. */
module DeliverySafety {
  import opened Wrappers
  import opened Topology
  import opened Delivery

  // ----- sums over copies

  function Total(copies: seq<Copy>, weight: Copy -> nat): nat {
    if copies == [] then 0 else Total(copies[..|copies| - 1], weight) + weight(copies[|copies| - 1])
  }

  lemma {:induction false} TotalUpdate(copies: seq<Copy>, i: nat, c: Copy, weight: Copy -> nat)
    requires i < |copies|
    ensures Total(copies[i := c], weight) + weight(copies[i]) == Total(copies, weight) + weight(c)
  {
    var last := |copies| - 1;
    if i == last {
      assert copies[i := c][..last] == copies[..last];
    } else {
      assert copies[i := c][..last] == copies[..last][i := c];
      TotalUpdate(copies[..last], i, c, weight);
    }
  }

  lemma TotalAppend(copies: seq<Copy>, c: Copy, weight: Copy -> nat)
    ensures Total(copies + [c], weight) == Total(copies, weight) + weight(c)
  {
    assert (copies + [c])[..|copies|] == copies;
  }

  lemma {:induction false} TotalWitness(copies: seq<Copy>, weight: Copy -> nat)
    requires Total(copies, weight) > 0
    ensures exists i :: 0 <= i < |copies| && weight(copies[i]) > 0
  {
    var last := |copies| - 1;
    if weight(copies[last]) == 0 {
      TotalWitness(copies[..last], weight);
      var i :| 0 <= i < last && weight(copies[..last][i]) > 0;
      assert copies[..last][i] == copies[i];
    }
  }

  // ----- conservation: a copy is worth one event until its handler has passed the event on

  function Share(c: Copy): nat {
    if c.place.Settled? || (c.place.Unacked? && c.place.phase.MayAck?) then 0 else 1
  }

  function ShareOf(event: EventId): Copy -> nat {
    (c: Copy) => if c.event == event then Share(c) else 0
  }

  function Once(s: State, event: EventId): nat {
    if event in s.stored then 1 else 0
  }

  ghost predicate Conserved(s: State, event: EventId) {
    s.accepted[event] + Total(s.copies, ShareOf(event)) == Once(s, event) + s.doubled[event]
  }

  // ----- work: attempts that a copy may still cause

  function Remaining(c: Copy): nat {
    var left := if c.attempt < MAX_DELIVERY_ATTEMPTS then MAX_DELIVERY_ATTEMPTS - c.attempt else 0;
    match c.place
    case Queued(queue, _) => if queue.DeadLetterQueue? then 0 else left
    case Unacked(_, Taken) => left
    case Unacked(_, ToRetry(_)) => if left > 0 then left - 1 else 0
    case _ => 0
  }

  function RemainingOf(event: EventId): Copy -> nat {
    (c: Copy) => if c.event == event then Remaining(c) else 0
  }

  ghost predicate Bounded(s: State, event: EventId) {
    s.posts[event] + Total(s.copies, RemainingOf(event))
      <= MAX_DELIVERY_ATTEMPTS * (Once(s, event) + s.requeues[event])
  }

  // ----- the retry ladder

  /** The time a copy spends in retry queues before its stored attempt becomes `attempt`. */
  function DelaySum(attempt: nat): nat {
    if attempt == 0 then 0 else DelaySum(attempt - 1) + RETRY_DELAYS_MS[RetryIndex(attempt)]
  }

  lemma {:induction false} DelaySumTail(attempt: nat)
    requires attempt >= 3
    ensures DelaySum(attempt) == 450_000 + 300_000 * (attempt - 3)
  {
    if attempt == 3 {
      assert DelaySum(1) == 30_000 && DelaySum(2) == 150_000;
    } else {
      DelaySumTail(attempt - 1);
    }
  }

  ghost predicate ClimbedBy(c: Copy, t: int) {
    c.firstFailure.Some? ==> t >= c.firstFailure.value + DelaySum(c.attempt)
  }

  ghost predicate LimitRecordOk(s: State, c: Copy, record: DlqRecord) {
    record.reason.AttemptLimitExceeded? ==>
      && c.attempt == MAX_DELIVERY_ATTEMPTS - 1
      && (c.event, record.at) in s.failures
      && ClimbedBy(c, record.at)
  }

  ghost predicate PlaceOk(s: State, c: Copy) {
    match c.place
    case Settled => true
    case Queued(MainQueue(signal), _) => signal == c.signal && ClimbedBy(c, s.now)
    case Queued(RetryQueue(signal, index), since) =>
      && signal == c.signal
      && c.firstFailure.Some?
      && c.attempt > 0
      && index == RetryIndex(c.attempt)
      && since <= s.now
      && since >= c.firstFailure.value + DelaySum(c.attempt - 1)
    case Queued(DeadLetterQueue(signal), _) => signal == c.signal
    case Unacked(queue, phase) =>
      && queue == MainQueue(c.signal)
      && ClimbedBy(c, s.now)
      && (phase.ToRetry? ==>
            && c.attempt + 1 < MAX_DELIVERY_ATTEMPTS
            && phase.at <= s.now
            && (c.event, phase.at) in s.failures
            && ClimbedBy(c, phase.at))
      && (phase.ToDlq? ==> LimitRecordOk(s, c, phase.record))
  }

  ghost predicate CopyOk(s: State, c: Copy) {
    && c.event in s.stored
    && c.attempt < MAX_DELIVERY_ATTEMPTS
    && (c.attempt > 0 <==> c.firstFailure.Some?)
    && (c.firstFailure.Some? ==> (c.event, c.firstFailure.value) in s.failures)
    && (c.dlq.Some? ==> LimitRecordOk(s, c, c.dlq.value))
    && PlaceOk(s, c)
  }

  ghost predicate Inv(s: State) {
    && (forall i :: 0 <= i < |s.copies| ==> CopyOk(s, s.copies[i]))
    && s.answered <= s.stored
  }

  // ----- every step keeps the invariant on copies

  ghost predicate Grows(s: State, s': State) {
    && s.now <= s'.now
    && s.stored <= s'.stored
    && s.failures <= s'.failures
    && s'.answered <= s'.stored
  }

  lemma CopyOkGrows(s: State, s': State, c: Copy)
    requires CopyOk(s, c) && Grows(s, s')
    ensures CopyOk(s', c)
  {}

  /** One copy moves, the others only see time and history grow. */
  lemma MoveKeepsInv(s: State, s': State, i: nat, c: Copy)
    requires Inv(s) && Grows(s, s') && i < |s.copies|
    requires s'.copies == s.copies[i := c] && CopyOk(s', c)
    ensures Inv(s')
  {
    forall j | 0 <= j < |s'.copies| ensures CopyOk(s', s'.copies[j]) {
      if j != i { CopyOkGrows(s, s', s.copies[j]); }
    }
  }

  lemma AppendKeepsInv(s: State, s': State, c: Copy)
    requires Inv(s) && Grows(s, s')
    requires s'.copies == s.copies + [c] && CopyOk(s', c)
    ensures Inv(s')
  {
    forall j | 0 <= j < |s'.copies| ensures CopyOk(s', s'.copies[j]) {
      if j < |s.copies| { CopyOkGrows(s, s', s.copies[j]); }
    }
  }

  lemma RepublishKeepsInv(s: State, i: nat)
    requires Inv(s) && i < |s.copies| && s.copies[i].place.Unacked? && DoRepublish(s, i).Some?
    ensures Inv(DoRepublish(s, i).value)
  {
    var c := s.copies[i];
    assert CopyOk(s, c);
    var s1 := s.Put(i, c.place.(phase := MayAck));
    MoveKeepsInv(s, s1, i, c.(place := c.place.(phase := MayAck)));
    var s' := DoRepublish(s, i).value;
    AppendKeepsInv(s1, s', s'.copies[|s.copies|]);
  }

  lemma PostKeepsInv(s: State, i: nat, outcome: Outcome)
    requires Inv(s) && InPhase(s, i, Taken)
    ensures Inv(DoPost(s, i, outcome))
  {
    assert CopyOk(s, s.copies[i]);
    var s' := DoPost(s, i, outcome);
    MoveKeepsInv(s, s', i, s'.copies[i]);
  }

  lemma ExpireKeepsInv(s: State, i: nat)
    requires Inv(s) && i < |s.copies| && DoExpire(s, i).Some?
    ensures Inv(DoExpire(s, i).value)
  {
    assert CopyOk(s, s.copies[i]);
    var s' := DoExpire(s, i).value;
    MoveKeepsInv(s, s', i, s'.copies[i]);
  }

  lemma RequeueKeepsInv(s: State, i: nat, limitReached: bool)
    requires Inv(s) && i < |s.copies| && s.copies[i].place.Unacked?
    ensures Inv(DoRequeue(s, i, limitReached))
  {
    assert CopyOk(s, s.copies[i]);
    var s' := DoRequeue(s, i, limitReached);
    MoveKeepsInv(s, s', i, s'.copies[i]);
  }

  lemma StepKeepsInv(s: State, step: Step)
    requires Inv(s) && Next(s, step).Some?
    ensures Inv(Next(s, step).value)
  {
    var s' := Next(s, step).value;
    match step
    case Tick(_) => forall j | 0 <= j < |s.copies| ensures CopyOk(s', s.copies[j]) { CopyOkGrows(s, s', s.copies[j]); }
    case Ingest(_, _, _) => AppendKeepsInv(s, s', s'.copies[|s.copies|]);
    case Answer(_) => forall j | 0 <= j < |s.copies| ensures CopyOk(s', s.copies[j]) { CopyOkGrows(s, s', s.copies[j]); }
    case Post(i, outcome) => PostKeepsInv(s, i, outcome);
    case Republish(i) => RepublishKeepsInv(s, i);
    case Requeue(i, limitReached) => RequeueKeepsInv(s, i, limitReached);
    case Expire(i) => ExpireKeepsInv(s, i);
    case Take(i) => assert CopyOk(s, s.copies[i]); MoveKeepsInv(s, s', i, s'.copies[i]);
    case Reject(i) => assert CopyOk(s, s.copies[i]); MoveKeepsInv(s, s', i, s'.copies[i]);
    case Ack(i) => assert CopyOk(s, s.copies[i]); MoveKeepsInv(s, s', i, s'.copies[i]);
  }

  lemma {:induction false} ExecKeepsInv(s: State, steps: seq<Step>)
    requires Inv(s) && Exec(s, steps).Some?
    ensures Inv(Exec(s, steps).value)
    decreases |steps|
  {
    if steps != [] {
      StepKeepsInv(s, steps[0]);
      ExecKeepsInv(Next(s, steps[0]).value, steps[1..]);
    }
  }

  // ----- every step keeps the two balances

  lemma MoveTotals(s: State, s': State, i: nat, c: Copy, event: EventId)
    requires i < |s.copies| && s'.copies == s.copies[i := c]
    ensures Total(s'.copies, ShareOf(event)) + ShareOf(event)(s.copies[i])
         == Total(s.copies, ShareOf(event)) + ShareOf(event)(c)
    ensures Total(s'.copies, RemainingOf(event)) + RemainingOf(event)(s.copies[i])
         == Total(s.copies, RemainingOf(event)) + RemainingOf(event)(c)
  {
    TotalUpdate(s.copies, i, c, ShareOf(event));
    TotalUpdate(s.copies, i, c, RemainingOf(event));
  }

  lemma AppendTotals(s: State, s': State, c: Copy, event: EventId)
    requires s'.copies == s.copies + [c]
    ensures Total(s'.copies, ShareOf(event)) == Total(s.copies, ShareOf(event)) + ShareOf(event)(c)
    ensures Total(s'.copies, RemainingOf(event)) == Total(s.copies, RemainingOf(event)) + RemainingOf(event)(c)
  {
    TotalAppend(s.copies, c, ShareOf(event));
    TotalAppend(s.copies, c, RemainingOf(event));
  }

  ghost predicate Balanced(s: State, event: EventId) {
    Conserved(s, event) && Bounded(s, event) && s.doubled[event] <= s.requeues[event]
  }

  /** The published body takes over the share of the copy it came from, and no more attempts than it had. */
  lemma HandOverKeepsBalance(s: State, i: nat, key: RoutingKey, body: Copy, event: EventId)
    requires i < |s.copies| && s.copies[i].place.Unacked? && Share(s.copies[i]) == 1 && Balanced(s, event)
    requires body.event == s.copies[i].event
    requires Remaining(body.(place := Queued(Route(key), s.now))) <= Remaining(s.copies[i])
    ensures Balanced(s.Put(i, s.copies[i].place.(phase := MayAck)).Publish(key, body), event)
  {
    var s1 := s.Put(i, s.copies[i].place.(phase := MayAck));
    MoveTotals(s, s1, i, s1.copies[i], event);
    AppendTotals(s1, s1.Publish(key, body), body.(place := Queued(Route(key), s.now)), event);
  }

  lemma RepublishKeepsBalance(s: State, i: nat, event: EventId)
    requires Inv(s) && i < |s.copies| && s.copies[i].place.Unacked? && DoRepublish(s, i).Some?
    requires Balanced(s, event)
    ensures Balanced(DoRepublish(s, i).value, event)
  {
    var c := s.copies[i];
    match c.place.phase
    case ToRetry(at) =>
      var first := if c.firstFailure.Some? then c.firstFailure else Some(at);
      var retried := c.(attempt := c.attempt + 1, firstFailure := first);
      HandOverKeepsBalance(s, i, RetryRoutingKey(c.signal, retried.attempt), retried, event);
    case ToDlq(record) => HandOverKeepsBalance(s, i, DlqKey(c.signal), c.(dlq := Some(record)), event);
  }

  lemma PostKeepsBalance(s: State, i: nat, outcome: Outcome, event: EventId)
    requires Inv(s) && InPhase(s, i, Taken) && Balanced(s, event)
    ensures Balanced(DoPost(s, i, outcome), event)
  {
    assert CopyOk(s, s.copies[i]);
    var s' := DoPost(s, i, outcome);
    MoveTotals(s, s', i, s'.copies[i], event);
  }

  lemma RequeueKeepsBalance(s: State, i: nat, limitReached: bool, event: EventId)
    requires Inv(s) && i < |s.copies| && s.copies[i].place.Unacked? && Balanced(s, event)
    ensures Balanced(DoRequeue(s, i, limitReached), event)
  {
    assert CopyOk(s, s.copies[i]);
    var s' := DoRequeue(s, i, limitReached);
    MoveTotals(s, s', i, s'.copies[i], event);
  }

  /** A first copy brings its event's one share and sixteen attempts. */
  lemma IngestKeepsBalance(s: State, s': State, c: Copy, event: EventId)
    requires s' == s.(copies := s.copies + [c], stored := s.stored + {c.event}) && c.event !in s.stored
    requires Share(c) == 1 && Remaining(c) == MAX_DELIVERY_ATTEMPTS
    requires Balanced(s, event)
    ensures Balanced(s', event)
  {
    AppendTotals(s, s', c, event);
  }

  /** A copy that moves without losing its share, and without gaining attempts. */
  lemma MoveKeepsBalance(s: State, i: nat, place: Place, event: EventId)
    requires i < |s.copies| && Balanced(s, event)
    requires Share(s.copies[i].(place := place)) == Share(s.copies[i])
    requires Remaining(s.copies[i].(place := place)) <= Remaining(s.copies[i])
    ensures Balanced(s.Put(i, place), event)
  {
    MoveTotals(s, s.Put(i, place), i, s.copies[i].(place := place), event);
  }

  lemma PlainStepKeepsBalance(s: State, step: Step, event: EventId)
    requires Next(s, step).Some? && Balanced(s, event)
    requires step.Take? || step.Reject? || step.Ack? || step.Expire?
    ensures Balanced(Next(s, step).value, event)
  {
    match step
    case Take(i) => MoveKeepsBalance(s, i, Unacked(s.copies[i].place.queue, Taken), event);
    case Reject(i) =>
      MoveKeepsBalance(s, i, s.copies[i].place.(phase := ToDlq(DlqRecord(PermanentPayloadFailure, s.now))), event);
    case Ack(i) => MoveKeepsBalance(s, i, Settled, event);
    case Expire(i) => MoveKeepsBalance(s, i, DoExpire(s, i).value.copies[i].place, event);
  }

  lemma StepKeepsBalance(s: State, step: Step, event: EventId)
    requires Inv(s) && Next(s, step).Some? && Balanced(s, event)
    ensures Balanced(Next(s, step).value, event)
  {
    match step
    case Tick(_) =>
    case Answer(_) =>
    case Ingest(_, _, _) =>
      var s' := Next(s, step).value;
      IngestKeepsBalance(s, s', s'.copies[|s.copies|], event);
    case Post(i, outcome) => PostKeepsBalance(s, i, outcome, event);
    case Republish(i) => RepublishKeepsBalance(s, i, event);
    case Requeue(i, limitReached) => RequeueKeepsBalance(s, i, limitReached, event);
    case _ => PlainStepKeepsBalance(s, step, event);
  }

  lemma {:induction false} ExecKeepsBalance(s: State, steps: seq<Step>, event: EventId)
    requires Inv(s) && Exec(s, steps).Some? && Balanced(s, event)
    ensures Balanced(Exec(s, steps).value, event)
    decreases |steps|
  {
    if steps != [] {
      StepKeepsInv(s, steps[0]);
      StepKeepsBalance(s, steps[0], event);
      ExecKeepsBalance(Next(s, steps[0]).value, steps[1..], event);
    }
  }

  lemma ReachableOk(s: State, event: EventId)
    requires Reachable(s)
    ensures Inv(s) && Balanced(s, event)
  {
    var steps :| Exec(INIT, steps) == Some(s);
    ExecKeepsInv(INIT, steps);
    ExecKeepsBalance(INIT, steps, event);
  }

  // ----- main results

  /** A copy that still stands for its event: in a queue, dead-lettered, or in unfinished hands. */
  ghost predicate Holds(c: Copy, event: EventId) {
    c.event == event && !c.place.Settled? && !(c.place.Unacked? && c.place.phase.MayAck?)
  }

  /** Acceptances and standing copies account for the event exactly, with one more for each
      requeue of a message whose handler had already finished. */
  lemma Conservation(s: State, event: EventId)
    requires Reachable(s)
    ensures s.accepted[event] + Total(s.copies, ShareOf(event))
         == (if event in s.stored then 1 else 0) + s.doubled[event]
  {
    ReachableOk(s, event);
  }

  /** An event answered 202 is never lost, whatever crashes, nacks and dead-letterings happen. */
  lemma AnsweredNeverLost(s: State, event: EventId)
    requires Reachable(s) && event in s.answered
    ensures s.accepted[event] > 0 || exists i :: 0 <= i < |s.copies| && Holds(s.copies[i], event)
  {
    ReachableOk(s, event);
    if s.accepted[event] == 0 {
      TotalWitness(s.copies, ShareOf(event));
      var i :| 0 <= i < |s.copies| && ShareOf(event)(s.copies[i]) > 0;
      assert Holds(s.copies[i], event);
    }
  }

  /** Without requeues of finished messages nothing is delivered twice, nor delivered and kept. */
  lemma NoDuplicateWithoutLateRequeue(s: State, event: EventId, i: nat, j: nat)
    requires Reachable(s) && s.doubled[event] == 0
    ensures s.accepted[event] <= 1
    ensures i < |s.copies| && Holds(s.copies[i], event) ==> s.accepted[event] == 0
    ensures i < j < |s.copies| ==> !(Holds(s.copies[i], event) && Holds(s.copies[j], event))
  {
    ReachableOk(s, event);
    if i < |s.copies| && Holds(s.copies[i], event) {
      TotalUpdate(s.copies, i, s.copies[i].(place := Settled), ShareOf(event));
      if i < j < |s.copies| && Holds(s.copies[j], event) {
        var t := s.copies[i := s.copies[i].(place := Settled)];
        TotalUpdate(t, j, t[j].(place := Settled), ShareOf(event));
      }
    }
  }

  /** At most 16 POSTs per life of the event, and one more life per requeue. */
  lemma WorkBound(s: State, event: EventId)
    requires Reachable(s)
    ensures s.posts[event] + Total(s.copies, RemainingOf(event)) <= 16 * (1 + s.requeues[event])
    ensures s.accepted[event] + Total(s.copies, ShareOf(event)) <= 1 + s.doubled[event] <= 1 + s.requeues[event]
  {
    ReachableOk(s, event);
  }

  /** A stored attempt is paid for by the delays of the rungs it climbed. */
  lemma AttemptTakesItsDelays(s: State, i: nat)
    requires Reachable(s) && i < |s.copies|
    requires var p := s.copies[i].place; p.Unacked? || (p.Queued? && p.queue.MainQueue?)
    requires s.copies[i].attempt > 0
    ensures exists t :: (s.copies[i].event, t) in s.failures && s.now >= t + DelaySum(s.copies[i].attempt)
  {
    ReachableOk(s, s.copies[i].event);
    var c := s.copies[i];
    assert CopyOk(s, c);
    assert (c.event, c.firstFailure.value) in s.failures;
  }

  const LADDER_MS := 4_050_000

  /** A copy is dead-lettered for the attempt limit only after failures at least 4050 s apart. */
  lemma AttemptLimitNeedsLongOutage(s: State, i: nat)
    requires Reachable(s) && i < |s.copies|
    requires s.copies[i].dlq.Some? && s.copies[i].dlq.value.reason.AttemptLimitExceeded?
    ensures s.copies[i].attempt == 15
    ensures exists t, u :: (s.copies[i].event, t) in s.failures && (s.copies[i].event, u) in s.failures && u - t >= LADDER_MS
  {
    var c := s.copies[i];
    ReachableOk(s, c.event);
    assert CopyOk(s, c);
    DelaySumTail(15);
    assert (c.event, c.firstFailure.value) in s.failures && (c.event, c.dlq.value.at) in s.failures;
  }

  /** An event whose only failures fall into one outage shorter than the ladder survives it. */
  lemma OutageSurvival(s: State, event: EventId, from: int, i: nat)
    requires Reachable(s) && i < |s.copies| && s.copies[i].event == event
    requires forall t :: (event, t) in s.failures ==> from <= t < from + LADDER_MS
    ensures s.copies[i].dlq.Some? ==> !s.copies[i].dlq.value.reason.AttemptLimitExceeded?
  {
    if s.copies[i].dlq.Some? && s.copies[i].dlq.value.reason.AttemptLimitExceeded? {
      AttemptLimitNeedsLongOutage(s, i);
    }
  }

  /** No copy ever sits in a queue of the other signal. */
  lemma SignalsNeverMix(s: State, i: nat)
    requires Reachable(s) && i < |s.copies| && !s.copies[i].place.Settled?
    ensures s.copies[i].place.queue.signal == s.copies[i].signal
  {
    ReachableOk(s, s.copies[i].event);
    assert CopyOk(s, s.copies[i]);
  }
}
