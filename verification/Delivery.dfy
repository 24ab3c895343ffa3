/**
 The durable delivery protocol: ingest publishes an event with a confirm, the worker takes a copy,
 POSTs it, republishes it (to a retry rung or to the dead letters) with a confirm, and only then acks.

 Every `await` of the sources is a step boundary, so any number of handlers may interleave, and a
 crashed worker is any sequence of `Requeue` steps.  A message is a position in `copies`; it is never
 removed, an acked one is `Settled`.  The broker is assumed to keep what it confirmed and to move
 dead-lettered messages without loss.
 */
module Delivery {
  import opened Wrappers
  import opened Topology

  type EventId = string

  /** What a POST to OpenObserve returned. */
  datatype Outcome = Response(status: int) | Timeout | ConnectionError

  datatype Classification = Accepted | Retryable | Permanent

  function ClassifyResponse(status: int): Classification {
    if 200 <= status < 300 then Accepted
    else if status == 408 || status == 429 || status >= 500 then Retryable
    else Permanent
  }

  function Classify(outcome: Outcome): Classification {
    match outcome
    case Response(status) => ClassifyResponse(status)
    case Timeout => Retryable
    case ConnectionError => Retryable
  }

  /** OpenObserve has answered that it stored the event. */
  predicate Stored(outcome: Outcome) {
    outcome.Response? && 200 <= outcome.status < 300
  }

  /** An answer that may be different later, or none. */
  predicate Transient(outcome: Outcome) {
    outcome.Response? ==> outcome.status == 408 || outcome.status == 429 || outcome.status >= 500
  }

  lemma ClassifyMeans(outcome: Outcome)
    ensures Classify(outcome).Accepted? <==> Stored(outcome)
    ensures Classify(outcome).Retryable? <==> Transient(outcome)
  {}

  datatype DlqReason = PermanentPayloadFailure | AttemptLimitExceeded | PermanentRejection

  datatype DlqRecord = DlqRecord(reason: DlqReason, at: int)

  /** How far the handler of an unacked message has come. */
  datatype Phase = Taken | ToRetry(at: int) | ToDlq(record: DlqRecord) | MayAck

  datatype Place = Queued(queue: Queue, since: int) | Unacked(queue: Queue, phase: Phase) | Settled

  /**
   `refused` says whether the checks of the body (shape and unsafe text) turn this body down; it never
   changes.  `attempt` is the counter stored in the message body.  `firstFailure` is a history variable: when
   the lineage of this copy first met a retryable failure.
   */
  datatype Copy = Copy(
    event: EventId,
    signal: Signal,
    refused: bool,
    attempt: nat,
    firstFailure: Option<int>,
    dlq: Option<DlqRecord>,
    place: Place)

  /**
   `posts`, `accepted`, `requeues`, `doubled` and `failures` are history: POSTs made, POSTs answered
   2xx, requeues, requeues of a copy whose handler had already finished its work, and retryable
   failures with their times.
   */
  datatype State = State(
    now: int,
    copies: seq<Copy>,
    stored: set<EventId>,
    answered: set<EventId>,
    posts: multiset<EventId>,
    accepted: multiset<EventId>,
    requeues: multiset<EventId>,
    doubled: multiset<EventId>,
    failures: set<(EventId, int)>)
  {
    function Put(i: nat, place: Place): State
      requires i < |copies|
    {
      this.(copies := copies[i := copies[i].(place := place)])
    }

    function Publish(key: RoutingKey, copy: Copy): State {
      this.(copies := copies + [copy.(place := Queued(Route(key), now))])
    }
  }

  const INIT := State(0, [], {}, {}, multiset{}, multiset{}, multiset{}, multiset{}, {})

  datatype Step =
    | Tick(ms: nat)
    | Ingest(event: EventId, signal: Signal, refused: bool)
    | Answer(event: EventId)
    | Take(i: nat)
    | Reject(i: nat)
    | Post(i: nat, outcome: Outcome)
    | Republish(i: nat)
    | Ack(i: nat)
    | Requeue(i: nat, limitReached: bool)
    | Expire(i: nat)

  predicate InPhase(s: State, i: nat, phase: Phase) {
    i < |s.copies| && s.copies[i].place.Unacked? && s.copies[i].place.phase == phase
  }

  /** What the handler decides once it has seen the outcome of its POST at time `at`. */
  function Verdict(copy: Copy, outcome: Outcome, at: int): Phase {
    match Classify(outcome)
    case Accepted => MayAck
    case Retryable =>
      if copy.attempt + 1 < MAX_DELIVERY_ATTEMPTS then ToRetry(at)
      else ToDlq(DlqRecord(AttemptLimitExceeded, at))
    case Permanent => ToDlq(DlqRecord(PermanentRejection, at))
  }

  function DoPost(s: State, i: nat, outcome: Outcome): State
    requires i < |s.copies| && s.copies[i].place.Unacked?
  {
    var c := s.copies[i];
    s.Put(i, c.place.(phase := Verdict(c, outcome, s.now))).(
      posts := s.posts + multiset{c.event},
      accepted := if Classify(outcome).Accepted? then s.accepted + multiset{c.event} else s.accepted,
      failures := if Classify(outcome).Retryable? then s.failures + {(c.event, s.now)} else s.failures)
  }

  /** The retried body carries the incremented attempt; the dead-lettered one is the original body. */
  function DoRepublish(s: State, i: nat): Option<State>
    requires i < |s.copies| && s.copies[i].place.Unacked?
  {
    var c := s.copies[i];
    var s' := s.Put(i, c.place.(phase := MayAck));
    match c.place.phase
    case ToRetry(at) =>
      var retried := c.(attempt := c.attempt + 1,
                        firstFailure := if c.firstFailure.Some? then c.firstFailure else Some(at));
      Some(s'.Publish(RetryRoutingKey(c.signal, retried.attempt), retried))
    case ToDlq(record) => Some(s'.Publish(DlqKey(c.signal), c.(dlq := Some(record))))
    case _ => None
  }

  function DoRequeue(s: State, i: nat, limitReached: bool): State
    requires i < |s.copies| && s.copies[i].place.Unacked?
  {
    var c := s.copies[i];
    var queue := if limitReached then DeadLetterQueue(c.place.queue.signal) else c.place.queue;
    s.Put(i, Queued(queue, s.now)).(
      requeues := s.requeues + multiset{c.event},
      doubled := if c.place.phase.MayAck? then s.doubled + multiset{c.event} else s.doubled)
  }

  /** The time-to-live transfer of a retry queue, to the routing key it was declared with. */
  function DoExpire(s: State, i: nat): Option<State>
    requires i < |s.copies|
  {
    match s.copies[i].place
    case Queued(RetryQueue(signal, index), since) =>
      if index < |RETRY_DELAYS_MS| && s.now >= since + RETRY_DELAYS_MS[index] then
        Some(s.Put(i, Queued(Route(DeadLetterKey(RetryQueue(signal, index)).value), s.now)))
      else None
    case _ => None
  }

  /** One step of the whole system; None when the step is not enabled. */
  function Next(s: State, step: Step): Option<State> {
    match step
    case Tick(ms) => Some(s.(now := s.now + ms))
    case Ingest(event, signal, refused) =>
      if event in s.stored then None
      else Some(s.Publish(MainKey(signal), Copy(event, signal, refused, 0, None, None, Settled))
                 .(stored := s.stored + {event}))
    case Answer(event) =>
      if event in s.stored then Some(s.(answered := s.answered + {event})) else None
    case Take(i) =>
      if i < |s.copies| && s.copies[i].place.Queued? && s.copies[i].place.queue.MainQueue? then
        Some(s.Put(i, Unacked(s.copies[i].place.queue, Taken)))
      else None
    case Reject(i) =>
      if InPhase(s, i, Taken) && s.copies[i].refused then
        Some(s.Put(i, s.copies[i].place.(phase := ToDlq(DlqRecord(PermanentPayloadFailure, s.now)))))
      else None
    case Post(i, outcome) =>
      if InPhase(s, i, Taken) && !s.copies[i].refused then Some(DoPost(s, i, outcome)) else None
    case Republish(i) =>
      if i < |s.copies| && s.copies[i].place.Unacked? then DoRepublish(s, i) else None
    case Ack(i) =>
      if InPhase(s, i, MayAck) then Some(s.Put(i, Settled)) else None
    case Requeue(i, limitReached) =>
      if i < |s.copies| && s.copies[i].place.Unacked? then Some(DoRequeue(s, i, limitReached)) else None
    case Expire(i) =>
      if i < |s.copies| then DoExpire(s, i) else None
  }

  function Exec(s: State, steps: seq<Step>): Option<State>
    decreases |steps|
  {
    if steps == [] then Some(s)
    else
      match Next(s, steps[0])
      case None => None
      case Some(s') => Exec(s', steps[1..])
  }

  ghost predicate Reachable(s: State) {
    exists steps :: Exec(INIT, steps) == Some(s)
  }

  // ----- composing runs

  lemma ExecOne(s: State, step: Step, s1: State)
    requires Next(s, step) == Some(s1)
    ensures Exec(s, [step]) == Some(s1)
  {
    assert [step][1..] == [];
  }

  lemma ExecCons(s: State, step: Step, s1: State, rest: seq<Step>, s2: State)
    requires Next(s, step) == Some(s1) && Exec(s1, rest) == Some(s2)
    ensures Exec(s, [step] + rest) == Some(s2)
  {
    assert ([step] + rest)[1..] == rest;
  }

  lemma ExecPair(s: State, first: Step, s1: State, second: Step, s2: State)
    requires Next(s, first) == Some(s1) && Next(s1, second) == Some(s2)
    ensures Exec(s, [first, second]) == Some(s2)
  {
    ExecOne(s1, second, s2);
    ExecCons(s, first, s1, [second], s2);
    assert [first, second] == [first] + [second];
  }

  lemma {:induction false} ExecConcat(s: State, first: seq<Step>, second: seq<Step>)
    requires Exec(s, first).Some?
    ensures Exec(s, first + second) == Exec(Exec(s, first).value, second)
    decreases |first|
  {
    if first == [] {
      assert first + second == second;
    } else {
      assert (first + second)[1..] == first[1..] + second;
      ExecConcat(Next(s, first[0]).value, first[1..], second);
    }
  }
}
