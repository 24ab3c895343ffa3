/** What becomes of an event, said in the answers of OpenObserve: status codes, timeouts and lost connections. */
module DeliveryAnswers {
  import opened Wrappers
  import opened Topology
  import opened Delivery
  import opened DeliverySafety
  import opened DeliveryWorker

  // ----- one handler

  /** Whether a confirmed handler ended by adding a copy of message `i` to a queue, and which copy. */
  ghost predicate Added(s: State, s': State, i: nat, queue: Queue, attempt: nat)
    requires i < |s.copies|
  {
    && |s'.copies| == |s.copies| + 1
    && s'.copies[..i] == s.copies[..i] && s'.copies[i + 1..|s.copies|] == s.copies[i + 1..]
    && s'.copies[i] == s.copies[i].(place := Settled)
    && s'.accepted == s.accepted
    && var sent := s'.copies[|s.copies|];
       && sent.place == Queued(queue, s.now) && sent.attempt == attempt
       && (sent.event, sent.signal, sent.refused) == (s.copies[i].event, s.copies[i].signal, s.copies[i].refused)
  }

  /** Nothing was added: the message is settled and counted as accepted. */
  ghost predicate Delivered(s: State, s': State, i: nat)
    requires i < |s.copies|
  {
    && s'.copies == s.copies[i := s.copies[i].(place := Settled)]
    && s'.accepted == s.accepted + multiset{s.copies[i].event}
  }

  lemma Outcomes(s: State, i: nat, outcome: Outcome) returns (s': State)
    requires InPhase(s, i, Taken) && !s.copies[i].refused
    ensures Exec(s, HandlerRun(s.copies[i], i, outcome, true)) == Some(s')
    ensures s' == var s1 := DoPost(s, i, outcome);
                  if Stored(outcome) then s1.Put(i, Settled) else Finished(s1, i, true)
  {
    ClassifyMeans(outcome);
    var s1 := DoPost(s, i, outcome);
    if Stored(outcome) {
      s' := s1.Put(i, Settled);
      ExecPair(s, Post(i, outcome), s1, Ack(i), s');
    } else {
      s' := Finished(s1, i, true);
      FinishRuns(s1, i, true);
      ExecCons(s, Post(i, outcome), s1, Finish(i, true), s');
    }
  }

  /** The rung that the attempt after `attempt` failures waits on. */
  function WaitsOn(signal: Signal, attempt: nat): Queue {
    RetryQueue(signal, if attempt == 1 then 0 else if attempt == 2 then 1 else 2)
  }

  /**
   Exactly what each status does to a message that is not refused and has an attempt left: 2xx delivers it, 408,
   429 and 5xx put the incremented copy on the rung of its new attempt, everything else puts it in the dead letters.
   */
  lemma StatusDecides(s: State, i: nat, status: int) returns (s': State)
    requires InPhase(s, i, Taken) && !s.copies[i].refused && s.copies[i].attempt + 1 < 16
    ensures Exec(s, HandlerRun(s.copies[i], i, Response(status), true)) == Some(s')
    ensures var c := s.copies[i];
            && (Delivered(s, s', i) <==> 200 <= status < 300)
            && (Added(s, s', i, WaitsOn(c.signal, c.attempt + 1), c.attempt + 1)
                <==> status == 408 || status == 429 || status >= 500)
            && (Added(s, s', i, DeadLetterQueue(c.signal), c.attempt)
                <==> !(200 <= status < 300 || status == 408 || status == 429 || status >= 500))
  {
    s' := Outcomes(s, i, Response(status));
    ClassifyMeans(Response(status));
  }

  /** No answer is like 503. */
  lemma SilenceRetries(s: State, i: nat, outcome: Outcome) returns (s': State)
    requires InPhase(s, i, Taken) && !s.copies[i].refused && s.copies[i].attempt + 1 < 16
    requires outcome.Timeout? || outcome.ConnectionError?
    ensures Exec(s, HandlerRun(s.copies[i], i, outcome, true)) == Some(s')
    ensures var c := s.copies[i]; Added(s, s', i, WaitsOn(c.signal, c.attempt + 1), c.attempt + 1)
  {
    s' := Outcomes(s, i, outcome);
    ClassifyMeans(outcome);
  }

  /** On the last attempt, only the answers between delivering and the dead letters are left. */
  lemma LastStatusDecides(s: State, i: nat, outcome: Outcome) returns (s': State)
    requires InPhase(s, i, Taken) && !s.copies[i].refused && s.copies[i].attempt + 1 >= 16
    ensures Exec(s, HandlerRun(s.copies[i], i, outcome, true)) == Some(s')
    ensures var c := s.copies[i];
            if outcome.Response? && 200 <= outcome.status < 300 then Delivered(s, s', i)
            else Added(s, s', i, DeadLetterQueue(c.signal), c.attempt)
  {
    s' := Outcomes(s, i, outcome);
    ClassifyMeans(outcome);
  }

  // ----- whole runs

  /** Every answer to the event so far is of an outage, and came within one window of 4050 s. */
  ghost predicate OnlyOutage(steps: seq<Step>, event: EventId, from: int) {
    forall n, s :: 0 <= n < |steps| && Exec(INIT, steps[..n]) == Some(s) ==> OutageStep(s, steps[n], event, from)
  }

  ghost predicate OutageStep(s: State, step: Step, event: EventId, from: int) {
    match step
    case Ingest(e, _, refused) => e == event ==> !refused
    case Post(i, outcome) =>
      i < |s.copies| && s.copies[i].event == event ==>
        && (outcome.Response? ==> outcome.status == 408 || outcome.status == 429 || outcome.status >= 500)
        && from <= s.now < from + 4_050_000
    case _ => true
  }

  ghost predicate NoVerdictAgainst(record: DlqRecord) {
    record.reason.AttemptLimitExceeded?
  }

  /** What an outage leaves behind: failures in the window, no refusal and no rejection. */
  ghost predicate OutageOnly(s: State, event: EventId, from: int) {
    && (forall t :: (event, t) in s.failures ==> from <= t < from + 4_050_000)
    && (forall i :: 0 <= i < |s.copies| && s.copies[i].event == event ==> CopyUnharmed(s.copies[i]))
  }

  ghost predicate CopyUnharmed(c: Copy) {
    && !c.refused
    && (c.dlq.Some? ==> NoVerdictAgainst(c.dlq.value))
    && (c.place.Unacked? && c.place.phase.ToDlq? ==> NoVerdictAgainst(c.place.phase.record))
  }

  /** A step that changes one copy, and perhaps adds another. */
  lemma ChangeKeeps(s: State, s': State, event: EventId, from: int, i: nat, c: Copy, added: seq<Copy>)
    requires OutageOnly(s, event, from) && i < |s.copies| && s'.copies == s.copies[i := c] + added
    requires forall t :: (event, t) in s'.failures ==> from <= t < from + 4_050_000
    requires c.event == event ==> CopyUnharmed(c)
    requires forall d :: d in added && d.event == event ==> CopyUnharmed(d)
    ensures OutageOnly(s', event, from)
  {
    forall j | 0 <= j < |s'.copies| && s'.copies[j].event == event ensures CopyUnharmed(s'.copies[j]) {
      if j >= |s.copies| { assert s'.copies[j] in added; }
    }
  }

  lemma OutagePost(s: State, i: nat, outcome: Outcome, event: EventId, from: int)
    requires InPhase(s, i, Taken) && OutageOnly(s, event, from) && OutageStep(s, Post(i, outcome), event, from)
    ensures OutageOnly(DoPost(s, i, outcome), event, from)
  {
    ClassifyMeans(outcome);
    var s' := DoPost(s, i, outcome);
    assert s'.copies == s.copies[i := s'.copies[i]] + [];
    ChangeKeeps(s, s', event, from, i, s'.copies[i], []);
  }

  lemma OutageRepublish(s: State, i: nat, s': State, event: EventId, from: int)
    requires i < |s.copies| && s.copies[i].place.Unacked? && DoRepublish(s, i) == Some(s') && OutageOnly(s, event, from)
    ensures OutageOnly(s', event, from)
  {
    assert s'.copies == s.copies[i := s'.copies[i]] + [s'.copies[|s.copies|]];
    ChangeKeeps(s, s', event, from, i, s'.copies[i], [s'.copies[|s.copies|]]);
  }

  lemma OutageMove(s: State, s': State, i: nat, event: EventId, from: int)
    requires OutageOnly(s, event, from) && i < |s.copies| == |s'.copies| && s'.failures == s.failures
    requires s'.copies == s.copies[i := s.copies[i].(place := s'.copies[i].place)]
    requires var p := s'.copies[i].place; p.Unacked? && p.phase.ToDlq? ==> s.copies[i].refused
    ensures OutageOnly(s', event, from)
  {
    assert s'.copies == s.copies[i := s'.copies[i]] + [];
    ChangeKeeps(s, s', event, from, i, s'.copies[i], []);
  }

  lemma OutageStepKeeps(s: State, step: Step, s': State, event: EventId, from: int)
    requires Next(s, step) == Some(s') && OutageOnly(s, event, from) && OutageStep(s, step, event, from)
    ensures OutageOnly(s', event, from)
  {
    match step
    case Tick(_) =>
    case Answer(_) =>
    case Ingest(_, _, _) =>
    case Post(i, outcome) => OutagePost(s, i, outcome, event, from);
    case Republish(i) => OutageRepublish(s, i, s', event, from);
    case Take(i) => OutageMove(s, s', i, event, from);
    case Reject(i) => OutageMove(s, s', i, event, from);
    case Ack(i) => OutageMove(s, s', i, event, from);
    case Requeue(i, _) => OutageMove(s, s', i, event, from);
    case Expire(i) => OutageMove(s, s', i, event, from);
  }

  lemma ExecSnoc(s: State, steps: seq<Step>, s': State) returns (before: State)
    requires steps != [] && Exec(s, steps) == Some(s')
    ensures Exec(s, steps[..|steps| - 1]) == Some(before) && Next(before, steps[|steps| - 1]) == Some(s')
    decreases |steps|
  {
    if |steps| == 1 {
      before := s;
    } else {
      before := ExecSnoc(Next(s, steps[0]).value, steps[1..], s');
      var init := steps[1..][..|steps| - 2];
      assert init == steps[1..|steps| - 1] == steps[..|steps| - 1][1..];
    }
  }

  lemma {:induction false} OutageRun(steps: seq<Step>, s: State, event: EventId, from: int)
    requires Exec(INIT, steps) == Some(s) && OnlyOutage(steps, event, from)
    ensures OutageOnly(s, event, from)
    decreases |steps|
  {
    if steps != [] {
      var last := |steps| - 1;
      var before := ExecSnoc(INIT, steps, s);
      forall n, t | 0 <= n < last && Exec(INIT, steps[..last][..n]) == Some(t)
        ensures OutageStep(t, steps[..last][n], event, from)
      {
        assert steps[..last][..n] == steps[..n];
      }
      OutageRun(steps[..last], before, event, from);
      OutageStepKeeps(before, steps[last], s, event, from);
    }
  }

  /**
   An event whose body is not refused, and whose only answers are 408, 429, 5xx or none, all within one window of
   4050 s, is never dead-lettered by a handler, and no handler is about to do so.
   */
  lemma OutageNeverDeadLetters(steps: seq<Step>, s: State, event: EventId, from: int, i: nat)
    requires Exec(INIT, steps) == Some(s) && OnlyOutage(steps, event, from)
    requires i < |s.copies| && s.copies[i].event == event
    ensures s.copies[i].dlq.None?
    ensures s.copies[i].place.Unacked? ==> !s.copies[i].place.phase.ToDlq?
  {
    OutageRun(steps, s, event, from);
    OutageSurvival(s, event, from, i);
    ReachableOk(s, event);
    assert CopyOk(s, s.copies[i]);
    DelaySumTail(15);
  }

  // ----- refused bodies

  /** Every body that ingest published under the event is one that the worker's checks refuse. */
  ghost predicate OnlyRefused(steps: seq<Step>, event: EventId) {
    forall n :: 0 <= n < |steps| && steps[n].Ingest? && steps[n].event == event ==> steps[n].refused
  }

  ghost predicate Untouched(s: State, event: EventId) {
    && s.posts[event] == 0 && s.accepted[event] == 0 && (forall t :: (event, t) !in s.failures)
    && (forall i :: 0 <= i < |s.copies| && s.copies[i].event == event ==> RefusedCopy(s.copies[i]))
  }

  /** A refused copy is new, or in the dead letters for its body, or on its way there. */
  ghost predicate RefusedCopy(c: Copy) {
    && c.refused && c.attempt == 0
    && (c.dlq.Some? ==> c.dlq.value.reason.PermanentPayloadFailure?)
    && (c.place.Queued? ==> !c.place.queue.RetryQueue?)
    && (c.place.Unacked? ==>
          && !c.place.queue.RetryQueue?
          && !c.place.phase.ToRetry?
          && (c.place.phase.ToDlq? ==> c.place.phase.record.reason.PermanentPayloadFailure?))
  }

  lemma UntouchedChange(s: State, s': State, event: EventId, i: nat, c: Copy, added: seq<Copy>)
    requires Untouched(s, event) && i < |s.copies| && s'.copies == s.copies[i := c] + added
    requires s'.posts[event] == 0 && s'.accepted[event] == 0 && (forall t :: (event, t) !in s'.failures)
    requires c.event == event ==> RefusedCopy(c)
    requires forall d :: d in added && d.event == event ==> RefusedCopy(d)
    ensures Untouched(s', event)
  {
    forall j | 0 <= j < |s'.copies| && s'.copies[j].event == event ensures RefusedCopy(s'.copies[j]) {
      if j >= |s.copies| { assert s'.copies[j] in added; }
    }
  }

  lemma UntouchedMove(s: State, s': State, event: EventId, i: nat)
    requires Untouched(s, event) && i < |s.copies| == |s'.copies| && s'.copies == s.copies[i := s'.copies[i]]
    requires s'.posts == s.posts && s'.accepted == s.accepted && s'.failures == s.failures
    requires s'.copies[i].event == event ==> RefusedCopy(s'.copies[i])
    ensures Untouched(s', event)
  {
    assert s'.copies == s.copies[i := s'.copies[i]] + [];
    UntouchedChange(s, s', event, i, s'.copies[i], []);
  }

  lemma UntouchedPost(s: State, i: nat, outcome: Outcome, event: EventId)
    requires InPhase(s, i, Taken) && !s.copies[i].refused && Untouched(s, event)
    ensures Untouched(DoPost(s, i, outcome), event)
  {
    var s' := DoPost(s, i, outcome);
    assert s'.copies == s.copies[i := s'.copies[i]] + [];
    UntouchedChange(s, s', event, i, s'.copies[i], []);
  }

  lemma UntouchedRepublish(s: State, i: nat, s': State, event: EventId)
    requires i < |s.copies| && s.copies[i].place.Unacked? && DoRepublish(s, i) == Some(s') && Untouched(s, event)
    ensures Untouched(s', event)
  {
    assert s'.copies == s.copies[i := s'.copies[i]] + [s'.copies[|s.copies|]];
    UntouchedChange(s, s', event, i, s'.copies[i], [s'.copies[|s.copies|]]);
  }

  lemma UntouchedStep(s: State, step: Step, s': State, event: EventId)
    requires Next(s, step) == Some(s') && Untouched(s, event) && (step.Ingest? && step.event == event ==> step.refused)
    ensures Untouched(s', event)
  {
    match step
    case Tick(_) =>
    case Answer(_) =>
    case Ingest(_, _, _) =>
    case Post(i, outcome) => UntouchedPost(s, i, outcome, event);
    case Republish(i) => UntouchedRepublish(s, i, s', event);
    case Take(i) => UntouchedMove(s, s', event, i);
    case Reject(i) => UntouchedMove(s, s', event, i);
    case Ack(i) => UntouchedMove(s, s', event, i);
    case Requeue(i, _) => UntouchedMove(s, s', event, i);
    case Expire(i) => UntouchedMove(s, s', event, i);
  }

  /** A refused body is never sent to OpenObserve, and only ever dead-lettered for its body. */
  lemma {:induction false} RefusedNeverPosted(steps: seq<Step>, s: State, event: EventId)
    requires Exec(INIT, steps) == Some(s) && OnlyRefused(steps, event)
    ensures Untouched(s, event)
    decreases |steps|
  {
    if steps != [] {
      var last := |steps| - 1;
      var before := ExecSnoc(INIT, steps, s);
      RefusedNeverPosted(steps[..last], before, event);
      UntouchedStep(before, steps[last], s, event);
    }
  }
}
