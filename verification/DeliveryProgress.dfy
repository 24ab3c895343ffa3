/** Runs that exist: the retry ladder is exactly as long as claimed, and no standing copy is ever stuck. */
module DeliveryProgress {
  import opened Wrappers
  import opened Topology
  import opened Delivery
  import opened DeliverySafety

  ghost predicate WaitsInMain(s: State, i: nat) {
    && i < |s.copies|
    && !s.copies[i].refused
    && s.copies[i].attempt < MAX_DELIVERY_ATTEMPTS
    && s.copies[i].place.Queued?
    && s.copies[i].place.queue == MainQueue(s.copies[i].signal)
  }

  function Rung(i: nat, copies: nat, delay: nat): seq<Step> {
    [Take(i), Post(i, Timeout), Republish(i), Ack(i), Tick(delay), Expire(copies)]
  }

  /** One failed attempt moves the message up one rung and costs exactly that rung's delay. */
  lemma ClimbRung(s: State, i: nat) returns (s': State)
    requires WaitsInMain(s, i) && s.copies[i].attempt + 1 < MAX_DELIVERY_ATTEMPTS
    ensures var c := s.copies[i]; var delay := RETRY_DELAYS_MS[RetryIndex(c.attempt + 1)];
            && Exec(s, Rung(i, |s.copies|, delay)) == Some(s')
            && s'.now == s.now + delay
            && s'.failures == s.failures + {(c.event, s.now)}
            && |s'.copies| == |s.copies| + 1
            && s'.copies[|s.copies|] == c.(
                 attempt := c.attempt + 1,
                 firstFailure := if c.firstFailure.Some? then c.firstFailure else Some(s.now),
                 place := Queued(MainQueue(c.signal), s'.now))
  {
    var c := s.copies[i];
    var delay := RETRY_DELAYS_MS[RetryIndex(c.attempt + 1)];
    var s1 := Next(s, Take(i)).value;
    var s2 := Next(s1, Post(i, Timeout)).value;
    var s3 := Next(s2, Republish(i)).value;
    var s4 := Next(s3, Ack(i)).value;
    var s5 := Next(s4, Tick(delay)).value;
    s' := Next(s5, Expire(|s.copies|)).value;
    ExecSteps(s, s1, s2, s3, s4, s5, s', Rung(i, |s.copies|, delay));
  }

  lemma ExecSteps(s: State, s1: State, s2: State, s3: State, s4: State, s5: State, s6: State, steps: seq<Step>)
    requires |steps| == 6
    requires Next(s, steps[0]) == Some(s1) && Next(s1, steps[1]) == Some(s2) && Next(s2, steps[2]) == Some(s3)
    requires Next(s3, steps[3]) == Some(s4) && Next(s4, steps[4]) == Some(s5) && Next(s5, steps[5]) == Some(s6)
    ensures Exec(s, steps) == Some(s6)
  {
    assert Exec(s5, steps[5..]) == Some(s6) by { assert steps[5..][1..] == []; }
    assert Exec(s4, steps[4..]) == Some(s6) by { assert steps[4..][1..] == steps[5..]; }
    assert Exec(s3, steps[3..]) == Some(s6) by { assert steps[3..][1..] == steps[4..]; }
    assert Exec(s2, steps[2..]) == Some(s6) by { assert steps[2..][1..] == steps[3..]; }
    assert Exec(s1, steps[1..]) == Some(s6) by { assert steps[1..][1..] == steps[2..]; }
  }

  ghost predicate FailedWithin(s: State, event: EventId, from: int, to: int) {
    forall t :: (event, t) in s.failures ==> from <= t <= to
  }

  /** The run that fails `attempt` times in a row as fast as the retry queues allow. */
  lemma {:induction false} Climb(event: EventId, attempt: nat) returns (steps: seq<Step>, s: State, i: nat)
    requires attempt < MAX_DELIVERY_ATTEMPTS
    ensures Exec(INIT, steps) == Some(s)
    ensures WaitsInMain(s, i) && s.copies[i].event == event && s.copies[i].attempt == attempt
    ensures s.now == DelaySum(attempt) && FailedWithin(s, event, 0, s.now)
  {
    if attempt == 0 {
      steps, i := [Ingest(event, Rum, false)], 0;
      s := Next(INIT, steps[0]).value;
      assert Exec(s, steps[1..]) == Some(s);
    } else {
      var steps0, s0, i0 := Climb(event, attempt - 1);
      s := ClimbRung(s0, i0);
      var rung := Rung(i0, |s0.copies|, RETRY_DELAYS_MS[RetryIndex(attempt)]);
      ExecConcat(INIT, steps0, rung);
      steps, i := steps0 + rung, |s0.copies|;
    }
  }

  /** The sixteenth failure dead-letters the message. */
  lemma LastRung(s: State, i: nat) returns (steps: seq<Step>, s': State)
    requires WaitsInMain(s, i) && s.copies[i].attempt == MAX_DELIVERY_ATTEMPTS - 1
    ensures Exec(s, steps) == Some(s') && |s'.copies| == |s.copies| + 1
    ensures s'.failures == s.failures + {(s.copies[i].event, s.now)}
    ensures var sent := s'.copies[|s.copies|];
            sent.event == s.copies[i].event && sent.dlq == Some(DlqRecord(AttemptLimitExceeded, s.now))
  {
    var s1 := Next(s, Take(i)).value;
    var s2 := Next(s1, Post(i, Timeout)).value;
    s' := Next(s2, Republish(i)).value;
    ExecPair(s1, Post(i, Timeout), s2, Republish(i), s');
    ExecCons(s, Take(i), s1, [Post(i, Timeout), Republish(i)], s');
    steps := [Take(i)] + [Post(i, Timeout), Republish(i)];
  }

  /** The survival bound cannot be widened: failures within a closed window of 4050 s can exhaust the attempts. */
  lemma LadderIsTight(event: EventId) returns (s: State, i: nat)
    ensures Reachable(s) && FailedWithin(s, event, 0, LADDER_MS)
    ensures i < |s.copies| && s.copies[i].event == event
    ensures s.copies[i].dlq == Some(DlqRecord(AttemptLimitExceeded, LADDER_MS))
  {
    var steps, s0, i0 := Climb(event, 15);
    DelaySumTail(15);
    var last;
    last, s := LastRung(s0, i0);
    i := |s0.copies|;
    ExecConcat(INIT, steps, last);
  }

  lemma DeliverFromMain(s: State, i: nat) returns (steps: seq<Step>, s': State)
    requires WaitsInMain(s, i)
    ensures Exec(s, steps) == Some(s') && s'.accepted == s.accepted + multiset{s.copies[i].event}
  {
    var s1 := Next(s, Take(i)).value;
    s' := Next(s1, Post(i, Response(200))).value;
    steps := [Take(i), Post(i, Response(200))];
    ExecPair(s, Take(i), s1, Post(i, Response(200)), s');
  }

  lemma {:induction false} DeliverFromRetry(s: State, i: nat) returns (steps: seq<Step>, s': State)
    requires Inv(s) && i < |s.copies| && !s.copies[i].refused
    requires s.copies[i].place.Queued? && s.copies[i].place.queue.RetryQueue?
    ensures Exec(s, steps) == Some(s') && s'.accepted == s.accepted + multiset{s.copies[i].event}
  {
    assert CopyOk(s, s.copies[i]);
    var delay := RETRY_DELAYS_MS[s.copies[i].place.queue.index];
    var s1 := Next(s, Tick(delay)).value;
    var s2 := Next(s1, Expire(i)).value;
    ExecPair(s, Tick(delay), s1, Expire(i), s2);
    var rest;
    rest, s' := DeliverFromMain(s2, i);
    steps := [Tick(delay), Expire(i)] + rest;
    ExecConcat(s, [Tick(delay), Expire(i)], rest);
  }

  /**
   A standing copy outside the dead letters can always still be delivered: from every reachable state some
   continuation has OpenObserve accept it.  A handler that is about to dead-letter it may crash first.
   */
  lemma {:induction false} NeverStuck(s: State, i: nat) returns (steps: seq<Step>, s': State)
    requires Reachable(s) && i < |s.copies| && !s.copies[i].refused
    requires Holds(s.copies[i], s.copies[i].event)
    requires s.copies[i].place.Queued? ==> !s.copies[i].place.queue.DeadLetterQueue?
    ensures Exec(s, steps) == Some(s') && s'.accepted == s.accepted + multiset{s.copies[i].event}
  {
    ReachableOk(s, s.copies[i].event);
    assert CopyOk(s, s.copies[i]);
    match s.copies[i].place
    case Queued(queue, _) =>
      if queue.MainQueue? {
        steps, s' := DeliverFromMain(s, i);
      } else {
        steps, s' := DeliverFromRetry(s, i);
      }
    case Unacked(_, phase) =>
      if phase.Taken? {
        s' := Next(s, Post(i, Response(200))).value;
        steps := [Post(i, Response(200))];
        ExecOne(s, steps[0], s');
      } else if phase.ToDlq? {
        var s1 := Next(s, Requeue(i, false)).value;
        var rest;
        rest, s' := DeliverFromMain(s1, i);
        steps := [Requeue(i, false)] + rest;
        ExecCons(s, Requeue(i, false), s1, rest, s');
      } else {
        var s1 := Next(s, Republish(i)).value;
        RepublishKeepsInv(s, i);
        var rest;
        rest, s' := DeliverFromRetry(s1, |s.copies|);
        steps := [Republish(i)] + rest;
        ExecCons(s, Republish(i), s1, rest, s');
      }
  }
}
