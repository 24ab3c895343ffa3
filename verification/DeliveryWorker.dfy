/**
 The delivery worker as it is written: a handler that updates the process counters and talks to the
 broker.  The broker, which lives outside the process, is the protocol state of `Delivery`; the
 contracts say that the handler is a run of that protocol.
 */
module DeliveryWorker {
  import opened Wrappers
  import opened Topology
  import opened Delivery

  /** The rest of a handler that has decided to republish: with a nacked publish it stops there. */
  function Finish(i: nat, confirmed: bool): seq<Step> {
    if confirmed then [Republish(i), Ack(i)] else []
  }

  /** The protocol steps of one handler that runs to its end or to a nacked publish. */
  function HandlerRun(copy: Copy, i: nat, outcome: Outcome, confirmed: bool): seq<Step> {
    if copy.refused then [Reject(i)] + Finish(i, confirmed)
    else if Classify(outcome).Accepted? then [Post(i, outcome), Ack(i)]
    else [Post(i, outcome)] + Finish(i, confirmed)
  }

  /** The end of a handler that has decided to republish message `i`. */
  function Finished(s: State, i: nat, confirmed: bool): State
    requires i < |s.copies| && s.copies[i].place.Unacked? && DoRepublish(s, i).Some?
  {
    if confirmed then DoRepublish(s, i).value.Put(i, Settled) else s
  }

  lemma FinishRuns(s: State, i: nat, confirmed: bool)
    requires i < |s.copies| && s.copies[i].place.Unacked? && DoRepublish(s, i).Some?
    ensures Exec(s, Finish(i, confirmed)) == Some(Finished(s, i, confirmed))
  {
    if confirmed {
      var s1 := DoRepublish(s, i).value;
      assert InPhase(s1, i, MayAck);
      ExecPair(s, Republish(i), s1, Ack(i), s1.Put(i, Settled));
    }
  }

  /** Where a retried message goes: the rung of its incremented attempt, with everything else kept. */
  lemma RetriedMessage(s: State, i: nat, outcome: Outcome)
    requires InPhase(s, i, Taken) && !s.copies[i].refused
    requires Transient(outcome) && s.copies[i].attempt + 1 < MAX_DELIVERY_ATTEMPTS
    ensures var run := Exec(s, HandlerRun(s.copies[i], i, outcome, true));
            && run.Some? && |run.value.copies| == |s.copies| + 1
            && run.value.copies[i].place.Settled?
            && var c := s.copies[i]; var sent := run.value.copies[|s.copies|];
               && sent.place == Queued(RetryQueue(c.signal, RetryIndex(c.attempt + 1)), s.now)
               && sent.attempt == c.attempt + 1
               && (sent.event, sent.signal, sent.refused) == (c.event, c.signal, c.refused)
  {
    ClassifyMeans(outcome);
    var s1 := DoPost(s, i, outcome);
    FinishRuns(s1, i, true);
    ExecCons(s, Post(i, outcome), s1, Finish(i, true), Finished(s1, i, true));
  }

  /**
   Where a rejected or exhausted message goes: its own signal's dead letters, with the body it came
   with, so the stored attempt is the one before the last POST.
   */
  lemma DeadLetteredMessage(s: State, i: nat, outcome: Outcome)
    requires InPhase(s, i, Taken)
    requires s.copies[i].refused || !(Stored(outcome) || Transient(outcome)) ||
             (Transient(outcome) && s.copies[i].attempt + 1 >= MAX_DELIVERY_ATTEMPTS)
    ensures var run := Exec(s, HandlerRun(s.copies[i], i, outcome, true));
            && run.Some? && |run.value.copies| == |s.copies| + 1
            && run.value.copies[i].place.Settled?
            && var c := s.copies[i]; var sent := run.value.copies[|s.copies|];
               && sent.dlq.Some?
               && sent == c.(dlq := sent.dlq, place := Queued(DeadLetterQueue(c.signal), s.now))
               && sent.dlq.value == DlqRecord(
                    if c.refused then PermanentPayloadFailure
                    else if Transient(outcome) then AttemptLimitExceeded
                    else PermanentRejection,
                    s.now)
  {
    ClassifyMeans(outcome);
    var first := if s.copies[i].refused then Reject(i) else Post(i, outcome);
    var s1 := Next(s, first).value;
    FinishRuns(s1, i, true);
    ExecCons(s, first, s1, Finish(i, true), Finished(s1, i, true));
  }

  /** After a nacked republish the message is still with the broker: redelivered, it is the one that was taken. */
  lemma NackedMessageIsKept(s: State, i: nat, outcome: Outcome)
    requires InPhase(s, i, Taken) && (s.copies[i].refused || !Stored(outcome))
    ensures var c := s.copies[i];
            var run := Exec(s, HandlerRun(c, i, outcome, false) + [Requeue(i, false)]);
            run.Some? && run.value.copies == s.copies[i := c.(place := Queued(c.place.queue, s.now))]
  {
    var c := s.copies[i];
    ClassifyMeans(outcome);
    var first := if c.refused then Reject(i) else Post(i, outcome);
    var s1 := Next(s, first).value;
    assert HandlerRun(c, i, outcome, false) == [first];
    assert [first] + [Requeue(i, false)] == [first, Requeue(i, false)];
    ExecPair(s, first, s1, Requeue(i, false), DoRequeue(s1, i, false));
  }

  class Worker {
    var broker: State
    var delivered: nat
    var retried: nat
    var deadLettered: nat
    var duplicateObserved: nat

    constructor (broker: State)
      ensures this.broker == broker
      ensures delivered == retried == deadLettered == duplicateObserved == 0
    {
      this.broker := broker;
      delivered, retried, deadLettered, duplicateObserved := 0, 0, 0, 0;
    }

    /** Resolves or rejects with the broker's answer; only a confirmed message is stored. */
    method PublishConfirmed(i: nat, key: RoutingKey, body: Copy, confirmed: bool)
      requires i < |broker.copies| && broker.copies[i].place.Unacked?
      modifies this`broker
      ensures broker == if confirmed
                        then old(broker).Put(i, old(broker).copies[i].place.(phase := MayAck)).Publish(key, body)
                        else old(broker)
    {
      if confirmed {
        broker := broker.Put(i, broker.copies[i].place.(phase := MayAck)).Publish(key, body);
      }
    }

    method PublishRetry(i: nat, message: Copy, confirmed: bool)
      requires i < |broker.copies| && broker.copies[i].place.Unacked? && broker.copies[i].place.phase.ToRetry?
      requires var c := broker.copies[i];
               message == c.(attempt := c.attempt + 1,
                             firstFailure := if c.firstFailure.Some? then c.firstFailure else Some(c.place.phase.at))
      modifies this`broker
      ensures if confirmed then DoRepublish(old(broker), i) == Some(broker) else broker == old(broker)
    {
      PublishConfirmed(i, RetryRoutingKey(message.signal, message.attempt), message, confirmed);
    }

    method PublishDlq(i: nat, confirmed: bool)
      requires i < |broker.copies| && broker.copies[i].place.Unacked? && broker.copies[i].place.phase.ToDlq?
      modifies this`broker
      ensures if confirmed then DoRepublish(old(broker), i) == Some(broker) else broker == old(broker)
    {
      var body := broker.copies[i];
      PublishConfirmed(i, DlqKey(body.signal), body.(dlq := Some(body.place.phase.record)), confirmed);
    }

    method Acknowledge(i: nat)
      requires InPhase(broker, i, MayAck)
      modifies this`broker
      ensures broker == old(broker).Put(i, Settled)
    {
      broker := broker.Put(i, Settled);
    }

    /** The refused-body path; it leaves every counter alone. */
    method RejectMessage(i: nat, confirmed: bool) returns (acked: bool)
      requires InPhase(broker, i, Taken) && broker.copies[i].refused
      modifies this`broker
      ensures acked == confirmed
      ensures Exec(old(broker), [Reject(i)] + Finish(i, confirmed)) == Some(broker)
    {
      ghost var s0 := broker;
      broker := broker.Put(i, broker.copies[i].place.(phase := ToDlq(DlqRecord(PermanentPayloadFailure, broker.now))));
      ghost var s1 := broker;
      PublishDlq(i, confirmed);
      if confirmed { Acknowledge(i); }
      acked := confirmed;
      FinishRuns(s1, i, confirmed);
      ExecCons(s0, Reject(i), s1, Finish(i, confirmed), broker);
    }

    /** After a POST that was not accepted: another rung, or the dead letters. */
    method HandleFailure(i: nat, retryable: bool, confirmed: bool) returns (acked: bool)
      requires i < |broker.copies| && broker.copies[i].place.Unacked?
      requires var c := broker.copies[i];
               if retryable && c.attempt + 1 < MAX_DELIVERY_ATTEMPTS then c.place.phase == ToRetry(broker.now)
               else c.place.phase.ToDlq?
      modifies this`broker, this`retried, this`deadLettered
      ensures acked == confirmed
      ensures Exec(old(broker), Finish(i, confirmed)) == Some(broker)
      ensures var again := retryable && old(broker).copies[i].attempt + 1 < MAX_DELIVERY_ATTEMPTS;
              && retried == old(retried) + (if confirmed && again then 1 else 0)
              && deadLettered == old(deadLettered) + (if confirmed && !again then 1 else 0)
    {
      ghost var s1 := broker;
      var message := broker.copies[i];
      if retryable && message.attempt + 1 < MAX_DELIVERY_ATTEMPTS {
        var first := if message.firstFailure.Some? then message.firstFailure else Some(broker.now);
        PublishRetry(i, message.(attempt := message.attempt + 1, firstFailure := first), confirmed);
        if confirmed {
          retried := retried + 1;
          Acknowledge(i);
        }
      } else {
        PublishDlq(i, confirmed);
        if confirmed {
          deadLettered := deadLettered + 1;
          Acknowledge(i);
        }
      }
      acked := confirmed;
      FinishRuns(s1, i, confirmed);
    }

    /**
     One delivery of message `i`.  `confirmed` is the broker's answer to the republish: on a nack the
     handler stops without acking, and the message stays with the broker.
     */
    method HandleMessage(i: nat, redelivered: bool, outcome: Outcome, confirmed: bool) returns (acked: bool)
      requires InPhase(broker, i, Taken)
      modifies this
      ensures Exec(old(broker), HandlerRun(old(broker).copies[i], i, outcome, confirmed)) == Some(broker)
      ensures var c := old(broker).copies[i];
              var accepted := !c.refused && Stored(outcome);
              var again := Transient(outcome) && c.attempt + 1 < MAX_DELIVERY_ATTEMPTS;
              && acked == (accepted || confirmed)
              && delivered == old(delivered) + (if accepted then 1 else 0)
              && duplicateObserved == old(duplicateObserved) + (if accepted && redelivered then 1 else 0)
              && retried == old(retried) + (if !c.refused && !accepted && confirmed && again then 1 else 0)
              && deadLettered == old(deadLettered) + (if !c.refused && !accepted && confirmed && !again then 1 else 0)
    {
      ghost var s0 := broker;
      ClassifyMeans(outcome);
      if broker.copies[i].refused {
        acked := RejectMessage(i, confirmed);
        return;
      }
      broker := DoPost(broker, i, outcome);
      ghost var s1 := broker;
      var result := Classify(outcome);
      if result.Accepted? {
        delivered := delivered + 1;
        if redelivered { duplicateObserved := duplicateObserved + 1; }
        Acknowledge(i);
        ExecPair(s0, Post(i, outcome), s1, Ack(i), broker);
        acked := true;
      } else {
        acked := HandleFailure(i, result.Retryable?, confirmed);
        ExecCons(s0, Post(i, outcome), s1, Finish(i, confirmed), broker);
      }
    }
  }
}
