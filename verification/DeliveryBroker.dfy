/** The protocol moves messages exactly as a broker does that was told what `AssertTopology` declares. */
module DeliveryBroker {
  import opened Wrappers
  import opened Topology
  import opened Delivery
  import opened DeliverySafety

  /** Where the broker moves what a queue dead-letters. */
  function DeadLetters(d: Declarations, queue: Queue): Option<Queue> {
    if queue in d.queues && d.queues[queue].deadLetterKey.Some? && d.queues[queue].deadLetterKey.value in d.bindings
    then Some(d.bindings[d.queues[queue].deadLetterKey.value])
    else None
  }

  /** Every message that is in a queue is in a declared one. */
  lemma QueuesAreDeclared(d: Declarations, limits: Limits, s: State, i: nat)
    requires Declared(d, limits) && Reachable(s) && i < |s.copies| && !s.copies[i].place.Settled?
    ensures s.copies[i].place.queue in d.queues
  {
    ReachableOk(s, s.copies[i].event);
    assert CopyOk(s, s.copies[i]);
  }

  /**
   A message expires exactly when the declared time to live of its queue is over, in a queue that has one, and moves
   to the queue bound to that queue's declared dead-letter key, keeping its body.
   */
  lemma ExpiresAsDeclared(d: Declarations, limits: Limits, s: State, i: nat)
    requires Declared(d, limits) && Reachable(s) && i < |s.copies| && s.copies[i].place.Queued?
    ensures s.copies[i].place.queue in d.queues
    ensures var c := s.copies[i]; var args := d.queues[c.place.queue]; var next := Next(s, Expire(i));
            && (next.Some? <==> args.ttlMs.Some? && s.now >= c.place.since + args.ttlMs.value)
            && (next.Some? ==>
                  && DeadLetters(d, c.place.queue).Some?
                  && next.value == s.Put(i, Queued(DeadLetters(d, c.place.queue).value, s.now)))
  {
    QueuesAreDeclared(d, limits, s, i);
  }

  /** A message that the broker's delivery limit removes from a queue goes where that queue dead-letters. */
  lemma LimitAsDeclared(d: Declarations, limits: Limits, s: State, i: nat)
    requires Declared(d, limits) && Reachable(s) && i < |s.copies| && s.copies[i].place.Unacked?
    ensures var queue := s.copies[i].place.queue; var next := Next(s, Requeue(i, true));
            && queue in d.queues && d.queues[queue].deliveryLimit == Some(16)
            && next.Some? && Some(next.value.copies[i].place.queue) == DeadLetters(d, queue)
  {
    QueuesAreDeclared(d, limits, s, i);
    ReachableOk(s, s.copies[i].event);
    assert CopyOk(s, s.copies[i]);
  }

  /** What is published under a bound key goes to the queue that the key is bound to. */
  lemma PublishedAsBound(d: Declarations, limits: Limits, s: State, key: RoutingKey, body: Copy)
    requires Declared(d, limits) && key in d.bindings
    ensures s.Publish(key, body).copies == s.copies + [body.(place := Queued(d.bindings[key], s.now))]
  {}

  /** No handler publishes under an unbound key. */
  lemma RetryKeysAreBound(d: Declarations, limits: Limits, signal: Signal, attempt: int)
    requires Declared(d, limits)
    ensures RetryRoutingKey(signal, attempt) in d.bindings && DlqKey(signal) in d.bindings && MainKey(signal) in d.bindings
    ensures d.queues[d.bindings[RetryRoutingKey(signal, attempt)]].ttlMs.Some?
  {}
}
