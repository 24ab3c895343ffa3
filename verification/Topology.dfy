/**
 The RabbitMQ topology that the ingest service and the delivery worker share: a main queue, three
 retry queues and a dead-letter queue per signal, all bound to one direct exchange.  Names are
 constructors rather than strings, so two queues are equal exactly when their names are.
 */
module Topology {
  import opened Wrappers

  datatype Signal = Rum | Logs

  datatype RoutingKey = MainKey(signal: Signal) | RetryKey(signal: Signal, index: nat) | DlqKey(signal: Signal)

  datatype Queue = MainQueue(signal: Signal) | RetryQueue(signal: Signal, index: nat) | DeadLetterQueue(signal: Signal)

  datatype QueueArgs = QueueArgs(
    ttlMs: Option<nat>,
    deadLetterKey: Option<RoutingKey>,
    deliveryLimit: Option<nat>,
    maxLength: nat,
    maxBytes: nat)

  datatype Limits = Limits(queueMaxLength: nat, queueMaxBytes: nat, dlqMaxLength: nat, dlqMaxBytes: nat)

  const MAX_DELIVERY_ATTEMPTS: nat := 16
  const RETRY_DELAYS_MS: seq<nat> := [30_000, 120_000, 300_000]
  const SIGNALS: seq<Signal> := [Rum, Logs]

  /** The retry rung for a message whose new attempt number is `deliveryAttempt`. */
  function RetryIndex(deliveryAttempt: int): (index: nat)
    ensures index < |RETRY_DELAYS_MS|
    ensures deliveryAttempt <= 1 ==> index == 0
    ensures 1 <= deliveryAttempt <= |RETRY_DELAYS_MS| ==> index == deliveryAttempt - 1
    ensures deliveryAttempt >= |RETRY_DELAYS_MS| ==> index == |RETRY_DELAYS_MS| - 1
  {
    var rung := if deliveryAttempt - 1 < |RETRY_DELAYS_MS| - 1 then deliveryAttempt - 1 else |RETRY_DELAYS_MS| - 1;
    if rung < 0 then 0 else rung
  }

  function RetryRoutingKey(signal: Signal, deliveryAttempt: int): RoutingKey {
    RetryKey(signal, RetryIndex(deliveryAttempt))
  }

  predicate KnownKey(key: RoutingKey) {
    key.RetryKey? ==> key.index < |RETRY_DELAYS_MS|
  }

  predicate KnownQueue(queue: Queue) {
    queue.RetryQueue? ==> queue.index < |RETRY_DELAYS_MS|
  }

  /** Where the direct exchange delivers a message published under `key`. */
  function Route(key: RoutingKey): Queue {
    match key
    case MainKey(signal) => MainQueue(signal)
    case RetryKey(signal, index) => RetryQueue(signal, index)
    case DlqKey(signal) => DeadLetterQueue(signal)
  }

  /** The routing key under which a queue re-publishes what it dead-letters. */
  function DeadLetterKey(queue: Queue): Option<RoutingKey> {
    match queue
    case MainQueue(signal) => Some(DlqKey(signal))
    case RetryQueue(signal, _) => Some(MainKey(signal))
    case DeadLetterQueue(_) => None
  }

  function ArgsOf(queue: Queue, limits: Limits): QueueArgs
    requires KnownQueue(queue)
  {
    match queue
    case MainQueue(_) =>
      QueueArgs(None, DeadLetterKey(queue), Some(MAX_DELIVERY_ATTEMPTS), limits.queueMaxLength, limits.queueMaxBytes)
    case RetryQueue(_, index) =>
      QueueArgs(Some(RETRY_DELAYS_MS[index]), DeadLetterKey(queue), None, limits.queueMaxLength, limits.queueMaxBytes)
    case DeadLetterQueue(_) =>
      QueueArgs(None, None, None, limits.dlqMaxLength, limits.dlqMaxBytes)
  }

  /** What the broker has been told so far. */
  datatype Declarations = Declarations(queues: map<Queue, QueueArgs>, bindings: map<RoutingKey, Queue>)

  /** Declared and bound exactly for `done`, with the arguments the routing functions above promise. */
  ghost predicate Realizes(d: Declarations, limits: Limits, done: set<Queue>) {
    && (forall q :: q in d.queues <==> q in done)
    && (forall q :: q in d.queues ==> KnownQueue(q) && d.queues[q] == ArgsOf(q, limits))
    && (forall k :: k in d.bindings <==> Route(k) in done)
    && (forall k :: k in d.bindings ==> d.bindings[k] == Route(k))
  }

  method Declare(d: Declarations, queue: Queue, args: QueueArgs, key: RoutingKey, limits: Limits, ghost done: set<Queue>)
    returns (r: Declarations)
    requires Realizes(d, limits, done)
    requires KnownQueue(queue) && args == ArgsOf(queue, limits) && Route(key) == queue
    ensures Realizes(r, limits, done + {queue})
  {
    r := Declarations(d.queues[queue := args], d.bindings[key := queue]);
  }

  ghost function RetryQueues(signal: Signal, n: nat): set<Queue> {
    set index: nat | 0 <= index < n :: RetryQueue(signal, index)
  }

  ghost function QueuesOf(signal: Signal): set<Queue> {
    {DeadLetterQueue(signal), MainQueue(signal)} + RetryQueues(signal, |RETRY_DELAYS_MS|)
  }

  lemma NextRetryQueue(signal: Signal, n: nat)
    ensures RetryQueues(signal, n + 1) == RetryQueues(signal, n) + {RetryQueue(signal, n)}
  {}

  lemma AllQueues(signal: Signal, done: set<Queue>)
    ensures done + {DeadLetterQueue(signal)} + {MainQueue(signal)} + RetryQueues(signal, |RETRY_DELAYS_MS|)
         == done + QueuesOf(signal)
  {}

  /** The retry loop of one signal. */
  method DeclareRetryQueues(d: Declarations, signal: Signal, limits: Limits, ghost done: set<Queue>)
    returns (r: Declarations)
    requires Realizes(d, limits, done)
    ensures Realizes(r, limits, done + RetryQueues(signal, |RETRY_DELAYS_MS|))
  {
    r := d;
    assert done + RetryQueues(signal, 0) == done;
    for index := 0 to |RETRY_DELAYS_MS|
      invariant Realizes(r, limits, done + RetryQueues(signal, index))
    {
      r := Declare(r, RetryQueue(signal, index),
                   QueueArgs(Some(RETRY_DELAYS_MS[index]), Some(MainKey(signal)), None,
                             limits.queueMaxLength, limits.queueMaxBytes),
                   RetryKey(signal, index), limits, done + RetryQueues(signal, index));
      NextRetryQueue(signal, index);
      assert done + RetryQueues(signal, index) + {RetryQueue(signal, index)} == done + RetryQueues(signal, index + 1);
    }
  }

  /** All the queues of one signal: dead letters, main, then the retry rungs. */
  method DeclareSignal(d: Declarations, signal: Signal, limits: Limits, ghost done: set<Queue>)
    returns (r: Declarations)
    requires Realizes(d, limits, done)
    ensures Realizes(r, limits, done + QueuesOf(signal))
  {
    r := Declare(d, DeadLetterQueue(signal),
                 QueueArgs(None, None, None, limits.dlqMaxLength, limits.dlqMaxBytes),
                 DlqKey(signal), limits, done);
    ghost var dlq := done + {DeadLetterQueue(signal)};
    r := Declare(r, MainQueue(signal),
                 QueueArgs(None, Some(DlqKey(signal)), Some(MAX_DELIVERY_ATTEMPTS),
                           limits.queueMaxLength, limits.queueMaxBytes),
                 MainKey(signal), limits, dlq);
    r := DeclareRetryQueues(r, signal, limits, dlq + {MainQueue(signal)});
    AllQueues(signal, done);
  }

  /** In numbers and names, what the broker is told of one queue. */
  predicate ToldOf(queue: Queue, args: QueueArgs, limits: Limits) {
    var retryMs := if queue.RetryQueue? then (if queue.index == 0 then 30_000 else if queue.index == 1 then 120_000 else 300_000) else 0;
    match queue
    case MainQueue(signal) =>
      args == QueueArgs(None, Some(DlqKey(signal)), Some(16), limits.queueMaxLength, limits.queueMaxBytes)
    case RetryQueue(signal, _) =>
      args == QueueArgs(Some(retryMs), Some(MainKey(signal)), None, limits.queueMaxLength, limits.queueMaxBytes)
    case DeadLetterQueue(_) =>
      args == QueueArgs(None, None, None, limits.dlqMaxLength, limits.dlqMaxBytes)
  }

  predicate BoundTo(key: RoutingKey, queue: Queue) {
    match key
    case MainKey(signal) => queue == MainQueue(signal)
    case RetryKey(signal, index) => queue == RetryQueue(signal, index)
    case DlqKey(signal) => queue == DeadLetterQueue(signal)
  }

  /** Everything the broker is told: exactly these queues and bindings. */
  ghost predicate Declared(d: Declarations, limits: Limits) {
    && (forall q :: q in d.queues <==> (q.RetryQueue? ==> q.index < 3))
    && (forall q :: q in d.queues ==> ToldOf(q, d.queues[q], limits))
    && (forall k :: k in d.bindings <==> (k.RetryKey? ==> k.index < 3))
    && (forall k :: k in d.bindings ==> BoundTo(k, d.bindings[k]))
  }

  lemma RealizedIsDeclared(d: Declarations, limits: Limits, all: set<Queue>)
    requires Realizes(d, limits, all) && forall q :: q in all <==> KnownQueue(q)
    ensures Declared(d, limits)
  {}

  method AssertTopology(limits: Limits) returns (d: Declarations)
    ensures Declared(d, limits)
  {
    d := Declarations(map[], map[]);
    ghost var done := {};
    for s := 0 to |SIGNALS|
      invariant Realizes(d, limits, done)
      invariant forall q :: q in done <==> KnownQueue(q) && SignalRank(q.signal) < s
    {
      d := DeclareSignal(d, SIGNALS[s], limits, done);
      done := done + QueuesOf(SIGNALS[s]);
    }
    RealizedIsDeclared(d, limits, done);
  }

  ghost function SignalRank(signal: Signal): nat {
    match signal case Rum => 0 case Logs => 1
  }
}
