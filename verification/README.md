# Frontend observability: verified protocol models

Dafny models of the parts of the repository where a guarantee spans several functions, several processes
or a whole run. Each source file that changes state step by step has a class or a method with loops here,
proved against a specification function; the properties are lemmas about those functions, over every input
and every run. `dafny verify dfyconfig.toml` checks everything.

## What is modelled

**Durable delivery** (`Topology`, `Delivery`, `DeliverySafety`, `DeliveryProgress`, `DeliveryWorker`,
`DeliveryBroker`, `DeliveryAnswers`).
Ingest publishes an event with a publisher confirm and only then answers 202. The worker takes a copy, POSTs it,
republishes it with a confirm (to one of three retry rungs or to the dead letters) and only then acks. The
model is a step relation in which every `await` is a step boundary, so handlers interleave freely; a crashed
worker, a nacked republish and the broker's delivery limit are requeue steps that may happen at any time.
The results: an answered event is always accepted or still held by some copy; acceptances plus standing copies
are counted exactly; at most 16 POSTs per requeue-free life; an outage shorter than the 4050 s retry ladder
never exhausts the attempts (the 3650 s soak named in the repository's README.md:86 is inside it) and the bound is tight.

**Kill switch** (`ControlDocument`, `ScopeKey`, `ControlPlane`, `ControlServing`, `ControlRegistry`, `ControlOutcomes`, `KillSwitch`,
`KillSwitchOrder`, `KillSwitchClocks`, `KillSwitchGate`). Publishing, serving, the delivery hold, the page's validation, its revision comparison and its
latch, composed into one system of publishes interleaved with polls. In every run a page misses a kill switch
that it is served and accepts exactly if it is not latched and an earlier poll skipped this very document:
accepted, from the early return for an invalid global document, an inactive global document that is newer than
the kill switch on file for the scope. A poll can do so only with a document that the page accepts and the plane
does not, so pages of no scope and pages whose clock is between 0 and 240 s ahead of the plane's are safe. The same
early return is exactly what breaks the order of served revisions and makes an unlatched page count a rollback.
A global kill switch is never skipped, and closes the gate of every page within ten minutes, whatever the pages' clocks.
The page takes its clock reading when a fetch starts
(packages/browser-observability/src/runtime-control/fetch-document.js:35), so with equal clocks the time a
request travels already puts it behind, and the condition matters in ordinary operation.

**Refresh loop** (`RefreshDelay`, `RefreshLoop`, `RefreshTiming`, `RefreshEngine`). Timer callbacks, online and
visibility events, start, stop, settling fetches and the continuation of every awaiting caller, as separate
steps in any order.

**Duplicate-key scanners** (`JsonText`, `ContractScanner`, `ContractScannerProofs`, `BrowserScanner`,
`BrowserFold`, `BrowserScannerProofs`). JSON texts are trees that remember their whitespace (RFC 8259 sections 2
to 7). The contracts scanner is exact on every such text. What the browser's scanner reports is characterised
exactly too: it also compares strings of arrays that follow a comma, and it drops the character after a
backslash. From this follow that it misses nothing, where it agrees with the exact scanner, and the two
concrete ways in which it does not.

**Session aggregation** (`SessionAggregation`, `SessionDescriptors`, `SessionSync`, `SessionRecords`), **alert policy evaluator**
(`AlertPolicy`, `AlertValues`), **canonical encoding** (`CanonicalEncoding`, `CanonicalBytes`): a fold whose numbers depend only on the
set of rows and whose texts depend on their order exactly where rows disagree, a hysteresis machine with guarantees
about its whole trace, and an injective encoding with the exact collisions of its hashed bytes.

The step functions are tied to the sources' own terms by results that do not name them: status codes
(`DeliveryAnswers`), declared queues (`DeliveryBroker`), files and acceptance (`ControlServing`), outcomes
(`ControlOutcomes`), milliseconds (`RefreshTiming`), properties of rows (`SessionRecords`) and measured values (`AlertValues`).

Where the code and its documentation differ, the model follows the code:
- packages/browser-observability/src/runtime-control/apply-document.js:88-94 says that state and gate are always
  consistent; before a first applied document a rejected one is reported as `invalid` while the gate is closed,
  which `ControlRegistry.StatusAgreesWithGate` states; and after the page's clock has stepped back a stale
  expiry can be reported while the gate is open (`ControlRegistry.StatusDisagreesExactly`,
  `ControlRegistry.StaleExpiryHappens`).
- packages/browser-observability/src/adapter/openobserve/sdk-fingerprint.js:9-11 promises that equal canonical texts
  mean byte-identical fields; the hash is over UTF-8, where unpaired surrogates collapse
  (`CanonicalBytes.HashedBytesExactly`).
- The dead-lettered body is the original one, so it stores the attempt before the last POST
  (`DeliveryWorker.DeadLetteredMessage`); refused bodies leave the counter of dead letters alone.
- An invalid global document is served in place of a valid scoped one (`ControlPlane.Resolve`).

## Model

| member | source | states |
|---|---|---|
| Topology.RetryIndex | packages/telemetry-delivery-core/src/rabbitmq.js:67-70 | the first attempts use the rungs in order, every later one the last rung, and a number below one the first |
| Topology.DeclareRetryQueues | packages/telemetry-delivery-core/src/rabbitmq.js:51-63 | the loop declares and binds exactly the missing rungs of its signal, each with its own delay and the main key as dead-letter key |
| Topology.DeclareSignal | packages/telemetry-delivery-core/src/rabbitmq.js:24-64 | one turn adds exactly the queues of its signal, each bound where the publishing side routes |
| Topology.AssertTopology | packages/telemetry-delivery-core/src/rabbitmq.js:18-65 | afterwards exactly the ten queues and ten bindings exist: 30, 120 and 300 s to live on the three rungs and main as where they dead-letter, a delivery limit of 16 and the dead letters of the signal on main, neither on the dead letters, and each kind with its own pair of limits |
| DeliveryBroker.ExpiresAsDeclared | packages/telemetry-delivery-core/src/rabbitmq.js:51-63 | in every reachable state a message leaves its queue by expiry if and only if that queue was declared with a time to live which is over, and goes to the queue bound to the dead-letter key it was declared with |
| DeliveryBroker.LimitAsDeclared | packages/telemetry-delivery-core/src/rabbitmq.js:35-44 | a message in hands came from a queue with the declared delivery limit, and the limit sends it where that queue was declared to dead-letter |
| DeliveryBroker.RetryKeysAreBound | packages/telemetry-delivery-core/src/rabbitmq.js:67-70 | for every attempt number the retry key is bound, to a queue with a time to live |
| DeliverySafety.Conservation | apps/telemetry-delivery-worker/src/runtime.js:129-175 | in every reachable state acceptances plus standing copies of an event are one plus the requeues of finished messages, and zero for an event never stored |
| DeliverySafety.AnsweredNeverLost | apps/telemetry-ingest/src/server.js:123-124 | an event answered 202 was accepted or has a copy in a queue, a dead-letter queue or unfinished hands |
| DeliverySafety.NoDuplicateWithoutLateRequeue | apps/telemetry-delivery-worker/src/runtime.js:153-174 | if no finished message was requeued, the event is accepted at most once, is not both accepted and held, and is held by at most one copy |
| DeliverySafety.WorkBound | apps/telemetry-delivery-worker/src/runtime.js:141-174 | POSTs made plus attempts left never exceed 16 per life, with one more life per requeue; acceptances plus standing copies never exceed one per life |
| DeliverySafety.AttemptTakesItsDelays | packages/telemetry-delivery-core/src/rabbitmq.js:51-70 | a copy back in main or in the worker with stored attempt a first failed at least the sum of its a retry delays ago |
| DeliverySafety.DelaySumTail | packages/telemetry-delivery-core/src/constants.js:43-55 | from the third rung on the ladder has taken 450 s plus 300 s per further attempt |
| DeliverySafety.AttemptLimitNeedsLongOutage | apps/telemetry-delivery-worker/src/runtime.js:165-173 | dead-lettering for the attempt limit stores attempt 15 and needs two failures at least 4050 s apart |
| DeliverySafety.OutageSurvival | packages/telemetry-delivery-core/src/constants.js:43-55 | an event whose failures fall into one half-open window of 4050 s is never dead-lettered for the attempt limit |
| DeliverySafety.SignalsNeverMix | packages/telemetry-delivery-core/src/rabbitmq.js:24-64 | no copy is ever in a queue of the other signal |
| DeliveryProgress.ClimbRung | apps/telemetry-delivery-worker/src/runtime.js:165-170 | one failed attempt raises the stored attempt by one and costs exactly the delay of its rung |
| DeliveryProgress.Climb | packages/telemetry-delivery-core/src/constants.js:55 | for each attempt below 16 a run reaches it in exactly the sum of its delays |
| DeliveryProgress.LadderIsTight | packages/telemetry-delivery-core/src/constants.js:43-55 | some run dead-letters an event for the attempt limit with all failures in a closed window of 4050 s, so the survival bound cannot be widened |
| DeliveryProgress.DeliverFromRetry | packages/telemetry-delivery-core/src/rabbitmq.js:51-63 | a message in a retry queue can expire back to main and be accepted |
| DeliveryProgress.NeverStuck | apps/telemetry-delivery-worker/src/runtime.js:129-175 | from every reachable state each standing copy that is not in the dead letters and whose body is not refused can still be accepted, even one whose handler is about to dead-letter it |
| DeliveryWorker.RetriedMessage | apps/telemetry-delivery-worker/src/runtime.js:165-170 | a retried message lands on the rung of its incremented attempt with all else kept, and the taken one is settled |
| DeliveryWorker.DeadLetteredMessage | apps/telemetry-delivery-worker/src/runtime.js:193-215 | a refused, rejected or exhausted message lands unchanged, with its old attempt, in the dead letters of its signal; the limit is its reason exactly when the failure was retryable |
| DeliveryWorker.NackedMessageIsKept | apps/telemetry-delivery-worker/src/runtime.js:217-241 | after a nacked republish nothing was acked or added: once redelivered, the broker holds exactly the message that was taken, with its stored attempt |
| DeliveryAnswers.StatusDecides | packages/telemetry-delivery-core/src/openobserve.js:33-44 | for every status and every message that is not refused and has an attempt left: 2xx, and nothing else, delivers it; 408, 429 and 5xx, and nothing else, put it with one more attempt on the rung of that attempt; all others, and nothing else, put it unchanged in the dead letters |
| DeliveryAnswers.SilenceRetries | packages/telemetry-delivery-core/src/openobserve.js:21-27 | a timeout and a lost connection do what a 503 does |
| DeliveryAnswers.LastStatusDecides | apps/telemetry-delivery-worker/src/runtime.js:153-174 | on the last attempt whatever is not 2xx puts the message in the dead letters |
| DeliveryAnswers.OutageNeverDeadLetters | apps/telemetry-delivery-worker/src/runtime.js:165-173 | over whole runs: an event with no refused body, whose only answers are 408, 429, 5xx or none, within one window of 4050 s, has no copy that a handler dead-lettered or is about to |
| DeliveryAnswers.RefusedNeverPosted | apps/telemetry-delivery-worker/src/runtime.js:131-139 | over whole runs: an event with only refused bodies is never posted, accepted or retried, and dead-lettered for its body only |
| DeliveryWorker.Worker.PublishRetry | apps/telemetry-delivery-worker/src/runtime.js:186-191 | publishing the incremented body is the protocol's retry step, or no step on a nack |
| DeliveryWorker.Worker.PublishDlq | apps/telemetry-delivery-worker/src/runtime.js:193-215 | publishing the original body is the protocol's dead-letter step, or no step on a nack |
| DeliveryWorker.Worker.HandleMessage | apps/telemetry-delivery-worker/src/runtime.js:129-175 | a handler is a run of the protocol: it acks only what was accepted or republished with a confirm, and counts exactly that |
| ControlDocument.BuiltDocumentValid | apps/observability-control-plane/src/io.js:122-161 | a freshly built document passes validation against its predecessor unless it is an active one with an unknown reason code |
| ControlDocument.AcceptanceMeans | apps/observability-control-plane/src/io.js:122-175 | page and plane accept exactly the documents with a revision of at least 0, one of the six reasons and a lifetime of at most 600 s that has not ended and begins within 60 s and 300 s respectively |
| ControlDocument.PageAcceptsOnlyWhatPlaneAccepts | packages/browser-observability/src/runtime-control/validate-document.js:65-85 | every document the page accepts is valid for the plane if and only if the page's clock is between 0 and 240 s ahead |
| ScopeKey.ScopePartMeans | apps/observability-control-plane/src/state.js:269-271 | the parts are the texts of 1 to 80 code points from small letters, digits, dot, underscore and hyphen that start with a letter or digit |
| ScopeKey.DecodeThenEncode | apps/observability-control-plane/src/state.js:259-267 | a decoded key is the key of the valid scope it decodes to |
| ScopeKey.EncodeThenDecode | apps/observability-control-plane/src/state.js:259-271 | a valid scope's key decodes to that scope when neither part contains the separator and the service does not end in an underscore, and to nothing otherwise |
| ScopeKey.SharesKeyExactly | apps/observability-control-plane/src/state.js:259-271 | a valid scope shares its file with another valid scope if and only if its service or its environment holds a separator, not at either end, followed by a letter or digit, where a cut leaves both parts within 80 characters |
| ScopeKey.CutService | apps/observability-control-plane/src/state.js:259-261 | cutting at such a separator of the service gives another valid scope with the same file |
| ScopeKey.CutEnvironment | apps/observability-control-plane/src/state.js:259-261 | and so does cutting at one of the environment |
| ScopeKey.KeyInjective | apps/observability-control-plane/src/state.js:259-261 | in particular a valid scope that decodes shares its key with no other valid scope |
| ScopeKey.KeyCollision | apps/observability-control-plane/src/state.js:259-261 | an instance of the cut: two valid scopes whose services are "a__b" and "a" share a file |
| ControlPlane.PublishRaisesMax | apps/observability-control-plane/src/state.js:80-113 | a published revision is above every stored one and is then the largest; only the addressed file changes |
| ControlPlane.PublishMeans | apps/observability-control-plane/src/state.js:80-113 | a publish is refused for its scope or for the unknown reason of an active document, and for nothing else; otherwise the one file holds the next revision, issued now for 600 s, with no reason unless active |
| ControlPlane.HeldExactly | apps/observability-control-plane/src/state.js:119-144 | the worker is held if and only if the global document is missing, not in force or a kill switch, or the file of some valid scope whose key decodes is a kill switch in force |
| ControlPlane.WorkerReads | apps/telemetry-delivery-worker/src/control-state.js:25-42 | the worker consumes if and only if there is a document and it does not hold |
| ControlPlane.HoldAgreesWithServing | apps/observability-control-plane/src/state.js:119-144 | a delivery document that lets the worker consume implies that a scope is served no valid kill switch, in all states of the files, if and only if the key of the scope decodes |
| ControlPlane.UndecodableEscapesHold | apps/observability-control-plane/src/state.js:127-128 | for every valid scope whose key does not decode, two publishes after which the worker may consume while the scope is served a valid kill switch |
| ControlPlane.Plane.StoredRevisions | apps/observability-control-plane/src/state.js:211-221 | the collected list holds exactly the stored revisions |
| ControlPlane.Plane.MaxControlRevision | apps/observability-control-plane/src/state.js:211-223 | the largest stored revision over the global and all scoped files, or -1 |
| ControlPlane.Plane.PublishControl | apps/observability-control-plane/src/state.js:80-113 | builds on the largest revision, refuses an invalid scope or document without writing, otherwise writes the one file |
| ControlPlane.Plane.DeliveryControlDocument | apps/observability-control-plane/src/state.js:119-144 | the worker may consume if and only if the global document is valid and inactive and no decodable scoped file is a valid kill switch; the listed holds are exactly those |
| ControlServing.GlobalServed | apps/observability-control-plane/src/state.js:198-206 | a page of no scope, a scope without a file, an active and an invalid global document: the answer is the global document |
| ControlServing.ScopedKillServed | apps/observability-control-plane/src/state.js:206-207 | under a valid inactive global document a kill switch of the scope is the answer, newer or older |
| ControlServing.NewerServed | apps/observability-control-plane/src/state.js:206-208 | without a kill switch the answer is the newer of the two documents |
| ControlServing.GlobalKillReachesPages | apps/observability-control-plane/src/state.js:198-206 | over whole runs: while a global kill switch stands, every poll of every page at whose clock it is acceptable fetches exactly it and leaves the page latched with its gate closed |
| ControlServing.ScopedKillReachesPages | apps/observability-control-plane/src/state.js:198-207 | over whole runs: while a kill switch of the scope stands under a valid inactive global document, every poll at whose page clock it is acceptable fetches exactly it, and latches the page unless an unlatched page skipped it before |
| ControlServing.PublishedKillAcceptable | apps/observability-control-plane/src/io.js:148-161 | a published kill switch is acceptable to a page from 60 s before it was issued until 600 s after |
| ControlRegistry.ReplayCurrent | packages/browser-observability/src/runtime-control/apply-document.js:26-49 | after any outcomes the current document is the newest fetched one, applied when it first arrived |
| ControlRegistry.OutcomeKind | packages/browser-observability/src/runtime-control/apply-document.js:29-42 | what the registry decides about a fetched document is decided by the fetched revisions alone |
| ControlRegistry.HistoryConservation | packages/browser-observability/src/runtime-control/apply-document.js:19-86 | each counter counts its kind of outcome, the four sum to the number of outcomes, the failure streak is the trailing run without success, expired never exceeds failed, activations are 1 exactly when latched |
| ControlRegistry.LatchedExactly | packages/browser-observability/src/runtime-control/apply-document.js:72-86 | the page is latched if and only if some applied document was an active kill switch |
| ControlRegistry.LatchIsForever | packages/browser-observability/src/runtime-control/apply-document.js:72-79 | whatever arrives after a latch, the latch and its reason stay and the gate is closed at every time |
| ControlRegistry.OpenGateIsRecent | packages/browser-observability/src/runtime-control/gate.js:13-18 | if each document was accepted at a clock reading not after the one it was applied at, an open gate means an unlatched page and a document applied less than 660 s ago |
| ControlRegistry.OpenGateBoundIsTight | packages/browser-observability/src/runtime-control/validate-document.js:65-85 | some accepted document keeps the gate open until the last millisecond of the 660 s |
| ControlRegistry.ReplayOutcome | packages/browser-observability/src/runtime-control/apply-document.js:61-70 | a reported expiry was true when the last outcome was applied, and before the first apply the outcome is none, invalid or expired |
| ControlRegistry.StatusDisagreesExactly | packages/browser-observability/src/runtime-control/apply-document.js:95-101 | after any outcomes and at any clock reading, state and gate disagree if and only if the last failure found the document expired, the reading asked now finds it live again and no refresh is running |
| ControlRegistry.StaleExpiryHappens | packages/browser-observability/src/runtime-control/apply-document.js:61-65 | an honest history after which this happens: expired is reported while the gate is open |
| ControlRegistry.StatusAgreesWithGate | packages/browser-observability/src/runtime-control/apply-document.js:95-101 | at every time since the last outcome the gate is open if and only if the reported state is neither kill-switched, expired nor the invalid state of a page without a document |
| ControlOutcomes.CurrentIsFirstNewest | packages/browser-observability/src/runtime-control/apply-document.js:26-48 | the page holds the newest document fetched as it first arrived, with the time it was applied then |
| ControlOutcomes.RecordedExactly | packages/browser-observability/src/runtime-control/apply-document.js:22-69 | the last outcome is recorded as fresh, rollback-rejected, invalid, degraded or expired exactly by the documents fetched so far and the clock it was applied at |
| ControlOutcomes.ReportedExactly | packages/browser-observability/src/runtime-control/apply-document.js:95-101 | the reported state, for every history with a document, clock reading and refresh, in the outcomes alone |
| ControlOutcomes.ReportedBeforeFetch | packages/browser-observability/src/runtime-control/apply-document.js:97 | and for every history without one |
| ControlOutcomes.GateExactly | packages/browser-observability/src/runtime-control/gate.js:13-18 | the gate is open if and only if the newest document fetched has not expired and none applied was a kill switch |
| ControlOutcomes.ExpiriesCounted | packages/browser-observability/src/runtime-control/apply-document.js:61-65 | the counter of expiries is the number of failed transports that found no live document |
| ControlOutcomes.FirstKillReason | packages/browser-observability/src/runtime-control/apply-document.js:72-86 | the reason kept is that of the first kill switch applied |
| ControlOutcomes.CalmReason | packages/browser-observability/src/runtime-control/apply-document.js:80-81 | without one it is that of the newest document, and none before the first |
| ControlRegistry.PageRegistry.constructor | packages/browser-observability/src/runtime-control/registry.js:11-47 | the initial registry is the empty history |
| ControlRegistry.PageRegistry.HandleFailure | packages/browser-observability/src/runtime-control/apply-document.js:52-70 | a failure counts once, as rejected document or failed transport, and tells a live cache from an expired one |
| ControlRegistry.PageRegistry.ApplyKillSwitch | packages/browser-observability/src/runtime-control/apply-document.js:72-86 | latches and counts once, and changes nothing after the latch |
| ControlRegistry.PageRegistry.ApplyFetchOutcome | packages/browser-observability/src/runtime-control/apply-document.js:19-50 | the updated fields are the specification's registry, whose histories the lemmas above describe |
| KillSwitch.RevisionsIncrease | apps/observability-control-plane/src/state.js:87-103 | over every run published revisions strictly increase across the global document and all scopes |
| KillSwitch.KillMissedExactly | apps/observability-control-plane/src/state.js:198-209 | in every run, whatever the clocks: a page misses the active kill switch that it is served and accepts if and only if it is not latched and an earlier poll skipped this very document |
| KillSwitch.NoMissedKill | apps/observability-control-plane/src/state.js:198-209 | so a served and accepted kill switch that was not itself skipped, or that meets a latched page, leaves the page latched, with the gate closed, from that poll on, whether it was applied, already known or rejected as a rollback |
| KillSwitch.MissCountsRollback | packages/browser-observability/src/runtime-control/apply-document.js:29-34 | each kill switch that is missed is counted as one rollback |
| KillSwitch.BypassNeedsClocks | apps/observability-control-plane/src/state.js:201-202 | a poll is bypassed only at a page of some scope whose clock is not between 0 and 240 s ahead of the plane's, by a document that only the page accepts |
| KillSwitch.BypassIsExpired | apps/observability-control-plane/src/state.js:201-202 | while the plane's clock runs forward, a bypassed poll is one of a page that is behind: its clock is before the expiry of the global document and the plane's is not |
| KillSwitch.WhenClocksAgree | apps/observability-control-plane/src/state.js:200-202 | no poll of an unscoped page, and no poll whose clocks agree to that extent, is bypassed or skips a kill switch |
| KillSwitchOrder.OrderBrokenExactly | packages/browser-observability/src/runtime-control/apply-document.js:29-34 | in every run, for every poll: the page accepts a document older than one accepted before, not both being kill switches, if and only if it is a kill switch that an earlier bypassed poll passed over for a newer document, or the poll itself is bypassed by an inactive document behind the page's revision |
| KillSwitchOrder.ServedRevisionOrder | packages/browser-observability/src/runtime-control/apply-document.js:29-34 | over whole runs what a page accepted is in order, kill switches among themselves excepted, if and only if none of its polls was of that kind |
| KillSwitchOrder.RollbackExactly | packages/browser-observability/src/runtime-control/apply-document.js:29-34 | in every run a page that is not latched counts a rollback at exactly those polls |
| KillSwitchOrder.RollbackNeedsBrokenOrder | packages/browser-observability/src/runtime-control/apply-document.js:29-34 | over whole runs a page that is not latched has counted a rollback if and only if some poll was of that kind |
| KillSwitch.LatchStays | packages/browser-observability/src/runtime-control/apply-document.js:72-79 | no later publish, poll or failure clears the latch |
| KillSwitchClocks.SkipDecides | apps/observability-control-plane/src/state.js:198-209 | for every run, every next poll and any clocks: the poll skips a kill switch not skipped before if and only if some continuation without further skips serves such a kill switch and leaves the page unlatched |
| KillSwitchClocks.SkippedKillIsMissed | apps/observability-control-plane/src/state.js:200-209 | the continuation for every skip: the global document is renewed, and the next poll, at any page clock that accepts the kill switch, gets it and ignores it |
| KillSwitchClocks.ExactClockCondition | apps/observability-control-plane/src/state.js:198-209 | in particular, while the plane's clock runs forward and for a constant clock offset, some run misses a served kill switch if and only if the page's clock is behind |
| KillSwitchClocks.BehindMisses | packages/browser-observability/src/runtime-control/apply-document.js:29-34 | for every negative offset and valid scope, the run that misses it: a scoped kill switch, a newer inactive global document accepted after its expiry, then the kill switch, counted as a rollback |
| KillSwitchGate.KillNeverSkipped | apps/observability-control-plane/src/state.js:198-206 | no poll of any run skips a kill switch published globally, while it stands |
| KillSwitchGate.OnlyKillServed | apps/observability-control-plane/src/state.js:198-206 | while it stands, whatever a poll brings the page to accept is that kill switch, and latches the page |
| KillSwitchGate.GlobalKillClosesGate | apps/observability-control-plane/src/state.js:80-113 | from ten minutes after a global kill switch is published, the plane's clock having read no later time before, until another global document replaces it, the gate of every page is closed, whatever is polled, failed, rejected or published per scope and whatever the page's clock does |
| KillSwitchGate.GlobalKillBoundIsTight | apps/observability-control-plane/src/state.js:80-113 | a page that does not poll again keeps its gate open until the last millisecond of the ten minutes |
| RefreshDelay.RoundedJitterWithinTenth | packages/browser-observability/src/runtime-control/jitter.js:8-16 | in every arithmetic with the order, exactness and accuracy of IEEE doubles, and for every seed, the jitter moves a delay of whole hundredths of a second by at most a tenth of its base |
| RefreshDelay.RoundedBackoffGrows | packages/browser-observability/src/runtime-control/refresh-engine.js:63-76 | in each of them a longer failure streak waits strictly longer up to the last rung, between 15 and 300 s |
| RefreshDelay.ExactIsIeee | packages/browser-observability/src/runtime-control/jitter.js:9-14 | exact arithmetic, which the loop model computes with, is one of them |
| RefreshDelay.JitterReachesBothEnds | packages/browser-observability/src/runtime-control/jitter.js:13-15 | three attempts at the last rung get 270 000, 323 947 and 330 000 ms, so the tenth is used in full |
| RefreshLoop.NeverDoublesNeverStalls | packages/browser-observability/src/runtime-control/refresh-engine.js:19-155 | after every interleaving at most one timer and one fetch are outstanding, delays are 15 to 300 s, a started loop has a timer or a caller that will reschedule, a stopped one has no timer |
| RefreshLoop.RefreshesWithinSlack | packages/browser-observability/src/runtime-control/refresh-engine.js:92-109 | from every reachable started state, every run without a stop begins another refresh before its timer callbacks, settled fetches and continuations exceed a bound computed from the state, whatever events, starts and initial fetches are mixed in |
| RefreshLoop.AlwaysRefreshesAgain | packages/browser-observability/src/runtime-control/refresh-engine.js:92-109 | and such a run exists from each of these states, so the loop never blocks |
| RefreshLoop.LoopReplays | packages/browser-observability/src/runtime-control/refresh-engine.js:30-38 | the registry of a loop is the replay of its completed fetches, start and stop included |
| RefreshLoop.GateSafety | packages/browser-observability/src/runtime-control/gate.js:13-18 | over whole runs with stops and restarts a latched page keeps its gate closed; and an open gate is less than 660 s from the last apply if no fetch was accepted at a later reading than it was applied at |
| RefreshTiming.ResumeSchedules | packages/browser-observability/src/runtime-control/refresh-engine.js:92-109 | over every run: when a caller goes on that awaited a cycle, the only timer of the started loop is due within a tenth of 30 s if the document of that cycle was not older than any before it, and otherwise within a tenth of 15, 30, 60, 120 or 300 s for the failures in a row so far |
| RefreshTiming.StartSchedules | packages/browser-observability/src/runtime-control/refresh-engine.js:138-147 | the first timer after a start, by the failures in a row so far |
| RefreshTiming.TriggerBegins | packages/browser-observability/src/runtime-control/refresh-engine.js:101-109 | an online or visibility event of a started loop begins the one request at once if none is in flight, and otherwise only drops the timer |
| RefreshTiming.TimerBegins | packages/browser-observability/src/runtime-control/refresh-engine.js:92-99 | a timer begins the one request if none is in flight, and otherwise waits for the one that is |
| RefreshTiming.InitialFetchBegins | packages/browser-observability/src/runtime-control/refresh-engine.js:52-61 | the initial fetch begins a request if and only if no document was applied and none is in flight, and schedules nothing |
| RefreshTiming.StopEnds | packages/browser-observability/src/runtime-control/refresh-engine.js:149-155 | a stop drops the timer, and whatever was awaited schedules nothing afterwards |
| RefreshTiming.CompleteReadies | packages/browser-observability/src/runtime-control/refresh-engine.js:30-38 | when the request settles, exactly the callers that awaited it go on |
| RefreshEngine.Engine.RunRefreshCycle | packages/browser-observability/src/runtime-control/refresh-engine.js:19-42 | single flight: joins the fetch in flight or begins one |
| RefreshEngine.Engine.Schedule | packages/browser-observability/src/runtime-control/refresh-engine.js:78-90 | the new timer replaces the pending one |
| RefreshEngine.Engine.Tick | packages/browser-observability/src/runtime-control/refresh-engine.js:92-96 | the timer callback up to its await is the machine's timer step |
| RefreshEngine.Engine.TriggerImmediateRefresh | packages/browser-observability/src/runtime-control/refresh-engine.js:101-106 | the event handler up to its await is the machine's trigger step; with a fetch in flight it only drops the timer |
| RefreshEngine.Engine.PerformInitialControlFetch | packages/browser-observability/src/runtime-control/refresh-engine.js:52-56 | the machine's initial fetch: a cycle unless a document was applied before |
| RefreshEngine.Engine.CompleteCycle | packages/browser-observability/src/runtime-control/refresh-engine.js:30-38 | settling applies the outcome, releases the flight and readies every caller |
| RefreshEngine.Engine.Reschedule | packages/browser-observability/src/runtime-control/refresh-engine.js:97-98 | the continuation schedules the next refresh unless the loop was stopped |
| RefreshEngine.Engine.StartRuntimeControlLoop | packages/browser-observability/src/runtime-control/refresh-engine.js:138-147 | the machine's start step; idempotent while started |
| RefreshEngine.Engine.StopRuntimeControlLoop | packages/browser-observability/src/runtime-control/refresh-engine.js:149-155 | the machine's stop step |
| ContractScanner.ReadStringAt | packages/observability-contracts/src/duplicate-keys.js:118-137 | the index loop reads what the string grammar says, keeps escapes as spelled, moves on, and fails exactly where the text ends first |
| ContractScanner.Tokenize | packages/observability-contracts/src/duplicate-keys.js:86-116 | the loop ends on every text and computes the token sequence of the lexical grammar, or fails where it does |
| ContractScanner.ScanTurn | packages/observability-contracts/src/duplicate-keys.js:34-81 | one turn on stack, mode and flag is the push-down step, and throws exactly where it has none |
| ContractScanner.HasDuplicateObjectKeys | packages/observability-contracts/src/duplicate-keys.js:11-84 | the two loops compute the answer that the exactness lemma is about; malformed text answers no |
| ContractScannerProofs.LexDocument | packages/observability-contracts/src/duplicate-keys.js:86-116 | lexing inverts printing: a printed tree, in any whitespace, lexes to the tokens of the tree |
| ContractScannerProofs.ScanValue | packages/observability-contracts/src/duplicate-keys.js:22-84 | scanning a tree's tokens returns to the stack it began with and sets the flag if and only if the tree holds a duplicate |
| ContractScannerProofs.DetectsExactly | packages/observability-contracts/src/duplicate-keys.js:11-137 | on every printed tree the answer is yes if and only if some object at any depth repeats the spelling of a key |
| ContractScannerProofs.SurplusAnswersNo | packages/observability-contracts/src/duplicate-keys.js:45-65 | after a whole value a further closing bracket, comma or colon makes the answer no, whatever duplicates came before or come after |
| ContractScannerProofs.UnclosedAnswersNo | packages/observability-contracts/src/duplicate-keys.js:118-137 | so does a string that is never closed |
| JsonText.SeenOrRepeated | packages/observability-contracts/src/duplicate-keys.js:69-75 | checking keys from left to right against a growing set finds exactly the repeated ones |
| BrowserScanner.ReadJsonString | packages/browser-observability/src/runtime-control/duplicate-keys.js:36-51 | the loop reads string contents with each escape reduced to its backslash, unterminated strings up to the end |
| BrowserScanner.HasDuplicateObjectKeys | packages/browser-observability/src/runtime-control/duplicate-keys.js:1-34 | the single pass, early return included, computes the run that the lemmas below are about |
| BrowserFold.DetectsIsFold | packages/browser-observability/src/runtime-control/duplicate-keys.js:1-34 | on printed text the pass is a fold over the tree, blind to the whitespace |
| BrowserScannerProofs.BrowserDetectsExactly | packages/browser-observability/src/runtime-control/duplicate-keys.js:1-51 | the answer is yes if and only if some object compares two equal reduced strings among its keys and the strings of its arrays that have a comma between the colon and themselves |
| BrowserScannerProofs.BrowserMissesNothing | packages/browser-observability/src/runtime-control/duplicate-keys.js:9-19 | whatever the exact scanner reports on a printed tree this one reports |
| BrowserScannerProofs.ScannersAgreeOnCalm | packages/browser-observability/src/runtime-control/duplicate-keys.js:1-51 | the two agree on every text without a backslash in a key and without a string taken for a key |
| BrowserScannerProofs.NoArraysIsCalm | packages/browser-observability/src/runtime-control/duplicate-keys.js:26-27 | texts without arrays and without a backslash in a key are of that kind |
| BrowserScannerProofs.ItemTakenForKey | packages/browser-observability/src/runtime-control/duplicate-keys.js:26-27 | an object with one member whose array holds a string after a comma has no duplicate, yet is reported if and only if the reduced string equals the reduced key |
| BrowserScannerProofs.TwoKeysCompared | packages/browser-observability/src/runtime-control/duplicate-keys.js:41-45 | two keys are a duplicate if and only if their spellings are equal, and reported if and only if their reductions are |
| BrowserScannerProofs.OverApproximates | packages/browser-observability/src/runtime-control/duplicate-keys.js:1-51 | two concrete duplicate-free texts that are reported, one by an array string and one by escaped keys |
| SessionAggregation.AggregateMeans | apps/session-metadata-sync/src/sync.js:184-229 | every session's start and end are the least and greatest positive time of its rows and its four sets the identifiers of its rows; a session exists if and only if a safe row names it |
| SessionAggregation.DependsOnlyOnSet | apps/session-metadata-sync/src/sync.js:184-229 | reordering or repeating rows changes neither the sessions found nor their times and identifier sets |
| SessionAggregation.BatchesMerge | apps/session-metadata-sync/src/sync.js:184-229 | aggregating two batches together is the min, max and union merge of their aggregates |
| SessionAggregation.RecordSpan | apps/session-metadata-sync/src/sync.js:231-282 | a record is stored if and only if a row is timed; its span is within a millisecond of the rows, never negative, at most eight hours |
| SessionRecords.RecordCounts | apps/session-metadata-sync/src/sync.js:264-267 | the four counts of each stored record are the numbers of error, view, action and frustration identifiers that the safe rows of its session carry, spelled out in the properties of the rows |
| SessionRecords.RecordTimes | apps/session-metadata-sync/src/sync.js:231-263 | the timestamp is the latest positive time of the session, the start the earliest in milliseconds, halves upwards, the duration their distance cut at eight hours |
| SessionRecords.RecordTexts | apps/session-metadata-sync/src/sync.js:270-277 | each text field holds what the first safe row says that names it, cut to 80 characters, or its own fallback if none does |
| SessionRecords.RecordTags | apps/session-metadata-sync/src/sync.js:223-224 | the tags are the strings, twenty at most, of the last array of tags |
| SessionRecords.RecordsInOrder | apps/session-metadata-sync/src/sync.js:227 | the records come in the order in which their sessions are first named |
| SessionRecords.NumbersReadBack | apps/session-metadata-sync/src/sync.js:211-215 | a number used as identifier is its decimal numeral |
| SessionRecords.RejectionsExactly | apps/session-metadata-sync/src/sync.js:189-199 | there is one diagnostic for each unsafe row, in order, with the time of the run and the property found |
| SessionAggregation.UpdateSession | apps/session-metadata-sync/src/sync.js:202-215 | updating in place is merging with the session of the row alone |
| SessionDescriptors.DescriptorIsFirst | apps/session-metadata-sync/src/sync.js:216-222 | each of the seven descriptors is what the first row of the session that offers one offers, and unset if and only if none does |
| SessionDescriptors.TagsAreLast | apps/session-metadata-sync/src/sync.js:223-224 | the tags are the first twenty texts of the last array of tags |
| SessionDescriptors.DescriptorIgnoresOrderExactly | apps/session-metadata-sync/src/sync.js:216-222 | reordering and repeating rows leaves a descriptor alone if and only if the rows of the session that offer it agree |
| SessionSync.OneRecordPerTimedSession | apps/session-metadata-sync/src/sync.js:227-232 | a batch stores exactly one record for each session with a timed row, and no others |
| SessionSync.AggregateSessionMetadataRows | apps/session-metadata-sync/src/sync.js:184-229 | the loop computes the records, in the order in which sessions are first seen, and one diagnostic per unsafe row, in order |
| AlertPolicy.CountersReadTrace | scripts/lab/alerts/policy.js:135-188 | the breach counter is the trailing breaches of the trace, failed queries and missing data ignored; with an open incident the healthy counter is the recoveries since the last breach |
| AlertPolicy.TrailingWindow | scripts/lab/alerts/policy.js:156-175 | those breaches lie in a final window of the trace without a healthy or under-sampled evaluation |
| AlertPolicy.FiringIsEarned | scripts/lab/alerts/policy.js:156-169 | every firing ends a window with the required breaches and no healthy or under-sampled evaluation |
| AlertPolicy.ResolutionIsEarned | scripts/lab/alerts/policy.js:175-185 | every resolution follows at least the required recoveries since the last breach, and is one itself |
| AlertPolicy.FiringsRespectCooldown | scripts/lab/alerts/policy.js:160-168 | successive firings of a trace are at least the cooldown apart, in order, whatever the keys and the clock |
| AlertPolicy.AnyTwoFiringsRespectCooldown | scripts/lab/alerts/policy.js:160-168 | and so are any two, if the cooldown is not negative |
| AlertPolicy.NotificationsAlternate | scripts/lab/alerts/policy.js:163-184 | with one key notifications strictly alternate, firing first; with the empty key there is at most one |
| AlertPolicy.FiresAndResolvesExactly | scripts/lab/alerts/policy.js:156-185 | with one non-empty key a sample fires if and only if it is a breach with enough trailing breaches, an even number of notes so far and the last firing a cooldown ago; it resolves if and only if it is a recovery with enough recoveries since the last breach and an odd number of notes |
| AlertPolicy.StatusReadsTrace | scripts/lab/alerts/policy.js:135-188 | firing, pending, resolved and healthy are each reported exactly when the last sample, the trailing breaches and the resolution just sent say so |
| AlertValues.NotesExactly | scripts/lab/alerts/policy.js:97-188 | for every trace and any keys: the n-th sample sends a firing if and only if it exceeds the threshold, ends a window with the required number that do and otherwise unanswered samples, its key is not that of the open incident and the last firing is a cooldown ago; it resolves if and only if it is back at the recovery value, enough did since the last that exceeded, and an incident with a key is open; otherwise nothing is sent |
| AlertValues.JudgeMeans | scripts/lab/alerts/policy.js:97-122 | what counts as exceeding, recovered, insufficient and unanswered, in measured values |
| AlertValues.UnansweredStatus | scripts/lab/alerts/policy.js:136-148 | failed query, missing data and insufficient sample are each reported exactly for such a sample, in that order |
| AlertPolicy.AlternatesExactly | scripts/lab/alerts/policy.js:163-184 | for any keys, firings and resolutions strictly alternate, firing first, if and only if no sample fires while an incident is open under another key |
| AlertPolicy.TwoKeysNeedNotAlternate | scripts/lab/alerts/policy.js:163-168 | an instance with two keys, in which a firing follows a firing |
| AlertPolicy.Evaluator.EvaluateBreach | scripts/lab/alerts/policy.js:156-173 | the breach branch: counts, fires if enough, not already open under this key and cooled down |
| AlertPolicy.Evaluator.EvaluatePolicySample | scripts/lab/alerts/policy.js:135-188 | the mutated state is the specification's, and the returned notification is the one appended |
| CanonicalEncoding.EncodeCanonical | packages/browser-observability/src/adapter/openobserve/sdk-fingerprint.js:12-21 | the appending loop computes the encoding that is proved injective |
| CanonicalEncoding.LengthGrows | packages/browser-observability/src/adapter/openobserve/sdk-fingerprint.js:17 | a string that extends another has more UTF-8 bytes, even when it completes a surrogate pair |
| CanonicalEncoding.DecimalReadsBack | packages/browser-observability/src/adapter/openobserve/sdk-fingerprint.js:18 | a decimal length reads back and holds no colon |
| CanonicalEncoding.OneField | packages/browser-observability/src/adapter/openobserve/sdk-fingerprint.js:18 | the first field of a text is determined by the text, whatever follows it |
| CanonicalEncoding.EncodingIsInjective | packages/browser-observability/src/adapter/openobserve/sdk-fingerprint.js:12-21 | equal encodings come from equal field sequences, of any lengths |
| CanonicalBytes.Utf8HasLength | packages/browser-observability/src/adapter/openobserve/sdk-fingerprint.js:17 | the length written before a field is the number of its UTF-8 bytes |
| CanonicalBytes.FieldLengthIsWritten | packages/browser-observability/src/adapter/openobserve/sdk-fingerprint.js:16-18 | a field is written as decimal digits without a colon that read as the number of its UTF-8 bytes, a colon, and the field |
| CanonicalBytes.HashedBytesExactly | packages/browser-observability/src/adapter/openobserve/sdk-fingerprint.js:61-73 | the hashed bytes of two field sequences are equal if and only if the sequences are equal once every unpaired surrogate is replaced by U+FFFD |
| CanonicalBytes.LoneSurrogateCollides | packages/browser-observability/src/adapter/openobserve/sdk-fingerprint.js:70-73 | an unpaired surrogate and U+FFFD are different texts with the same hashed bytes |

## Left out

Assumptions and simplifications of what is modelled:

- The broker keeps what it confirmed and moves dead-lettered messages without loss; message order within a queue, queue limits and prefetch are not modelled. Its delivery limit is a requeue step that may send an unfinished copy to the dead letters at any time.
- "Accepted" means that the worker saw a 2xx answer; a POST that timed out may have been stored all the same.
- The verdict of the body checks (apps/telemetry-delivery-worker/src/runtime.js:131-135) is a fixed flag of the message. Messages that ingest did not produce, and the fallback that files unparsable bodies under rum, are not modelled.
- Queue names and routing keys are constructors instead of strings; HTTP handling, timeouts of the ingest confirm and the AMQP client are reduced to their outcomes. A confirm that times out is an event that is stored and never answered.
- Holding and resuming the worker's consumers, health endpoints and operational summaries.
- Control documents are already parsed: their JSON shape, unknown keys and unparsable dates are not modelled, and files hold only what publishes wrote. Building and validating in one publish share one clock reading.
- A poll is one step. Applying an outcome reads nothing that a publish writes, so a publish between serving and applying is one after the poll.
- KillSwitch.NoMissedKill: leaves out kill switches that were themselves skipped; those are missed (KillSwitch.KillMissedExactly).
- RefreshLoop.RefreshesWithinSlack: counts callbacks; that timers fire and fetches settle at all is up to the browser.
- The coordinator that starts the loop (only the fact that a document has been applied by then is used), the abort of a fetch by stop (its outcome is any outcome), and non-browser runtimes.
- RefreshDelay.RoundedJitterWithinTenth: abstracts doubles to what the bounds need of them; the refresh loop itself computes delays in exact arithmetic.
- Scanner characters are Unicode scalar values instead of UTF-16 units; JSON literals are any words over letters, digits, sign and point, and string contents any text without a bare quote, so the results cover more texts than RFC 8259 allows.
- Timestamps of sessions that are fractional or strings, and identifiers that are neither strings nor integers; the search for unsafe property names is a fact about the row, and constant record fields are not listed. Search, watermark and upload of the session sync.
- Alert samples carry real numbers; NaN, values of other types and policy validation are not modelled. Notes carry the minute they were sent at, which the source does not store.
- Hexadecimal output and SHA-256 of the fingerprint.
- The runtime-config half of the control plane, its status, audit log and history.
- Sanitizers and detectors built on regular expressions, schema validation, consent, bootstrap and the vendor adapter, dashboards, packaging and guards: their properties are either about regular expressions or visible in one body.
