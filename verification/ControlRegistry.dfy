/**
 The page-lifetime runtime-control registry: what one fetch outcome does to it, the collection gate
 and the reported state derived from it.
 */
module ControlRegistry {
  import opened Wrappers
  import opened ControlDocument

  datatype TransportFailure = HttpError | ContentTypeInvalid | TooLarge | JsonInvalid | FetchTimeout | Unavailable

  /** A rejected document is told apart from a failed transport. */
  datatype FetchResult =
    | Fetched(document: Document)
    | DuplicateKey
    | Rejected(reason: Rejection)
    | Failed(failure: TransportFailure)

  datatype ControlState = Fresh | Refreshing | Degraded | ExpiredState | InvalidState | RollbackRejected | KillSwitched

  datatype Counters = Counters(
    refreshSucceeded: nat,
    refreshFailed: nat,
    invalidRejected: nat,
    rollbackRejected: nat,
    expiredFailClosed: nat,
    killSwitchActivated: nat)

  datatype Registry = Registry(
    currentDocument: Option<Document>,
    lastCheckedAt: Option<int>,
    lastAppliedAt: Option<int>,
    consecutiveFailures: nat,
    hasAppliedOnce: bool,
    killSwitchActive: bool,
    killSwitchLatched: bool,
    killSwitchReasonCode: string,
    counters: Counters,
    lastOutcomeState: Option<ControlState>)

  const INITIAL := Registry(None, None, None, 0, false, false, false, "none",
                            Counters(0, 0, 0, 0, 0, 0), None)

  function CurrentRevision(r: Registry): int {
    if r.currentDocument.Some? then r.currentDocument.value.revision else -1
  }

  function CacheLive(r: Registry, now: int): bool {
    r.hasAppliedOnce && r.currentDocument.Some? && Live(r.currentDocument.value, now)
  }

  /** What one fetch outcome means to the registry. */
  datatype Kind = Newer(document: Document) | Same | Older | Invalid | Unreachable

  function KindOf(r: Registry, result: FetchResult): Kind {
    match result
    case Failed(_) => Unreachable
    case DuplicateKey => Invalid
    case Rejected(_) => Invalid
    case Fetched(document) =>
      if document.revision < CurrentRevision(r) then Older
      else if document.revision == CurrentRevision(r) then Same
      else Newer(document)
  }

  predicate Successful(kind: Kind) {
    kind.Newer? || kind.Same?
  }

  function Count(n: nat, event: bool): nat {
    if event then n + 1 else n
  }

  function NextCounters(c: Counters, kind: Kind, cacheLive: bool, latched: bool): Counters {
    Counters(
      Count(c.refreshSucceeded, Successful(kind)),
      Count(c.refreshFailed, kind.Unreachable?),
      Count(c.invalidRejected, kind.Invalid?),
      Count(c.rollbackRejected, kind.Older?),
      Count(c.expiredFailClosed, kind.Unreachable? && !cacheLive),
      Count(c.killSwitchActivated, kind.Newer? && kind.document.active && !latched))
  }

  function NextOutcomeState(kind: Kind, cacheLive: bool): ControlState {
    match kind
    case Newer(_) => Fresh
    case Same => Fresh
    case Older => RollbackRejected
    case Invalid => InvalidState
    case Unreachable => if cacheLive then Degraded else ExpiredState
  }

  /** The registry after one fetch outcome, applied at `now`, field by field. */
  function Apply(r: Registry, result: FetchResult, now: int): Registry {
    var kind := KindOf(r, result);
    var flips := kind.Newer? && !r.killSwitchLatched;
    Registry(
      if kind.Newer? then Some(kind.document) else r.currentDocument,
      Some(now),
      if kind.Newer? then Some(now) else r.lastAppliedAt,
      if Successful(kind) then 0 else r.consecutiveFailures + 1,
      r.hasAppliedOnce || kind.Newer?,
      if flips then kind.document.active else r.killSwitchActive,
      r.killSwitchLatched || (kind.Newer? && kind.document.active),
      if flips then kind.document.reasonCode else r.killSwitchReasonCode,
      NextCounters(r.counters, kind, CacheLive(r, now), r.killSwitchLatched),
      Some(NextOutcomeState(kind, CacheLive(r, now))))
  }

  predicate ShouldBackoff(r: Registry, result: FetchResult) {
    !Successful(KindOf(r, result))
  }

  predicate GateOpen(r: Registry, now: int) {
    r.hasAppliedOnce && !r.killSwitchLatched && r.currentDocument.Some? && Live(r.currentDocument.value, now)
  }

  function ReportedState(r: Registry, refreshing: bool, now: int): ControlState {
    if r.killSwitchLatched then KillSwitched
    else if !r.hasAppliedOnce then (if r.lastOutcomeState.Some? then r.lastOutcomeState.value else ExpiredState)
    else if !(r.currentDocument.Some? && Live(r.currentDocument.value, now)) then ExpiredState
    else if refreshing then Refreshing
    else if r.lastOutcomeState.Some? then r.lastOutcomeState.value
    else Fresh
  }

  // ----- histories of outcomes

  /** One completed cycle: validated by the page at `fetchedAt`, applied at `appliedAt`. */
  datatype Outcome = Outcome(result: FetchResult, fetchedAt: int, appliedAt: int)

  function Replay(history: seq<Outcome>): Registry {
    if history == [] then INITIAL
    else
      var last := history[|history| - 1];
      Apply(Replay(history[..|history| - 1]), last.result, last.appliedAt)
  }

  /** What every fetched document satisfies, whatever the clocks. */
  ghost predicate Numbered(history: seq<Outcome>) {
    forall i :: 0 <= i < |history| && history[i].result.Fetched? ==> history[i].result.document.revision >= 0
  }

  /** Documents come from a fetch that accepted them, at a clock reading not after the one they were applied at. */
  ghost predicate Honest(history: seq<Outcome>) {
    forall i :: 0 <= i < |history| && history[i].result.Fetched? ==>
      && history[i].fetchedAt <= history[i].appliedAt
      && PageAccepts(history[i].result.document, history[i].fetchedAt)
  }

  /** The last outcome brought a document that is not older than any fetched before it. */
  ghost predicate Succeeds(history: seq<Outcome>) {
    history != [] &&
    var last := history[|history| - 1].result;
    last.Fetched? &&
    forall i :: 0 <= i < |history| - 1 && history[i].result.Fetched? ==>
      history[i].result.document.revision <= last.document.revision
  }

  /** ... and is newer than all of them, so the page applies it. */
  ghost predicate Applies(history: seq<Outcome>) {
    history != [] &&
    var last := history[|history| - 1].result;
    last.Fetched? &&
    forall i :: 0 <= i < |history| - 1 && history[i].result.Fetched? ==>
      history[i].result.document.revision < last.document.revision
  }

  ghost function TrailingFailures(history: seq<Outcome>): nat {
    if history == [] || Succeeds(history) then 0
    else 1 + TrailingFailures(history[..|history| - 1])
  }

  ghost function Successes(history: seq<Outcome>): nat {
    if history == [] then 0
    else Successes(history[..|history| - 1]) + (if Succeeds(history) then 1 else 0)
  }

  function Invalids(history: seq<Outcome>): nat {
    if history == [] then 0
    else
      var last := history[|history| - 1].result;
      Invalids(history[..|history| - 1]) + (if last.DuplicateKey? || last.Rejected? then 1 else 0)
  }

  function TransportFailures(history: seq<Outcome>): nat {
    if history == [] then 0
    else TransportFailures(history[..|history| - 1]) + (if history[|history| - 1].result.Failed? then 1 else 0)
  }

  // ----- what every history leaves behind

  lemma NumberedPrefix(history: seq<Outcome>)
    requires Numbered(history) && history != []
    ensures Numbered(history[..|history| - 1])
  {}

  /** The current document is the newest fetched one, and was applied when it arrived. */
  ghost predicate CurrentIsNewest(r: Registry, history: seq<Outcome>) {
    && (r.hasAppliedOnce <==> r.currentDocument.Some?)
    && (r.hasAppliedOnce <==> r.lastAppliedAt.Some?)
    && (forall i :: 0 <= i < |history| && history[i].result.Fetched? ==>
          0 <= history[i].result.document.revision <= CurrentRevision(r))
    && (r.hasAppliedOnce ==>
          exists i :: 0 <= i < |history| && history[i].result == Fetched(r.currentDocument.value)
                      && Some(history[i].appliedAt) == r.lastAppliedAt)
  }

  lemma {:induction false} ReplayCurrent(history: seq<Outcome>)
    requires Numbered(history)
    ensures CurrentIsNewest(Replay(history), history)
    decreases |history|
  {
    if history != [] {
      var n := |history| - 1;
      NumberedPrefix(history);
      ReplayCurrent(history[..n]);
      var r, r' := Replay(history[..n]), Replay(history);
      if r.hasAppliedOnce {
        var i :| 0 <= i < n && history[..n][i].result == Fetched(r.currentDocument.value)
                 && Some(history[..n][i].appliedAt) == r.lastAppliedAt;
        assert history[i] == history[..n][i];
      }
      forall i | 0 <= i < n && history[i].result.Fetched?
        ensures 0 <= history[i].result.document.revision <= CurrentRevision(r')
      {
        assert history[i] == history[..n][i];
      }
    }
  }

  /** Succeeding and applying, defined on the fetched documents alone, are what the registry decides. */
  lemma OutcomeKind(history: seq<Outcome>)
    requires Numbered(history) && history != [] && history[|history| - 1].result.Fetched?
    ensures var current := CurrentRevision(Replay(history[..|history| - 1]));
            var revision := history[|history| - 1].result.document.revision;
            (Succeeds(history) <==> revision >= current) && (Applies(history) <==> revision > current)
  {
    var n := |history| - 1;
    NumberedPrefix(history);
    ReplayCurrent(history[..n]);
    var r := Replay(history[..n]);
    forall i | 0 <= i < n && history[i].result.Fetched?
      ensures history[i].result.document.revision <= CurrentRevision(r)
    {
      assert history[..n][i] == history[i];
    }
    if r.hasAppliedOnce {
      var i :| 0 <= i < n && history[..n][i].result == Fetched(r.currentDocument.value);
      assert history[i].result == Fetched(r.currentDocument.value);
    }
  }

  /**
   History conservation: the counters count the four kinds of outcome, so they sum to the number of
   outcomes, and consecutiveFailures is the length of the trailing run without a success.
   */
  lemma {:induction false} HistoryConservation(history: seq<Outcome>)
    requires Numbered(history)
    ensures var r := Replay(history); var c := r.counters;
            && c.refreshSucceeded == Successes(history)
            && c.invalidRejected == Invalids(history)
            && c.refreshFailed == TransportFailures(history)
            && c.refreshSucceeded + c.refreshFailed + c.invalidRejected + c.rollbackRejected == |history|
            && r.consecutiveFailures == TrailingFailures(history)
            && c.expiredFailClosed <= c.refreshFailed
            && c.killSwitchActivated == (if r.killSwitchLatched then 1 else 0)
    decreases |history|
  {
    if history != [] {
      NumberedPrefix(history);
      HistoryConservation(history[..|history| - 1]);
      if history[|history| - 1].result.Fetched? { OutcomeKind(history); }
    }
  }

  /** The n-th outcome applied an active kill switch. */
  ghost predicate KilledAt(history: seq<Outcome>, n: nat) {
    0 < n <= |history| && Applies(history[..n]) && history[n - 1].result.document.active
  }

  lemma KilledAtPrefix(history: seq<Outcome>, m: nat, n: nat)
    requires n <= m <= |history|
    ensures KilledAt(history[..m], n) <==> KilledAt(history, n)
  {
    assert history[..m][..n] == history[..n];
  }

  lemma KilledLast(history: seq<Outcome>)
    requires Numbered(history) && history != []
    ensures var kind := KindOf(Replay(history[..|history| - 1]), history[|history| - 1].result);
            KilledAt(history, |history|) <==> kind.Newer? && kind.document.active
  {
    assert history[..|history|] == history;
    if history[|history| - 1].result.Fetched? { OutcomeKind(history); }
  }

  /** The page is latched exactly when some document it applied was an active kill switch. */
  lemma {:induction false} LatchedExactly(history: seq<Outcome>)
    requires Numbered(history)
    ensures Replay(history).killSwitchLatched <==> exists n :: KilledAt(history, n)
    decreases |history|
  {
    if history != [] {
      var last := |history| - 1;
      NumberedPrefix(history);
      LatchedExactly(history[..last]);
      KilledLast(history);
      forall n: nat | n <= last ensures KilledAt(history[..last], n) <==> KilledAt(history, n) {
        KilledAtPrefix(history, last, n);
      }
    }
  }

  /** Once latched, the gate is closed whatever arrives and whenever it is asked. */
  lemma {:induction false} LatchIsForever(history: seq<Outcome>, later: seq<Outcome>, now: int)
    requires Replay(history).killSwitchLatched
    ensures Replay(history + later).killSwitchLatched
    ensures !GateOpen(Replay(history + later), now)
    ensures Replay(history + later).killSwitchReasonCode == Replay(history).killSwitchReasonCode
    decreases |later|
  {
    var all := history + later;
    if later == [] {
      assert all == history;
    } else {
      assert all[..|all| - 1] == history + later[..|later| - 1];
      LatchIsForever(history, later[..|later| - 1], now);
    }
  }

  /** An open gate means an unlatched page and a document applied less than 660 s ago. */
  lemma {:induction false} OpenGateIsRecent(history: seq<Outcome>, now: int)
    requires Honest(history) && GateOpen(Replay(history), now)
    ensures var r := Replay(history);
            !r.killSwitchLatched && r.lastAppliedAt.Some? && now < r.lastAppliedAt.value + 660_000
  {
    ReplayCurrent(history);
    var r := Replay(history);
    var i :| 0 <= i < |history| && history[i].result == Fetched(r.currentDocument.value)
             && Some(history[i].appliedAt) == r.lastAppliedAt;
    assert PageAccepts(history[i].result.document, history[i].fetchedAt);
  }

  /** The bound is tight: the gate can stay open until the last millisecond of the 660 s. */
  lemma OpenGateBoundIsTight(at: int) returns (history: seq<Outcome>)
    ensures Honest(history) && Replay(history).lastAppliedAt == Some(at) && GateOpen(Replay(history), at + 659_999)
  {
    var doc := Document(0, at + 60_000, at + 660_000, false, REASONS[0]);
    history := [Outcome(Fetched(doc), at, at)];
    assert PageAccepts(doc, at);
    assert history[..0] == [] && Replay(history[..0]) == INITIAL;
  }

  /** The invariant on the stale last outcome. */
  ghost predicate OutcomeOk(r: Registry) {
    && r.lastOutcomeState != Some(KillSwitched)
    && (!r.hasAppliedOnce ==> r.lastOutcomeState in {None, Some(InvalidState), Some(ExpiredState)})
    && (r.hasAppliedOnce && r.lastOutcomeState == Some(ExpiredState) ==>
          r.currentDocument.Some? && r.lastCheckedAt.Some? && r.currentDocument.value.expiresAt <= r.lastCheckedAt.value)
  }

  lemma {:induction false} ReplayOutcome(history: seq<Outcome>)
    requires Numbered(history)
    ensures OutcomeOk(Replay(history))
    ensures Replay(history).lastCheckedAt == if history == [] then None else Some(history[|history| - 1].appliedAt)
    decreases |history|
  {
    if history != [] {
      NumberedPrefix(history);
      ReplayOutcome(history[..|history| - 1]);
      ReplayCurrent(history[..|history| - 1]);
    }
  }

  /** The state says that something may be collected. */
  predicate ReportsOpen(r: Registry, state: ControlState) {
    && state != KillSwitched
    && state != ExpiredState
    && !(state == InvalidState && !r.hasAppliedOnce)
  }

  /** The last failure found the current document expired, and by the clock asked now it is live again. */
  predicate StaleExpiry(r: Registry, refreshing: bool, now: int) {
    GateOpen(r, now) && !refreshing && r.lastOutcomeState == Some(ExpiredState)
  }

  /** The reported state agrees with the gate at every time but exactly those of a stale expiry. */
  lemma {:induction false} StatusDisagreesExactly(history: seq<Outcome>, refreshing: bool, now: int)
    requires Numbered(history)
    ensures var r := Replay(history);
            (GateOpen(r, now) <==> ReportsOpen(r, ReportedState(r, refreshing, now))) <==> !StaleExpiry(r, refreshing, now)
  {
    ReplayOutcome(history);
    ReplayCurrent(history);
  }

  /** A stale expiry does happen, to a page whose clock has stepped back since the failure. */
  lemma StaleExpiryHappens() returns (history: seq<Outcome>)
    ensures Honest(history) && Numbered(history)
    ensures StaleExpiry(Replay(history), false, 0) && ReportedState(Replay(history), false, 0) == ExpiredState
  {
    var doc := Document(0, 0, 600_000, false, REASONS[0]);
    history := [Outcome(Fetched(doc), 0, 0), Outcome(Failed(HttpError), 600_000, 600_000)];
    assert PageAccepts(doc, 0);
    assert history[..1] == [Outcome(Fetched(doc), 0, 0)] && history[..1][..0] == [];
    assert Replay([]) == INITIAL;
    assert Replay(history[..1]) == Apply(INITIAL, Fetched(doc), 0);
  }

  /**
   So it agrees at every time since the last outcome: the gate is open exactly when the state is neither
   kill-switched nor expired nor the invalid state of a page that has not applied any document yet.
   */
  lemma {:induction false} StatusAgreesWithGate(history: seq<Outcome>, refreshing: bool, now: int)
    requires Numbered(history)
    requires history != [] ==> history[|history| - 1].appliedAt <= now
    ensures var r := Replay(history);
            GateOpen(r, now) <==> ReportsOpen(r, ReportedState(r, refreshing, now))
  {
    ReplayOutcome(history);
    StatusDisagreesExactly(history, refreshing, now);
  }

  // ----- the registry object

  /** The page-lifetime singleton; the scheduling fields of the same object are in `RefreshLoop`. */
  class PageRegistry {
    var currentDocument: Option<Document>
    var lastCheckedAt: Option<int>
    var lastAppliedAt: Option<int>
    var consecutiveFailures: nat
    var hasAppliedOnce: bool
    var killSwitchActive: bool
    var killSwitchLatched: bool
    var killSwitchReasonCode: string
    var counters: Counters
    var lastOutcomeState: Option<ControlState>

    ghost function View(): Registry
      reads this
    {
      Registry(currentDocument, lastCheckedAt, lastAppliedAt, consecutiveFailures, hasAppliedOnce, killSwitchActive,
               killSwitchLatched, killSwitchReasonCode, counters, lastOutcomeState)
    }

    constructor ()
      ensures View() == INITIAL
    {
      currentDocument, lastCheckedAt, lastAppliedAt, consecutiveFailures := None, None, None, 0;
      hasAppliedOnce, killSwitchActive, killSwitchLatched, killSwitchReasonCode := false, false, false, "none";
      counters := Counters(0, 0, 0, 0, 0, 0);
      lastOutcomeState := None;
    }

    method HandleFailure(documentInvalid: bool, now: int)
      modifies this`consecutiveFailures, this`counters, this`lastOutcomeState
      ensures consecutiveFailures == old(consecutiveFailures) + 1
      ensures var kind := if documentInvalid then Invalid else Unreachable;
              var live := hasAppliedOnce && currentDocument.Some? && Live(currentDocument.value, now);
              && counters == NextCounters(old(counters), kind, live, killSwitchLatched)
              && lastOutcomeState == Some(NextOutcomeState(kind, live))
    {
      consecutiveFailures := consecutiveFailures + 1;
      if documentInvalid {
        counters := counters.(invalidRejected := counters.invalidRejected + 1);
        lastOutcomeState := Some(InvalidState);
        return;
      }
      counters := counters.(refreshFailed := counters.refreshFailed + 1);
      var cacheStillLive := hasAppliedOnce && currentDocument.Some? && Live(currentDocument.value, now);
      if !cacheStillLive {
        counters := counters.(expiredFailClosed := counters.expiredFailClosed + 1);
        lastOutcomeState := Some(ExpiredState);
      } else {
        lastOutcomeState := Some(Degraded);
      }
    }

    method ApplyKillSwitch(active: bool, reasonCode: string)
      modifies this`killSwitchActive, this`killSwitchReasonCode, this`killSwitchLatched, this`counters
      ensures killSwitchLatched == (old(killSwitchLatched) || active)
      ensures killSwitchActive == if old(killSwitchLatched) then old(killSwitchActive) else active
      ensures killSwitchReasonCode == if old(killSwitchLatched) then old(killSwitchReasonCode) else reasonCode
      ensures counters == old(counters).(killSwitchActivated :=
                Count(old(counters).killSwitchActivated, active && !old(killSwitchLatched)))
    {
      if killSwitchLatched { return; }
      killSwitchActive := active;
      killSwitchReasonCode := reasonCode;
      if active {
        killSwitchLatched := true;
        counters := counters.(killSwitchActivated := counters.killSwitchActivated + 1);
      }
    }

    method ApplyFetchOutcome(result: FetchResult, now: int) returns (shouldBackoff: bool)
      modifies this
      ensures View() == Apply(old(View()), result, now)
      ensures shouldBackoff == ShouldBackoff(old(View()), result)
    {
      lastCheckedAt := Some(now);
      if !result.Fetched? {
        HandleFailure(!result.Failed?, now);
        return true;
      }
      shouldBackoff := ApplyDocument(result.document, now);
    }

    /** The revision comparison and the latch, for a document the fetch accepted. */
    method ApplyDocument(document: Document, now: int) returns (shouldBackoff: bool)
      requires lastCheckedAt == Some(now)
      modifies this
      ensures View() == Apply(old(View()), Fetched(document), now)
      ensures shouldBackoff == ShouldBackoff(old(View()), Fetched(document))
    {
      var currentRevision := if currentDocument.Some? then currentDocument.value.revision else -1;
      shouldBackoff := document.revision < currentRevision;
      if shouldBackoff {
        consecutiveFailures := consecutiveFailures + 1;
        counters := counters.(rollbackRejected := counters.rollbackRejected + 1);
        lastOutcomeState := Some(RollbackRejected);
      } else {
        consecutiveFailures := 0;
        counters := counters.(refreshSucceeded := counters.refreshSucceeded + 1);
        lastOutcomeState := Some(Fresh);
        if document.revision != currentRevision {
          ghost var kind := KindOf(old(View()), Fetched(document));
          assert kind == Newer(document);
          currentDocument := Some(document);
          lastAppliedAt := Some(now);
          hasAppliedOnce := true;
          ApplyKillSwitch(document.active, document.reasonCode);
        }
      }
    }
  }
}
