/** What the registry of a page says, in the outcomes that it was given and nothing else. */
module ControlOutcomes {
  import opened Wrappers
  import opened ControlDocument
  import opened ControlRegistry

  /** The i-th outcome fetched a document that is newer than all before it and as new as all after it. */
  ghost predicate Newest(history: seq<Outcome>, i: nat) {
    && i < |history| && history[i].result.Fetched?
    && (forall j :: 0 <= j < i && history[j].result.Fetched? ==>
          history[j].result.document.revision < history[i].result.document.revision)
    && (forall j :: i <= j < |history| && history[j].result.Fetched? ==>
          history[j].result.document.revision <= history[i].result.document.revision)
  }

  ghost predicate AnyFetched(history: seq<Outcome>) {
    exists i :: 0 <= i < |history| && history[i].result.Fetched?
  }

  lemma NewestGrows(history: seq<Outcome>, outcome: Outcome, i: nat)
    requires Newest(history, i)
    ensures Newest(history + [outcome], i) <==>
            (outcome.result.Fetched? ==> outcome.result.document.revision <= history[i].result.document.revision)
  {
    var all := history + [outcome];
    assert forall j :: 0 <= j < |history| ==> all[j] == history[j];
    assert all[|history|] == outcome;
  }

  lemma NewestLast(history: seq<Outcome>, outcome: Outcome)
    requires outcome.result.Fetched?
    requires forall j :: 0 <= j < |history| && history[j].result.Fetched? ==>
               history[j].result.document.revision < outcome.result.document.revision
    ensures Newest(history + [outcome], |history|)
  {
    var all := history + [outcome];
    assert forall j :: 0 <= j < |history| ==> all[j] == history[j];
  }

  /** The page holds the newest document fetched, as it first arrived, and nothing before the first one. */
  ghost predicate Holds(r: Registry, history: seq<Outcome>, i: nat)
    requires Newest(history, i)
  {
    r.currentDocument == Some(history[i].result.document) && r.lastAppliedAt == Some(history[i].appliedAt) && r.hasAppliedOnce
  }

  lemma {:induction false} CurrentIsFirstNewest(history: seq<Outcome>) returns (i: nat)
    requires Numbered(history)
    ensures if AnyFetched(history) then Newest(history, i) && Holds(Replay(history), history, i)
            else Replay(history).currentDocument.None? && Replay(history).lastAppliedAt.None? && !Replay(history).hasAppliedOnce
    decreases |history|
  {
    i := 0;
    if history != [] {
      var last := |history| - 1;
      var init, outcome := history[..last], history[last];
      assert history == init + [outcome];
      NumberedPrefix(history);
      i := CurrentIsFirstNewest(init);
      if AnyFetched(init) {
        NewestGrows(init, outcome, i);
        if outcome.result.Fetched? && outcome.result.document.revision > init[i].result.document.revision {
          BelowNewest(init, i);
          NewestLast(init, outcome);
          i := last;
        }
      } else if outcome.result.Fetched? {
        NewestLast(init, outcome);
        i := last;
      }
    }
  }

  lemma BelowNewest(history: seq<Outcome>, i: nat)
    requires Newest(history, i)
    ensures forall j :: 0 <= j < |history| && history[j].result.Fetched? ==>
              history[j].result.document.revision <= history[i].result.document.revision
  {}

  /** Some document was fetched, and the newest one has not expired at `now`. */
  ghost predicate NewestLive(history: seq<Outcome>, now: int) {
    exists i: nat :: Newest(history, i) && now < history[i].result.document.expiresAt
  }

  lemma NewestIsUnique(history: seq<Outcome>, i: nat, j: nat)
    requires Newest(history, i) && Newest(history, j)
    ensures i == j
  {}

  lemma LiveMeans(history: seq<Outcome>, now: int)
    requires Numbered(history)
    ensures CacheLive(Replay(history), now) <==> NewestLive(history, now)
  {
    var i := CurrentIsFirstNewest(history);
    if j: nat :| Newest(history, j) && now < history[j].result.document.expiresAt { NewestIsUnique(history, i, j); }
  }

  // ----- the state and the counter of expiries

  /** What the last outcome alone is recorded as. */
  ghost function Recorded(history: seq<Outcome>): ControlState
    requires history != []
  {
    var last := history[|history| - 1];
    match last.result
    case Fetched(_) => if Succeeds(history) then Fresh else RollbackRejected
    case DuplicateKey => InvalidState
    case Rejected(_) => InvalidState
    case Failed(_) => if NewestLive(history[..|history| - 1], last.appliedAt) then Degraded else ExpiredState
  }

  lemma RecordedExactly(history: seq<Outcome>)
    requires Numbered(history) && history != []
    ensures Replay(history).lastOutcomeState == Some(Recorded(history))
  {
    NumberedPrefix(history);
    LiveMeans(history[..|history| - 1], history[|history| - 1].appliedAt);
    if history[|history| - 1].result.Fetched? { OutcomeKind(history); }
  }

  /** Some document applied was an active kill switch. */
  ghost predicate Killed(history: seq<Outcome>) {
    exists n :: KilledAt(history, n)
  }

  /**
   The reported state, for every history, clock reading and refresh: kill-switched first, then expired without a live
   document, then refreshing, then what the last outcome was recorded as.
   */
  lemma ReportedExactly(history: seq<Outcome>, refreshing: bool, now: int)
    requires Numbered(history) && AnyFetched(history)
    ensures ReportedState(Replay(history), refreshing, now) ==
            if Killed(history) then KillSwitched
            else if !NewestLive(history, now) then ExpiredState
            else if refreshing then Refreshing
            else Recorded(history)
  {
    LatchedExactly(history);
    LiveMeans(history, now);
    var i := CurrentIsFirstNewest(history);
    RecordedExactly(history);
  }

  /** Before any document was fetched it is what the last outcome was recorded as, and expired before the first outcome. */
  lemma ReportedBeforeFetch(history: seq<Outcome>, refreshing: bool, now: int)
    requires Numbered(history) && !AnyFetched(history)
    ensures ReportedState(Replay(history), refreshing, now) == if history == [] then ExpiredState else Recorded(history)
  {
    LatchedExactly(history);
    var i := CurrentIsFirstNewest(history);
    if history != [] { RecordedExactly(history); }
    assert !Killed(history) by { NeverKilled(history); }
  }

  lemma KilledFetched(history: seq<Outcome>, n: nat)
    requires KilledAt(history, n)
    ensures AnyFetched(history)
  {
    assert history[..n][n - 1] == history[n - 1];
  }

  lemma NeverKilled(history: seq<Outcome>)
    requires !AnyFetched(history)
    ensures !Killed(history)
  {
    forall n: nat ensures !KilledAt(history, n) {
      if KilledAt(history, n) { KilledFetched(history, n); }
    }
  }

  /** The gate is open exactly while the newest document fetched is live and none applied was a kill switch. */
  lemma GateExactly(history: seq<Outcome>, now: int)
    requires Numbered(history)
    ensures GateOpen(Replay(history), now) <==> NewestLive(history, now) && !Killed(history)
  {
    LatchedExactly(history);
    LiveMeans(history, now);
    var i := CurrentIsFirstNewest(history);
  }

  ghost function Expiries(history: seq<Outcome>): nat {
    if history == [] then 0
    else
      var init, last := history[..|history| - 1], history[|history| - 1];
      Expiries(init) + (if last.result.Failed? && !NewestLive(init, last.appliedAt) then 1 else 0)
  }

  /** The counter of expiries counts the failed transports that found no live document. */
  lemma {:induction false} ExpiriesCounted(history: seq<Outcome>)
    requires Numbered(history)
    ensures Replay(history).counters.expiredFailClosed == Expiries(history)
    decreases |history|
  {
    if history != [] {
      var last := |history| - 1;
      NumberedPrefix(history);
      ExpiriesCounted(history[..last]);
      LiveMeans(history[..last], history[last].appliedAt);
    }
  }

  // ----- the reason

  /** The n-th outcome is the first that applied an active kill switch. */
  ghost predicate FirstKill(history: seq<Outcome>, n: nat) {
    KilledAt(history, n) && forall m: nat :: m < n ==> !KilledAt(history, m)
  }

  lemma {:induction false} FirstKillReason(history: seq<Outcome>, n: nat)
    requires Numbered(history) && FirstKill(history, n)
    ensures Replay(history).killSwitchReasonCode == history[n - 1].result.document.reasonCode
    ensures Replay(history).killSwitchActive
    decreases |history|
  {
    var last := |history| - 1;
    var init := history[..last];
    NumberedPrefix(history);
    forall m: nat | m <= last ensures KilledAt(init, m) <==> KilledAt(history, m) { KilledAtPrefix(history, last, m); }
    LatchedExactly(init);
    if n <= last {
      FirstKillReason(init, n);
    } else {
      assert !Replay(init).killSwitchLatched;
      KilledLast(history);
    }
  }

  /** Without a kill switch the reason is that of the newest document, and none before the first. */
  lemma {:induction false} CalmReason(history: seq<Outcome>, i: nat)
    requires Numbered(history) && !Killed(history) && (AnyFetched(history) ==> Newest(history, i))
    ensures !Replay(history).killSwitchActive
    ensures Replay(history).killSwitchReasonCode == if AnyFetched(history) then history[i].result.document.reasonCode else "none"
    decreases |history|
  {
    if history != [] {
      var last := |history| - 1;
      var init := history[..last];
      NumberedPrefix(history);
      forall m: nat | m <= last ensures KilledAt(init, m) <==> KilledAt(history, m) { KilledAtPrefix(history, last, m); }
      LatchedExactly(history);
      var k := CurrentIsFirstNewest(init);
      CalmReason(init, k);
      var h := CurrentIsFirstNewest(history);
      if AnyFetched(history) { NewestIsUnique(history, i, h); }
      if AnyFetched(init) && h < last { assert Newest(init, h); NewestIsUnique(init, h, k); }
      KilledLast(history);
    }
  }
}
