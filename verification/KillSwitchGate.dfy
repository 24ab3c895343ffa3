/**
 What a global kill switch guarantees to its operator: whatever pages poll, fail or reject, and whatever their
 clocks do, every gate is closed ten minutes later.
 */
module KillSwitchGate {
  import opened Wrappers
  import opened ControlDocument
  import opened ControlPlane
  import opened ControlRegistry
  import opened ScopeKey
  import opened KillSwitch
  import opened KillSwitchClocks

  /** The k-th step publishes an active global document, and up to the m-th state no other replaces it. */
  ghost predicate KilledGlobally(steps: seq<Step>, k: nat, m: nat, kill: Document) {
    && k < m <= |steps|
    && steps[k].Publish? && steps[k].scope.None? && steps[k].result == Published(kill) && kill.active
    && forall i :: k < i < m && steps[i].Publish? && steps[i].scope.None? ==> !steps[i].result.Published?
  }

  lemma KillPublished(scope: Option<Scope>, steps: seq<Step>, states: seq<System>, k: nat, kill: Document)
    requires Behavior(scope, steps, states) && k < |steps|
    requires steps[k].Publish? && steps[k].scope.None? && steps[k].result == Published(kill)
    ensures states[k + 1].files.global == Some(kill) && states[k + 1].page == states[k].page
    ensures NewerThanPublished(states[k], kill)
  {
    StartIsSound(scope);
    SegmentPlane(scope, steps, states, k);
    assert Next(scope, states[k], steps[k], states[k + 1]);
    PublishEffect(states[k], steps[k], states[k + 1]);
  }

  lemma {:induction false} KillStaysGlobal(scope: Option<Scope>, steps: seq<Step>, states: seq<System>, k: nat, m: nat, kill: Document)
    requires Behavior(scope, steps, states) && KilledGlobally(steps, k, m, kill)
    ensures states[m].files.global == Some(kill)
  {
    if m == k + 1 {
      KillPublished(scope, steps, states, k, kill);
    } else {
      KillStaysGlobal(scope, steps, states, k, m - 1, kill);
      StartIsSound(scope);
      SegmentPlane(scope, steps, states, m - 1);
      assert Next(scope, states[m - 1], steps[m - 1], states[m]);
      if steps[m - 1].Publish? { PublishEffect(states[m - 1], steps[m - 1], states[m]); }
    }
  }

  lemma {:induction false} PublishedStays(scope: Option<Scope>, steps: seq<Step>, states: seq<System>, n: nat, m: nat, doc: Document)
    requires Behavior(scope, steps, states) && n <= m <= |steps| && doc in states[n].published
    ensures doc in states[m].published
  {
    if n < m {
      PublishedStays(scope, steps, states, n, m - 1, doc);
      assert Next(scope, states[m - 1], steps[m - 1], states[m]);
    }
  }

  /** No poll skips the global kill switch: before it was published it was on no file, and since then it is the global one. */
  lemma {:induction false} KillNeverSkipped(scope: Option<Scope>, steps: seq<Step>, states: seq<System>, k: nat, m: nat, kill: Document)
    requires Behavior(scope, steps, states) && KilledGlobally(steps, k, m, kill)
    ensures kill !in Skipped(scope, steps, states, m)
  {
    SkippedBySome(scope, steps, states, m, kill);
    KillPublished(scope, steps, states, k, kill);
    forall i | 0 <= i < m && SkipsKill(scope, states[i], steps[i])
      ensures ScopedFile(states[i].files, scope) != Some(kill)
    {
      if i <= k {
        var scoped := ScopedFile(states[i].files, scope).value;
        StartIsSound(scope);
        SegmentPlane(scope, steps, states, i);
        assert HasFile(states[i].files, scoped);
        PublishedStays(scope, steps, states, i, k, scoped);
      } else {
        KillStaysGlobal(scope, steps, states, k, i, kill);
      }
    }
  }

  /** While the global kill switch stands it is all that any page is served, and none misses it. */
  lemma OnlyKillServed(scope: Option<Scope>, steps: seq<Step>, states: seq<System>, k: nat, n: nat, kill: Document)
    requires Behavior(scope, steps, states) && n < |steps| && KilledGlobally(steps, k, n, kill)
    requires steps[n].Poll?
    ensures var result := FetchControl(states[n].files, scope, steps[n].planeNow, steps[n].pageNow);
            result.Fetched? ==> result.document == kill && states[n + 1].page.killSwitchLatched
  {
    KillStaysGlobal(scope, steps, states, k, n, kill);
    if FetchControl(states[n].files, scope, steps[n].planeNow, steps[n].pageNow).Fetched? {
      KillNeverSkipped(scope, steps, states, k, n, kill);
      NoMissedKill(scope, steps, states, n, n + 1, 0);
    }
  }

  /** A page that has not latched since then still has the document it had before. */
  lemma {:induction false} LatchedOrUnchanged(scope: Option<Scope>, steps: seq<Step>, states: seq<System>, k: nat, m: nat, kill: Document)
    requires Behavior(scope, steps, states) && KilledGlobally(steps, k, m, kill)
    ensures states[m].page.killSwitchLatched || states[m].page.currentDocument == states[k].page.currentDocument
  {
    if m == k + 1 {
      KillPublished(scope, steps, states, k, kill);
    } else {
      LatchedOrUnchanged(scope, steps, states, k, m - 1, kill);
      assert Next(scope, states[m - 1], steps[m - 1], states[m]);
      if steps[m - 1].Poll? { OnlyKillServed(scope, steps, states, k, m - 1, kill); }
    }
  }

  /** No earlier step read a later time from the plane's clock. */
  ghost predicate LatestReading(steps: seq<Step>, k: nat)
    requires k < |steps| && steps[k].Publish?
  {
    forall i, at :: 0 <= i < k && PlaneReads(steps[i], at) ==> at <= steps[k].now
  }

  /** A document on a page at step k expires within ten minutes of the plane's time then. */
  lemma CurrentExpires(scope: Option<Scope>, steps: seq<Step>, states: seq<System>, k: nat)
    requires Behavior(scope, steps, states) && k < |steps| && steps[k].Publish? && LatestReading(steps, k)
    requires states[k].page.currentDocument.Some?
    ensures states[k].page.currentDocument.value.expiresAt <= steps[k].now + 600_000
  {
    var doc := states[k].page.currentDocument.value;
    StartIsSound(scope);
    SegmentPlane(scope, steps, states, k);
    SegmentPage(scope, steps, states, k, {});
    IssuedEarlier(scope, steps, states, k, doc);
    assert Built(doc);
  }

  /**
   Whatever polls, failures, rejections and scoped publishes follow, and whatever the page's clock does: ten minutes
   after a global kill switch is published, and until another global document replaces it, the gate is closed.
   */
  lemma GlobalKillClosesGate(scope: Option<Scope>, steps: seq<Step>, states: seq<System>, k: nat, m: nat, kill: Document, t: int)
    requires Behavior(scope, steps, states) && KilledGlobally(steps, k, m, kill) && LatestReading(steps, k)
    requires t >= steps[k].now + 600_000
    ensures !GateOpen(states[m].page, t)
  {
    LatchedOrUnchanged(scope, steps, states, k, m, kill);
    if states[k].page.currentDocument.Some? {
      CurrentExpires(scope, steps, states, k);
    }
  }

  /** The bound is tight: a page that does not poll again keeps its gate open until the last millisecond. */
  lemma GlobalKillBoundIsTight(scope: Option<Scope>) returns (steps: seq<Step>, states: seq<System>, kill: Document)
    ensures Behavior(scope, steps, states) && KilledGlobally(steps, 2, 3, kill) && LatestReading(steps, 2)
    ensures steps[2].now == 0 && GateOpen(states[3].page, 599_999)
  {
    assert Start().files == Files(None, map[]) && IsMaxRevision(Start().files, -1);
    var step0, s1, calm := PublishNow(scope, Start(), None, false, REASONS[0], -1, 0);
    var poll := Poll(0, 0, 0);
    var s2 := PollNext(scope, s1, poll);
    var step2, s3;
    step2, s3, kill := PublishNow(scope, s2, None, true, REASONS[4], 0, 0);
    assert REASONS[0] == "none";
    assert Resolve(s1.files, scope, 0) == Some(calm);
    assert FetchControl(s1.files, scope, 0, 0) == Fetched(calm);
    ThreeSteps(scope, Start(), step0, s1, poll, s2, step2, s3);
    steps, states := [step0, poll, step2], [Start(), s1, s2, s3];
  }
}
