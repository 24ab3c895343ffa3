/**
 The exact conditions under which a served kill switch is missed: for one poll of a scoped page, that it
 skips a kill switch; for a constant clock offset, that the page's clock is behind the plane's.
 */
module KillSwitchClocks {
  import opened Wrappers
  import opened ControlDocument
  import opened ControlPlane
  import opened ControlRegistry
  import opened ScopeKey
  import opened KillSwitch

  lemma Join(scope: Option<Scope>, steps1: seq<Step>, states1: seq<System>, steps2: seq<Step>, states2: seq<System>)
    requires Segment(scope, steps1, states1) && Segment(scope, steps2, states2)
    requires states1[|steps1|] == states2[0]
    ensures Segment(scope, steps1 + steps2, states1 + states2[1..])
  {
    var steps, states := steps1 + steps2, states1 + states2[1..];
    forall i | 0 <= i < |steps| ensures Next(scope, states[i], steps[i], states[i + 1]) {
      if i < |steps1| {
        assert Next(scope, states1[i], steps1[i], states1[i + 1]);
      } else {
        var j := i - |steps1|;
        assert Next(scope, states2[j], steps2[j], states2[j + 1]);
      }
    }
  }

  /** A publish, as a step of the whole system. */
  lemma PublishNow(page: Option<Scope>, s: System, scope: Option<Scope>, active: bool, reasonCode: string,
                   previous: int, now: int)
    returns (step: Step, s': System, doc: Document)
    requires FilesOk(s.files) && IsMaxRevision(s.files, previous) && previous >= -1
    requires reasonCode in REASONS && (scope.Some? ==> ValidScope(scope.value))
    ensures doc == Document(previous + 1, now, now + MAX_CONTROL_TTL_MS, active, if active then reasonCode else "none")
    ensures s'.files == Write(s.files, scope, doc) && s'.page == s.page
    ensures step == Publish(scope, active, reasonCode, now, Published(doc)) && Next(page, s, step, s')
    ensures FilesOk(s'.files) && IsMaxRevision(s'.files, previous + 1)
  {
    var files';
    doc, files' := CanPublish(s.files, scope, active, reasonCode, previous, now);
    step := Publish(scope, active, reasonCode, now, Published(doc));
    s' := s.(files := files', published := s.published + [doc]);
  }

  lemma ThreeSteps(page: Option<Scope>, s0: System, a: Step, s1: System, b: Step, s2: System, c: Step, s3: System)
    requires Next(page, s0, a, s1) && Next(page, s1, b, s2) && Next(page, s2, c, s3)
    ensures Segment(page, [a, b, c], [s0, s1, s2, s3])
  {}

  // ----- one poll

  lemma LatestIsMax(s: System)
    requires PlaneOk(s) && s.published != []
    ensures FilesOk(s.files) && IsMaxRevision(s.files, s.published[|s.published| - 1].revision)
  {
    var last := s.published[|s.published| - 1];
    forall doc | HasFile(s.files, doc) ensures 0 <= doc.revision <= last.revision {
      assert Built(doc);
      var i :| 0 <= i < |s.published| && s.published[i] == doc;
    }
  }

  lemma RenewGlobal(page: Option<Scope>, s: System, now: int) returns (step: Step, s': System, doc: Document)
    requires PlaneOk(s) && s.published != []
    ensures doc.revision >= 0 && doc == Document(doc.revision, now, now + MAX_CONTROL_TTL_MS, false, REASONS[0])
    ensures s'.files == Write(s.files, None, doc) && s'.page == s.page
    ensures step.Publish? && step.now == now && Next(page, s, step, s')
  {
    LatestIsMax(s);
    var last := s.published[|s.published| - 1];
    assert Built(last);
    step, s', doc := PublishNow(page, s, None, false, REASONS[0], last.revision, now);
    assert REASONS[0] == "none";
  }

  /** With the global document renewed, the plane serves the scoped kill switch. */
  lemma RenewedServesKill(scope: Scope, files: Files, renewed: Document, kill: Document, planeNow: int, pageNow: int)
    requires renewed.revision >= 0 && !renewed.active && renewed.reasonCode in REASONS
    requires renewed.issuedAt == planeNow && renewed.expiresAt == planeNow + MAX_CONTROL_TTL_MS
    requires files.global == Some(renewed) && ScopedFile(files, Some(scope)) == Some(kill)
    requires kill.active && PageAccepts(kill, pageNow)
    ensures FetchControl(files, Some(scope), planeNow, pageNow) == Fetched(kill)
  {}

  lemma OlderKillIsIgnored(page: Registry, calm: Document, kill: Document, at: int, later: int)
    requires !page.killSwitchLatched && !calm.active && kill.revision < calm.revision
    ensures !Apply(Apply(page, Fetched(calm), at), Fetched(kill), later).killSwitchLatched
  {}

  /**
   What a skipping poll leads to: once the global document is renewed the kill switch is served and, at any
   page clock that accepts it, rejected as a rollback by a page that is not latched.
   */
  lemma SkippedKillIsMissed(scope: Scope, s: System, poll: Step, again: Step) returns (steps: seq<Step>, states: seq<System>)
    requires PlaneOk(s)
    requires poll.Poll? && SkipsKill(Some(scope), s, poll)
    requires again.Poll? && again.planeNow == poll.planeNow
    requires PageAccepts(ScopedFile(s.files, Some(scope)).value, again.pageNow)
    ensures Segment(Some(scope), steps, states) && |steps| == 3 && states[0] == s
    ensures steps[0] == poll && steps[1].Publish? && steps[1].now == poll.planeNow && steps[2] == again
    ensures ServesKillTo(Some(scope), steps, states, 2) && !states[3].page.killSwitchLatched
    ensures ServedTo(Some(scope), steps, states, 2) == ScopedFile(s.files, Some(scope)).value
  {
    var calm, kill := s.files.global.value, ScopedFile(s.files, Some(scope)).value;
    assert HasFile(s.files, calm);
    var s1 := PollNext(Some(scope), s, poll);
    StepKeepsPlane(Some(scope), s, poll, s1);
    var renew, s2, renewed := RenewGlobal(Some(scope), s1, poll.planeNow);
    RenewedServesKill(scope, s2.files, renewed, kill, again.planeNow, again.pageNow);
    var s3 := PollNext(Some(scope), s2, again);
    OlderKillIsIgnored(s.page, calm, kill, poll.appliedAt, again.appliedAt);
    ThreeSteps(Some(scope), s, poll, s1, renew, s2, again, s3);
    steps, states := [poll, renew, again], [s, s1, s2, s3];
  }

  /**
   A run that begins with `poll`, skips nothing afterwards, and ends with a kill switch, not among those skipped
   before, that is served and missed.
   */
  ghost predicate MissesAfter(scope: Option<Scope>, s: System, poll: Step, before: set<Document>, steps: seq<Step>, states: seq<System>) {
    && Segment(scope, steps, states)
    && steps != [] && steps[0] == poll && states[0] == s
    && (forall i :: 0 < i < |steps| ==> !SkipsKill(scope, states[i], steps[i]))
    && ServesKillTo(scope, steps, states, |steps| - 1)
    && ServedTo(scope, steps, states, |steps| - 1) !in before
    && !states[|steps|].page.killSwitchLatched
  }

  lemma SkipMisses(scope: Scope, s: System, poll: Step, before: set<Document>) returns (steps: seq<Step>, states: seq<System>)
    requires PlaneOk(s)
    requires poll.Poll? && SkipsKill(Some(scope), s, poll) && ScopedFile(s.files, Some(scope)).value !in before
    ensures MissesAfter(Some(scope), s, poll, before, steps, states)
  {
    var kill := ScopedFile(s.files, Some(scope)).value;
    assert HasFile(s.files, kill) && Built(kill);
    var again := Poll(poll.planeNow, kill.issuedAt, poll.appliedAt);
    steps, states := SkippedKillIsMissed(scope, s, poll, again);
    ServingIsNoSkip(Some(scope), steps, states, 2);
  }

  lemma ServingIsNoSkip(scope: Option<Scope>, steps: seq<Step>, states: seq<System>, n: nat)
    requires n < |steps| < |states| && ServesKillTo(scope, steps, states, n)
    ensures !SkipsKill(scope, states[n], steps[n])
  {}

  lemma {:induction false} SkippedAfterFirst(scope: Option<Scope>, steps: seq<Step>, states: seq<System>, n: nat)
    requires 0 < n <= |steps| && |steps| < |states|
    requires forall i :: 0 < i < n ==> !SkipsKill(scope, states[i], steps[i])
    ensures Skipped(scope, steps, states, n) == Skips(scope, states[0], steps[0])
  {
    if n > 1 { SkippedAfterFirst(scope, steps, states, n - 1); }
  }

  /**
   For every poll of every run: some continuation without further skips misses a kill switch that was not
   skipped before, exactly when the poll skips one that was not.
   */
  lemma SkipDecides(scope: Scope, run: seq<Step>, states: seq<System>, s: System, poll: Step)
    requires Behavior(Some(scope), run, states) && s == states[|run|] && poll.Poll?
    ensures var before := Skipped(Some(scope), run, states, |run|);
            (SkipsKill(Some(scope), s, poll) && ScopedFile(s.files, Some(scope)).value !in before
             <==> exists steps, after :: MissesAfter(Some(scope), s, poll, before, steps, after))
  {
    StartIsSound(Some(scope));
    SegmentPlane(Some(scope), run, states, |run|);
    SegmentPage(Some(scope), run, states, |run|, {});
    var before := Skipped(Some(scope), run, states, |run|);
    assert {} + before == before;
    if SkipsKill(Some(scope), s, poll) && ScopedFile(s.files, Some(scope)).value !in before {
      var steps, after := SkipMisses(scope, s, poll, before);
    } else {
      forall steps, after ensures !MissesAfter(Some(scope), s, poll, before, steps, after) {
        if MissesAfter(Some(scope), s, poll, before, steps, after) {
          OnlyFirstSkip(Some(scope), s, poll, before, steps, after);
        }
      }
    }
  }

  /** What such a run misses is what its first poll skips. */
  lemma OnlyFirstSkip(scope: Option<Scope>, s: System, poll: Step, before: set<Document>, steps: seq<Step>, states: seq<System>)
    requires PlaneOk(s) && PageOk(s, scope, before) && MissesAfter(scope, s, poll, before, steps, states)
    ensures SkipsKill(scope, s, poll) && ScopedFile(s.files, scope) == Some(ServedTo(scope, steps, states, |steps| - 1))
  {
    var last := |steps| - 1;
    SegmentMisses(scope, steps, states, last, before);
    if last > 0 { SkippedAfterFirst(scope, steps, states, last); }
  }

  // ----- a constant offset

  /** Every poll sees the page's clock `offset` ms ahead of the plane's. */
  ghost predicate ConstantOffset(steps: seq<Step>, offset: int) {
    forall i :: 0 <= i < |steps| && steps[i].Poll? ==> steps[i].pageNow == steps[i].planeNow + offset
  }

  ghost predicate MissesKill(scope: Option<Scope>, offset: int, steps: seq<Step>, states: seq<System>, n: nat) {
    && Behavior(scope, steps, states)
    && n < |steps|
    && Forward(steps) && ConstantOffset(steps, offset)
    && ServesKillTo(scope, steps, states, n)
    && !states[n + 1].page.killSwitchLatched
  }

  /** A scoped kill switch, and above it an inactive global document. */
  lemma Prepare(scope: Scope) returns (steps: seq<Step>, states: seq<System>, kill: Document, calm: Document)
    requires ValidScope(scope)
    ensures kill == Document(0, 0, 600_000, true, REASONS[4]) && calm == Document(1, 0, 600_000, false, "none")
    ensures |steps| == 2 && Behavior(Some(scope), steps, states)
    ensures steps[0].Publish? && steps[0].now == 0 && steps[1].Publish? && steps[1].now == 0
    ensures Prepared(scope, states[2], kill, calm)
  {
    assert Start().files == Files(None, map[]) && IsMaxRevision(Start().files, -1);
    var step0, s1, s2, step1;
    step0, s1, kill := PublishNow(Some(scope), Start(), Some(scope), true, REASONS[4], -1, 0);
    step1, s2, calm := PublishNow(Some(scope), s1, None, false, REASONS[0], 0, 0);
    steps, states := [step0, step1], [Start(), s1, s2];
  }

  ghost predicate Prepared(scope: Scope, s: System, kill: Document, calm: Document) {
    && s.files == Files(Some(calm), map[Key(scope) := kill])
    && s.page == INITIAL
    && FilesOk(s.files)
    && IsMaxRevision(s.files, 1)
  }

  /** The page takes the expired, inactive global document for live. */
  lemma PreparedSkips(scope: Scope, s: System, kill: Document, calm: Document, at: int, offset: int)
    requires Prepared(scope, s, kill, calm)
    requires kill == Document(0, 0, 600_000, true, REASONS[4]) && calm == Document(1, 0, 600_000, false, "none")
    requires at >= 600_000 && -60_000 <= at + offset < 600_000
    ensures SkipsKill(Some(scope), s, Poll(at, at + offset, at))
    ensures ScopedFile(s.files, Some(scope)) == Some(kill) && PageAccepts(kill, at + offset)
  {
    assert REASONS[0] == "none";
    assert FetchControl(s.files, Some(scope), at, at + offset) == Fetched(calm);
  }

  lemma FiveForward(steps: seq<Step>, at: int)
    requires |steps| == 5 && at >= 0
    requires steps[0].Publish? && steps[0].now == 0 && steps[1].Publish? && steps[1].now == 0
    requires steps[2].Poll? && steps[2].planeNow == at && steps[3].Publish? && steps[3].now == at
    requires steps[4].Poll? && steps[4].planeNow == at
    ensures Forward(steps)
  {}

  /** A preparation at time 0, then two polls at `at` with a publish between them. */
  ghost predicate Shaped(offset: int, at: int, steps1: seq<Step>, steps2: seq<Step>) {
    && |steps1| == 2 && at >= 0
    && steps1[0].Publish? && steps1[0].now == 0 && steps1[1].Publish? && steps1[1].now == 0
    && |steps2| == 3
    && steps2[0] == steps2[2] == Poll(at, at + offset, at) && steps2[1].Publish? && steps2[1].now == at
  }

  lemma ShapedClocks(offset: int, at: int, steps1: seq<Step>, steps2: seq<Step>)
    requires Shaped(offset, at, steps1, steps2)
    ensures Forward(steps1 + steps2) && ConstantOffset(steps1 + steps2, offset)
  {
    FiveForward(steps1 + steps2, at);
  }

  lemma ServesKillJoined(scope: Option<Scope>, steps1: seq<Step>, states1: seq<System>, steps2: seq<Step>, states2: seq<System>)
    requires |steps1| == 2 && |states1| == 3 && |steps2| == 3 && |states2| == 4
    requires ServesKillTo(scope, steps2, states2, 2)
    ensures ServesKillTo(scope, steps1 + steps2, states1 + states2[1..], 4)
    ensures (states1 + states2[1..])[5] == states2[3]
  {}

  lemma JoinMisses(scope: Option<Scope>, offset: int, at: int,
                   steps1: seq<Step>, states1: seq<System>, steps2: seq<Step>, states2: seq<System>)
    requires Shaped(offset, at, steps1, steps2)
    requires Behavior(scope, steps1, states1) && Segment(scope, steps2, states2) && states2[0] == states1[2]
    requires ServesKillTo(scope, steps2, states2, 2) && !states2[3].page.killSwitchLatched
    ensures MissesKill(scope, offset, steps1 + steps2, states1 + states2[1..], 4)
  {
    ShapedClocks(offset, at, steps1, steps2);
    ServesKillJoined(scope, steps1, states1, steps2, states2);
    Join(scope, steps1, states1, steps2, states2);
  }

  /** The three steps after the preparation. */
  lemma MissFrom(scope: Scope, s: System, kill: Document, calm: Document, at: int, offset: int)
    returns (steps: seq<Step>, states: seq<System>)
    requires PlaneOk(s) && Prepared(scope, s, kill, calm)
    requires kill == Document(0, 0, 600_000, true, REASONS[4]) && calm == Document(1, 0, 600_000, false, "none")
    requires at >= 600_000 && -60_000 <= at + offset < 600_000
    ensures Segment(Some(scope), steps, states) && |steps| == 3 && states[0] == s
    ensures steps[0] == steps[2] == Poll(at, at + offset, at) && steps[1].Publish? && steps[1].now == at
    ensures ServesKillTo(Some(scope), steps, states, 2) && !states[3].page.killSwitchLatched
  {
    PreparedSkips(scope, s, kill, calm, at, offset);
    var poll := Poll(at, at + offset, at);
    steps, states := SkippedKillIsMissed(scope, s, poll, poll);
  }

  lemma BehindMisses(scope: Scope, offset: int) returns (steps: seq<Step>, states: seq<System>)
    requires ValidScope(scope) && offset < 0
    ensures MissesKill(Some(scope), offset, steps, states, 4)
    ensures states[5].page.counters.rollbackRejected > 0
  {
    var at := if 600_000 >= -offset - 60_000 then 600_000 else -offset - 60_000;
    var steps1, states1, kill, calm := Prepare(scope);
    StartIsSound(Some(scope));
    SegmentPlane(Some(scope), steps1, states1, 2);
    var steps2, states2 := MissFrom(scope, states1[2], kill, calm, at, offset);
    JoinMisses(Some(scope), offset, at, steps1, states1, steps2, states2);
    steps, states := steps1 + steps2, states1 + states2[1..];
    MissCountsRollback(Some(scope), steps, states, 4);
  }

  lemma NotBehindSkipsNothing(scope: Scope, offset: int, steps: seq<Step>, states: seq<System>, n: nat, r: Document)
    requires Behavior(Some(scope), steps, states) && n <= |steps|
    requires Forward(steps) && ConstantOffset(steps, offset) && offset >= 0
    ensures r !in Skipped(Some(scope), steps, states, n)
  {
    SkippedBySome(Some(scope), steps, states, n, r);
    forall i | 0 <= i < n ensures !SkipsKill(Some(scope), states[i], steps[i]) {
      if SkipsKill(Some(scope), states[i], steps[i]) { BypassIsExpired(Some(scope), steps, states, i); }
    }
  }

  /** While the plane's clock runs forward, a kill switch can be missed exactly when the page's clock is behind. */
  lemma ExactClockCondition(scope: Scope, offset: int)
    requires ValidScope(scope)
    ensures (exists steps, states, n :: MissesKill(Some(scope), offset, steps, states, n)) <==> offset < 0
  {
    if offset < 0 {
      var steps, states := BehindMisses(scope, offset);
    } else {
      forall steps, states, n: nat ensures !MissesKill(Some(scope), offset, steps, states, n) {
        if MissesKill(Some(scope), offset, steps, states, n) {
          NotBehindSkipsNothing(scope, offset, steps, states, n, ServedTo(Some(scope), steps, states, n));
          NoMissedKill(Some(scope), steps, states, n, n + 1, 0);
        }
      }
    }
  }
}
