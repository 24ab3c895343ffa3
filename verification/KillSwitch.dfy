/**
 The kill-switch protocol end to end: publishes at the control plane, globally and per scope, interleaved
 with polls of one page.  A publish and a poll are each one step.  A poll reads two clocks: the plane's
 when it serves and the page's when it validates what it was served; both may jump.
 */
module KillSwitch {
  import opened Wrappers
  import opened ControlDocument
  import opened ControlPlane
  import opened ControlRegistry
  import opened ScopeKey

  /** `published` and `accepted` are history: all published documents, and all the page's fetches accepted. */
  datatype System = System(
    files: Files,
    page: Registry,
    published: seq<Document>,
    accepted: seq<Document>)

  datatype Step =
    | Publish(scope: Option<Scope>, active: bool, reasonCode: string, now: int, result: PublishResult)
    | Poll(planeNow: int, pageNow: int, appliedAt: int)
    | Fail(failure: TransportFailure, appliedAt: int)

  function Start(): System {
    System(Files(None, map[]), INITIAL, [], [])
  }

  /** What one poll brings the page. */
  function FetchControl(files: Files, scope: Option<Scope>, planeNow: int, pageNow: int): FetchResult {
    match Resolve(files, scope, planeNow)
    case None => Failed(HttpError)
    case Some(doc) =>
      match ValidateForPage(doc, pageNow)
      case None => Fetched(doc)
      case Some(reason) => Rejected(reason)
  }

  ghost predicate PublishNext(s: System, step: Step, s': System)
    requires step.Publish?
  {
    && PublishStep(s.files, s'.files, step.scope, step.active, step.reasonCode, step.now, step.result)
    && s' == s.(files := s'.files,
                published := if step.result.Published? then s.published + [step.result.document] else s.published)
  }

  function PollNext(scope: Option<Scope>, s: System, step: Step): System
    requires step.Poll?
  {
    var result := FetchControl(s.files, scope, step.planeNow, step.pageNow);
    s.(page := Apply(s.page, result, step.appliedAt),
       accepted := if result.Fetched? then s.accepted + [result.document] else s.accepted)
  }

  /** Nothing is assumed of either clock. */
  ghost predicate Next(scope: Option<Scope>, s: System, step: Step, s': System) {
    match step
    case Publish(_, _, _, _, _) => PublishNext(s, step, s')
    case Poll(_, _, _) => s' == PollNext(scope, s, step)
    case Fail(failure, appliedAt) => s' == s.(page := Apply(s.page, Failed(failure), appliedAt))
  }

  ghost predicate Segment(scope: Option<Scope>, steps: seq<Step>, states: seq<System>) {
    && |states| == |steps| + 1
    && forall i :: 0 <= i < |steps| ==> Next(scope, states[i], steps[i], states[i + 1])
  }

  /** An interleaving of publishes with polls by a page of `scope`. */
  ghost predicate Behavior(scope: Option<Scope>, steps: seq<Step>, states: seq<System>) {
    Segment(scope, steps, states) && states[0] == Start()
  }

  // ----- the branch that can go wrong

  function ScopedFile(files: Files, scope: Option<Scope>): Option<Document> {
    if scope.Some? && Key(scope.value) in files.scoped then Some(files.scoped[Key(scope.value)]) else None
  }

  /**
   The page accepts an inactive global document although the scope has a document that takes precedence:
   the plane, which regards the global one as invalid, returned it before looking at the scope.
   */
  predicate Bypasses(scope: Option<Scope>, s: System, step: Step) {
    && step.Poll?
    && var result := FetchControl(s.files, scope, step.planeNow, step.pageNow);
       var scoped := ScopedFile(s.files, scope);
       && result.Fetched? && !result.document.active && s.files.global == Some(result.document)
       && scoped.Some? && (scoped.value.active || scoped.value.revision > result.document.revision)
  }

  /** What a page that is not latched accepts in this way is newer than a kill switch of its scope. */
  predicate SkipsKill(scope: Option<Scope>, s: System, step: Step) {
    && !s.page.killSwitchLatched
    && Bypasses(scope, s, step)
    && var scoped := ScopedFile(s.files, scope).value;
       scoped.active && scoped.revision < s.files.global.value.revision
  }

  // ----- what the plane keeps

  ghost predicate Built(doc: Document) {
    && doc.revision >= 0
    && doc.reasonCode in REASONS
    && doc.expiresAt == doc.issuedAt + MAX_CONTROL_TTL_MS
  }

  ghost predicate PlaneOk(s: System) {
    && (forall doc :: HasFile(s.files, doc) ==> doc in s.published)
    && (forall doc :: doc in s.published ==> Built(doc))
    && (forall i, j :: 0 <= i < j < |s.published| ==> s.published[i].revision < s.published[j].revision)
    && (s.published != [] ==> HasFile(s.files, s.published[|s.published| - 1]))
  }

  /** What a publish writes is newer than everything published before. */
  ghost predicate NewerThanPublished(s: System, doc: Document) {
    forall earlier :: earlier in s.published ==> earlier.revision < doc.revision
  }

  lemma PublishEffect(s: System, step: Step, s': System)
    requires step.Publish? && PublishNext(s, step, s') && PlaneOk(s)
    ensures step.result.Published? ==>
              && s'.files == Write(s.files, step.scope, step.result.document)
              && NewerThanPublished(s, step.result.document)
              && Built(step.result.document) && step.result.document.issuedAt == step.now
    ensures !step.result.Published? ==> s'.files == s.files
  {
    if step.result.Published? {
      var doc := step.result.document;
      PublishRaisesMax(s.files, s'.files, step.scope, step.active, step.reasonCode, step.now, step.result);
      BuiltDocumentValid(step.active, step.reasonCode, doc.revision - 1, step.now);
      var n := |s.published|;
      forall i | 0 <= i < n ensures s.published[i].revision < doc.revision {
        assert s.published[i].revision <= s.published[n - 1].revision;
      }
    }
  }

  lemma PlaneKept(s: System, target: Option<Scope>, doc: Document)
    requires PlaneOk(s) && NewerThanPublished(s, doc) && Built(doc)
    ensures PlaneOk(s.(files := Write(s.files, target, doc), published := s.published + [doc]))
  {
    var files' := Write(s.files, target, doc);
    if target.Some? { assert files'.scoped[Key(target.value)] == doc; }
    assert HasFile(files', doc);
    forall d | HasFile(files', d) ensures d in s.published + [doc] {
      assert d == doc || HasFile(s.files, d);
    }
  }

  lemma StepKeepsPlane(scope: Option<Scope>, s: System, step: Step, s': System)
    requires Next(scope, s, step, s') && PlaneOk(s)
    ensures PlaneOk(s')
  {
    if step.Publish? {
      PublishEffect(s, step, s');
      if step.result.Published? { PlaneKept(s, step.scope, step.result.document); }
    }
  }

  lemma {:induction false} SegmentPlane(scope: Option<Scope>, steps: seq<Step>, states: seq<System>, n: nat)
    requires Segment(scope, steps, states) && PlaneOk(states[0]) && n <= |steps|
    ensures PlaneOk(states[n])
  {
    if n > 0 {
      SegmentPlane(scope, steps, states, n - 1);
      StepKeepsPlane(scope, states[n - 1], steps[n - 1], states[n]);
    }
  }

  lemma RevisionIdentifies(s: System, x: Document, y: Document)
    requires PlaneOk(s) && x in s.published && y in s.published && x.revision == y.revision
    ensures x == y
  {
    var i :| 0 <= i < |s.published| && s.published[i] == x;
    var j :| 0 <= j < |s.published| && s.published[j] == y;
    assert i == j;
  }

  lemma ServedIsStored(files: Files, scope: Option<Scope>, planeNow: int)
    ensures Resolve(files, scope, planeNow).Some? ==>
              var doc := Resolve(files, scope, planeNow).value;
              HasFile(files, doc) && (files.global == Some(doc) || ScopedFile(files, scope) == Some(doc))
  {}

  // ----- what the page keeps

  /** What one step adds to the skipped kill switches. */
  function Skips(scope: Option<Scope>, s: System, step: Step): set<Document> {
    if SkipsKill(scope, s, step) then {ScopedFile(s.files, scope).value} else {}
  }

  /** The kill switches that polls before the n-th step skipped. */
  ghost function Skipped(scope: Option<Scope>, steps: seq<Step>, states: seq<System>, n: nat): set<Document>
    requires n <= |steps| && |steps| < |states|
  {
    if n == 0 then {}
    else
      Skipped(scope, steps, states, n - 1) + Skips(scope, states[n - 1], steps[n - 1])
  }

  lemma {:induction false} SkippedBySome(scope: Option<Scope>, steps: seq<Step>, states: seq<System>, n: nat, r: Document)
    requires n <= |steps| && |steps| < |states|
    ensures r in Skipped(scope, steps, states, n)
       <==> exists i :: 0 <= i < n && SkipsKill(scope, states[i], steps[i]) && ScopedFile(states[i].files, scope) == Some(r)
  {
    if n > 0 { SkippedBySome(scope, steps, states, n - 1, r); }
  }

  /** No kill switch that is older than `c` can be served any more, except one that was skipped. */
  ghost predicate KillBarrier(files: Files, scope: Option<Scope>, skipped: set<Document>, c: Document) {
    var scoped := ScopedFile(files, scope);
    && (files.global.Some? && files.global.value.active ==> files.global.value.revision >= c.revision)
    && (scoped.Some? && scoped.value.active ==> scoped.value.revision >= c.revision || scoped.value in skipped)
  }

  ghost predicate PageOk(s: System, scope: Option<Scope>, skipped: set<Document>) {
    && (s.page.currentDocument.Some? ==> s.page.currentDocument.value in s.accepted)
    && (forall k :: k in skipped ==> k.revision < CurrentRevision(s.page))
    && (forall c :: c in s.accepted ==>
          && c in s.published
          && 0 <= c.revision <= CurrentRevision(s.page)
          && (s.page.killSwitchLatched || c in skipped || (!c.active && KillBarrier(s.files, scope, skipped, c))))
  }

  lemma StartIsSound(scope: Option<Scope>)
    ensures PlaneOk(Start()) && PageOk(Start(), scope, {})
  {}

  /** A served kill switch latches the page, being newer, the same or older than another one, unless it was skipped. */
  lemma ServedKill(scope: Option<Scope>, s: System, step: Step, r: Document, skipped: set<Document>)
    requires step.Poll? && PlaneOk(s) && PageOk(s, scope, skipped)
    requires FetchControl(s.files, scope, step.planeNow, step.pageNow) == Fetched(r) && r.active
    ensures !PollNext(scope, s, step).page.killSwitchLatched <==> !s.page.killSwitchLatched && r in skipped
  {
    ServedIsStored(s.files, scope, step.planeNow);
    if s.page.currentDocument.Some? && r.revision == CurrentRevision(s.page) {
      RevisionIdentifies(s, s.page.currentDocument.value, r);
    }
  }

  lemma ServingRaisesBarrier(scope: Option<Scope>, s: System, step: Step, c: Document, skipped: set<Document>)
    requires step.Poll? && !s.page.killSwitchLatched
    requires FetchControl(s.files, scope, step.planeNow, step.pageNow) == Fetched(c) && !c.active
    ensures KillBarrier(s.files, scope, skipped + Skips(scope, s, step), c)
  {}

  /** The page after it accepted `r`, once its own barrier is known. */
  lemma AcceptKeepsPage(s: System, scope: Option<Scope>, r: Document, at: int, skipped: set<Document>)
    requires PageOk(s, scope, skipped) && r in s.published && r.revision >= 0
    requires Apply(s.page, Fetched(r), at).killSwitchLatched || r in skipped || (!r.active && KillBarrier(s.files, scope, skipped, r))
    ensures PageOk(s.(page := Apply(s.page, Fetched(r), at), accepted := s.accepted + [r]), scope, skipped)
  {}

  lemma PollKeepsPage(scope: Option<Scope>, s: System, step: Step, skipped: set<Document>)
    requires step.Poll? && !SkipsKill(scope, s, step) && PlaneOk(s) && PageOk(s, scope, skipped)
    ensures PageOk(PollNext(scope, s, step), scope, skipped)
  {
    var result := FetchControl(s.files, scope, step.planeNow, step.pageNow);
    if result.Fetched? {
      var r := result.document;
      ServedIsStored(s.files, scope, step.planeNow);
      assert r in s.published && Built(r);
      if r.active {
        ServedKill(scope, s, step, r, skipped);
      } else if !s.page.killSwitchLatched {
        ServingRaisesBarrier(scope, s, step, r, skipped);
        assert skipped + {} == skipped;
      }
      AcceptKeepsPage(s, scope, r, step.appliedAt, skipped);
    }
  }

  lemma SkipKeepsPage(scope: Option<Scope>, s: System, step: Step, skipped: set<Document>)
    requires SkipsKill(scope, s, step) && PlaneOk(s) && PageOk(s, scope, skipped)
    ensures PageOk(PollNext(scope, s, step), scope, skipped + Skips(scope, s, step))
  {
    var c, kill := s.files.global.value, ScopedFile(s.files, scope).value;
    assert HasFile(s.files, c) && Built(c);
    var s1 := PollNext(scope, s, step);
    ServingRaisesBarrier(scope, s, step, c, skipped);
    assert CurrentRevision(s1.page) >= c.revision && CurrentRevision(s1.page) >= CurrentRevision(s.page);
    SkipBarrier(s, scope, skipped, kill);
    SkipAccepts(s, scope, c, step.appliedAt, skipped + {kill}, skipped, kill);
  }

  lemma SkipBarrier(s: System, scope: Option<Scope>, skipped: set<Document>, kill: Document)
    requires PageOk(s, scope, skipped)
    ensures forall c :: c in s.accepted && !s.page.killSwitchLatched && c !in skipped ==> KillBarrier(s.files, scope, skipped + {kill}, c)
  {}

  lemma SkipAccepts(s: System, scope: Option<Scope>, c: Document, at: int, all: set<Document>, skipped: set<Document>, kill: Document)
    requires PageOk(s, scope, skipped) && all == skipped + {kill} && kill.revision < c.revision
    requires !s.page.killSwitchLatched && !c.active && c in s.published && c.revision >= 0 && KillBarrier(s.files, scope, all, c)
    requires forall d :: d in s.accepted && d !in skipped ==> KillBarrier(s.files, scope, all, d)
    ensures PageOk(s.(page := Apply(s.page, Fetched(c), at), accepted := s.accepted + [c]), scope, all)
  {}

  lemma KillBarrierKept(s: System, target: Option<Scope>, doc: Document, scope: Option<Scope>, skipped: set<Document>, c: Document)
    requires NewerThanPublished(s, doc) && c in s.published && KillBarrier(s.files, scope, skipped, c)
    ensures KillBarrier(Write(s.files, target, doc), scope, skipped, c)
  {}

  lemma StepKeepsPage(scope: Option<Scope>, s: System, step: Step, s': System, skipped: set<Document>)
    requires Next(scope, s, step, s') && PlaneOk(s) && PageOk(s, scope, skipped)
    ensures PageOk(s', scope, skipped + Skips(scope, s, step))
  {
    match step
    case Poll(_, _, _) =>
      if SkipsKill(scope, s, step) {
        SkipKeepsPage(scope, s, step, skipped);
      } else {
        PollKeepsPage(scope, s, step, skipped);
        assert skipped + {} == skipped;
      }
    case Fail(_, _) => assert skipped + {} == skipped;
    case Publish(target, _, _, _, _) =>
      assert skipped + {} == skipped;
      PublishEffect(s, step, s');
      forall c | c in s.accepted && !s.page.killSwitchLatched && c !in skipped
        ensures KillBarrier(s'.files, scope, skipped, c)
      {
        if step.result.Published? { KillBarrierKept(s, target, step.result.document, scope, skipped, c); }
      }
  }

  /** Along a run from a sound state, with the kill switches skipped before it. */
  lemma {:induction false} SegmentPage(scope: Option<Scope>, steps: seq<Step>, states: seq<System>, n: nat, before: set<Document>)
    requires Segment(scope, steps, states) && PlaneOk(states[0]) && PageOk(states[0], scope, before)
    requires n <= |steps|
    ensures PageOk(states[n], scope, before + Skipped(scope, steps, states, n))
  {
    SkippedSoFar(scope, steps, states, n, before);
    if n > 0 {
      SegmentPage(scope, steps, states, n - 1, before);
      SegmentPlane(scope, steps, states, n - 1);
      StepKeepsPage(scope, states[n - 1], steps[n - 1], states[n], before + Skipped(scope, steps, states, n - 1));
    }
  }

  lemma SkippedSoFar(scope: Option<Scope>, steps: seq<Step>, states: seq<System>, n: nat, before: set<Document>)
    requires n <= |steps| && |steps| < |states|
    ensures before + Skipped(scope, steps, states, n) ==
            if n == 0 then before
            else before + Skipped(scope, steps, states, n - 1) + Skips(scope, states[n - 1], steps[n - 1])
  {}

  // ----- main results

  /** Published revisions strictly increase, across the global document and all scopes. */
  lemma RevisionsIncrease(scope: Option<Scope>, steps: seq<Step>, states: seq<System>, n: nat)
    requires Behavior(scope, steps, states) && n <= |steps|
    ensures var published := states[n].published;
            forall i, j :: 0 <= i < j < |published| ==> published[i].revision < published[j].revision
  {
    SegmentPlane(scope, steps, states, n);
  }

  /** The n-th step is a poll whose served document is an active kill switch that the page accepts. */
  ghost predicate ServesKillTo(scope: Option<Scope>, steps: seq<Step>, states: seq<System>, n: nat)
    requires n < |steps| < |states|
  {
    && steps[n].Poll?
    && var result := FetchControl(states[n].files, scope, steps[n].planeNow, steps[n].pageNow);
       result.Fetched? && result.document.active
  }

  lemma {:induction false} LatchStays(scope: Option<Scope>, steps: seq<Step>, states: seq<System>, n: nat, m: nat)
    requires Segment(scope, steps, states) && n <= m <= |steps| && states[n].page.killSwitchLatched
    ensures states[m].page.killSwitchLatched
  {
    if n < m {
      LatchStays(scope, steps, states, n, m - 1);
      assert Next(scope, states[m - 1], steps[m - 1], states[m]);
    }
  }

  /** Where a run from a sound state serves a kill switch, the page misses it exactly if it was skipped before. */
  lemma SegmentMisses(scope: Option<Scope>, steps: seq<Step>, states: seq<System>, n: nat, before: set<Document>)
    requires Segment(scope, steps, states) && PlaneOk(states[0]) && PageOk(states[0], scope, before)
    requires n < |steps| && ServesKillTo(scope, steps, states, n)
    ensures !states[n + 1].page.killSwitchLatched
       <==> !states[n].page.killSwitchLatched
            && ServedTo(scope, steps, states, n) in before + Skipped(scope, steps, states, n)
  {
    SegmentPlane(scope, steps, states, n);
    SegmentPage(scope, steps, states, n, before);
    assert Next(scope, states[n], steps[n], states[n + 1]);
    ServedKill(scope, states[n], steps[n], ServedTo(scope, steps, states, n), before + Skipped(scope, steps, states, n));
  }

  /** The document that the n-th step serves. */
  ghost function ServedTo(scope: Option<Scope>, steps: seq<Step>, states: seq<System>, n: nat): Document
    requires n < |steps| < |states| && ServesKillTo(scope, steps, states, n)
  {
    FetchControl(states[n].files, scope, steps[n].planeNow, steps[n].pageNow).document
  }

  /**
   Every run, every poll: a page misses the active kill switch that it is served and accepts exactly if it is
   not latched and an earlier poll skipped this very document.
   */
  lemma KillMissedExactly(scope: Option<Scope>, steps: seq<Step>, states: seq<System>, n: nat)
    requires Behavior(scope, steps, states) && n < |steps| && ServesKillTo(scope, steps, states, n)
    ensures var r := ServedTo(scope, steps, states, n);
            (!states[n + 1].page.killSwitchLatched
             <==> !states[n].page.killSwitchLatched
                  && exists i :: 0 <= i < n && SkipsKill(scope, states[i], steps[i]) && ScopedFile(states[i].files, scope) == Some(r))
  {
    StartIsSound(scope);
    SegmentMisses(scope, steps, states, n, {});
    SkippedBySome(scope, steps, states, n, ServedTo(scope, steps, states, n));
  }

  /** Each kill switch that is missed is counted as a rollback. */
  lemma MissCountsRollback(scope: Option<Scope>, steps: seq<Step>, states: seq<System>, n: nat)
    requires Behavior(scope, steps, states) && n < |steps| && ServesKillTo(scope, steps, states, n)
    requires !states[n + 1].page.killSwitchLatched
    ensures states[n + 1].page.counters.rollbackRejected == states[n].page.counters.rollbackRejected + 1
  {
    StartIsSound(scope);
    SegmentMisses(scope, steps, states, n, {});
    SegmentPage(scope, steps, states, n, {});
    assert Next(scope, states[n], steps[n], states[n + 1]);
  }

  /**
   No missed kill: unless the page is not latched and this very document was skipped, the served kill switch latches the page, whether it was
   applied, already known or rejected as a rollback, and the gate is closed from then on.
   */
  lemma NoMissedKill(scope: Option<Scope>, steps: seq<Step>, states: seq<System>, n: nat, m: nat, t: int)
    requires Behavior(scope, steps, states) && n < m <= |steps| && ServesKillTo(scope, steps, states, n)
    requires states[n].page.killSwitchLatched || ServedTo(scope, steps, states, n) !in Skipped(scope, steps, states, n)
    ensures states[m].page.killSwitchLatched && !GateOpen(states[m].page, t)
  {
    StartIsSound(scope);
    SegmentMisses(scope, steps, states, n, {});
    LatchStays(scope, steps, states, n + 1, m);
  }

  // ----- clocks

  /** The page's clock is between 0 and 240 s ahead of the plane's. */
  predicate ClocksAgree(step: Step) {
    step.Poll? ==> step.planeNow <= step.pageNow <= step.planeNow + PLANE_CLOCK_SKEW_MS - PAGE_CLOCK_SKEW_MS
  }

  /** A bypassed poll needs a page of some scope, and a document that only the page accepts. */
  lemma BypassNeedsClocks(scope: Option<Scope>, s: System, step: Step)
    requires step.Poll? && Bypasses(scope, s, step)
    ensures scope.Some? && !ClocksAgree(step)
    ensures PageAccepts(s.files.global.value, step.pageNow) && !PlaneAccepts(s.files.global.value, step.planeNow)
  {
    PageAcceptsOnlyWhatPlaneAccepts(step.pageNow, step.planeNow);
  }

  /** So no poll of an unscoped page, and none whose clocks agree, is bypassed or skips a kill switch. */
  lemma WhenClocksAgree(scope: Option<Scope>, steps: seq<Step>, states: seq<System>, n: nat)
    requires Behavior(scope, steps, states) && n <= |steps|
    requires scope.None? || forall i :: 0 <= i < n ==> ClocksAgree(steps[i])
    ensures forall i :: 0 <= i < n ==> !Bypasses(scope, states[i], steps[i])
    ensures Skipped(scope, steps, states, n) == {}
  {
    forall i | 0 <= i < n ensures !Bypasses(scope, states[i], steps[i]) {
      if Bypasses(scope, states[i], steps[i]) { BypassNeedsClocks(scope, states[i], steps[i]); }
    }
    forall r ensures r !in Skipped(scope, steps, states, n) { SkippedBySome(scope, steps, states, n, r); }
  }

  predicate PlaneReads(step: Step, now: int) {
    match step
    case Publish(_, _, _, at, _) => at == now
    case Poll(at, _, _) => at == now
    case Fail(_, _) => false
  }

  /** The plane's clock does not run backwards. */
  ghost predicate Forward(steps: seq<Step>) {
    forall i, j, s, t :: 0 <= i < j < |steps| && PlaneReads(steps[i], s) && PlaneReads(steps[j], t) ==> s <= t
  }

  /** What was published was issued at an earlier reading of the plane's clock. */
  lemma {:induction false} IssuedEarlier(scope: Option<Scope>, steps: seq<Step>, states: seq<System>, n: nat, doc: Document)
    requires Behavior(scope, steps, states) && n <= |steps| && doc in states[n].published
    ensures exists i :: 0 <= i < n && PlaneReads(steps[i], doc.issuedAt)
  {
    if n > 0 {
      var s, step, s' := states[n - 1], steps[n - 1], states[n];
      assert Next(scope, s, step, s');
      SegmentPlane(scope, steps, states, n - 1);
      if doc in s.published {
        IssuedEarlier(scope, steps, states, n - 1, doc);
      } else {
        PublishEffect(s, step, s');
        assert PlaneReads(step, doc.issuedAt);
      }
    }
  }

  /** With the plane's clock running forward, only a page that is behind, and takes an expired document for live, is bypassed. */
  lemma BypassIsExpired(scope: Option<Scope>, steps: seq<Step>, states: seq<System>, n: nat)
    requires Behavior(scope, steps, states) && n < |steps| && Forward(steps)
    requires steps[n].Poll? && Bypasses(scope, states[n], steps[n])
    ensures steps[n].pageNow < states[n].files.global.value.expiresAt <= steps[n].planeNow
  {
    var global := states[n].files.global.value;
    SegmentPlane(scope, steps, states, n);
    assert HasFile(states[n].files, global);
    IssuedEarlier(scope, steps, states, n, global);
    assert PlaneReads(steps[n], steps[n].planeNow);
    BypassNeedsClocks(scope, states[n], steps[n]);
  }
}
