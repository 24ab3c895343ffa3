/** What a poll brings, said of the files and of what page and plane accept. */
module ControlServing {
  import opened Wrappers
  import opened ControlDocument
  import opened ControlPlane
  import opened ControlRegistry
  import opened ScopeKey
  import opened KillSwitch
  import opened KillSwitchGate

  /** A poll that is answered with `doc`: fetched if the page accepts it, rejected if not. */
  ghost predicate AnsweredWith(result: FetchResult, doc: Document, pageNow: int) {
    if PageAccepts(doc, pageNow) then result == Fetched(doc) else result.Rejected?
  }

  /** An empty plane answers no poll. */
  lemma NothingServed(files: Files, scope: Option<Scope>, planeNow: int, pageNow: int)
    ensures FetchControl(files, scope, planeNow, pageNow) == Failed(HttpError) <==> files.global.None?
    ensures FetchControl(files, scope, planeNow, pageNow).Failed? ==> files.global.None?
  {}

  /** Pages of no scope, scopes without a file, an active global document and an invalid one: the global document. */
  lemma GlobalServed(files: Files, scope: Option<Scope>, planeNow: int, pageNow: int)
    requires files.global.Some?
    requires ScopedFile(files, scope).None? || files.global.value.active || !PlaneAccepts(files.global.value, planeNow)
    ensures AnsweredWith(FetchControl(files, scope, planeNow, pageNow), files.global.value, pageNow)
  {}

  /** Under a valid inactive global document, a kill switch of the scope, whether newer or older. */
  lemma ScopedKillServed(files: Files, scope: Scope, planeNow: int, pageNow: int)
    requires files.global.Some? && !files.global.value.active && PlaneAccepts(files.global.value, planeNow)
    requires ScopedFile(files, Some(scope)).Some? && ScopedFile(files, Some(scope)).value.active
    ensures AnsweredWith(FetchControl(files, Some(scope), planeNow, pageNow), ScopedFile(files, Some(scope)).value, pageNow)
  {}

  /** Without any kill switch, the newer of the two documents. */
  lemma NewerServed(files: Files, scope: Scope, planeNow: int, pageNow: int)
    requires files.global.Some? && !files.global.value.active && PlaneAccepts(files.global.value, planeNow)
    requires ScopedFile(files, Some(scope)).Some? && !ScopedFile(files, Some(scope)).value.active
    ensures var global, scoped := files.global.value, ScopedFile(files, Some(scope)).value;
            var result := FetchControl(files, Some(scope), planeNow, pageNow);
            && (global.revision > scoped.revision ==> AnsweredWith(result, global, pageNow))
            && (scoped.revision >= global.revision ==> AnsweredWith(result, scoped, pageNow))
  {}

  /** The scoped file is the one that the scope's own publishes write. */
  lemma OwnFile(files: Files, scope: Scope, doc: Document)
    ensures ScopedFile(Write(files, Some(scope), doc), Some(scope)) == Some(doc)
    ensures Write(files, Some(scope), doc).global == files.global
    ensures Write(files, None, doc).global == Some(doc)
    ensures ScopedFile(Write(files, None, doc), Some(scope)) == ScopedFile(files, Some(scope))
  {}

  // ----- kill switches that stand, over whole runs

  /**
   While a global kill switch stands, every poll of every page, of any scope or none, at whose page clock it is
   acceptable fetches exactly it, and leaves the page latched with its gate closed from then on.
   */
  lemma GlobalKillReachesPages(scope: Option<Scope>, steps: seq<Step>, states: seq<System>, k: nat, n: nat, kill: Document,
                               m: nat, t: int)
    requires Behavior(scope, steps, states) && n < m <= |steps| && KilledGlobally(steps, k, n, kill)
    requires steps[n].Poll? && PageAccepts(kill, steps[n].pageNow)
    ensures FetchControl(states[n].files, scope, steps[n].planeNow, steps[n].pageNow) == Fetched(kill)
    ensures states[n + 1].page.killSwitchLatched
    ensures states[m].page.killSwitchLatched && !GateOpen(states[m].page, t)
  {
    KillStaysGlobal(scope, steps, states, k, n, kill);
    GlobalServed(states[n].files, scope, steps[n].planeNow, steps[n].pageNow);
    OnlyKillServed(scope, steps, states, k, n, kill);
    LatchStays(scope, steps, states, n + 1, m);
  }

  /** A published kill switch is acceptable for the ten minutes of its life, a minute early at most. */
  lemma PublishedKillAcceptable(scope: Option<Scope>, steps: seq<Step>, states: seq<System>, k: nat, kill: Document, pageNow: int)
    requires Behavior(scope, steps, states) && k < |steps|
    requires steps[k].Publish? && steps[k].result == Published(kill) && steps[k].active
    ensures kill.active && kill.reasonCode == steps[k].reasonCode && kill.issuedAt == steps[k].now
    ensures PageAccepts(kill, pageNow) <==> steps[k].now - 60_000 <= pageNow < steps[k].now + 600_000
  {
    StartIsSound(scope);
    SegmentPlane(scope, steps, states, k);
    SegmentPlane(scope, steps, states, k + 1);
    assert Next(scope, states[k], steps[k], states[k + 1]);
    PublishEffect(states[k], steps[k], states[k + 1]);
    AcceptanceMeans(kill, pageNow);
    ReasonsAreKnown(kill.reasonCode);
  }

  /** The k-th step publishes a kill switch of the scope, and up to the m-th state nothing replaces its file. */
  ghost predicate KilledInScope(scope: Scope, steps: seq<Step>, k: nat, m: nat, kill: Document) {
    && k < m <= |steps|
    && steps[k].Publish? && steps[k].scope == Some(scope) && steps[k].result == Published(kill) && kill.active
    && forall i :: k < i < m && steps[i].Publish? && steps[i].scope.Some? && Key(steps[i].scope.value) == Key(scope) ==>
         !steps[i].result.Published?
  }

  lemma FileChanges(scope: Scope, s: System, step: Step, s': System)
    requires PlaneOk(s) && Next(Some(scope), s, step, s')
    ensures ScopedFile(s'.files, Some(scope)) ==
            if step.Publish? && step.result.Published? && step.scope.Some? && Key(step.scope.value) == Key(scope)
            then Some(step.result.document) else ScopedFile(s.files, Some(scope))
  {
    if step.Publish? { PublishEffect(s, step, s'); }
  }

  lemma {:induction false} ScopedKillStays(scope: Scope, steps: seq<Step>, states: seq<System>, k: nat, m: nat, kill: Document)
    requires Behavior(Some(scope), steps, states) && KilledInScope(scope, steps, k, m, kill)
    ensures ScopedFile(states[m].files, Some(scope)) == Some(kill)
  {
    StartIsSound(Some(scope));
    SegmentPlane(Some(scope), steps, states, m - 1);
    FileChanges(scope, states[m - 1], steps[m - 1], states[m]);
    if m > k + 1 { ScopedKillStays(scope, steps, states, k, m - 1, kill); }
  }

  /**
   While a kill switch of the scope stands, every poll at which the plane accepts an inactive global document and
   the page accepts the kill switch fetches exactly it; and unless an earlier poll skipped it the page is latched.
   */
  lemma ScopedKillReachesPages(scope: Scope, steps: seq<Step>, states: seq<System>, k: nat, n: nat, kill: Document)
    requires Behavior(Some(scope), steps, states) && n < |steps| && KilledInScope(scope, steps, k, n, kill)
    requires steps[n].Poll? && PageAccepts(kill, steps[n].pageNow)
    requires states[n].files.global.Some? && !states[n].files.global.value.active
    requires PlaneAccepts(states[n].files.global.value, steps[n].planeNow)
    ensures FetchControl(states[n].files, Some(scope), steps[n].planeNow, steps[n].pageNow) == Fetched(kill)
    ensures states[n].page.killSwitchLatched || kill !in Skipped(Some(scope), steps, states, n)
       <==> states[n + 1].page.killSwitchLatched
  {
    ScopedKillStays(scope, steps, states, k, n, kill);
    ScopedKillServed(states[n].files, scope, steps[n].planeNow, steps[n].pageNow);
    StartIsSound(Some(scope));
    SegmentMisses(Some(scope), steps, states, n, {});
  }
}
