/**
 In which order a page can be served revisions, and exactly which polls serve it an older document after a
 newer one of which not both are kill switches.
 */
module KillSwitchOrder {
  import opened Wrappers
  import opened ControlDocument
  import opened ControlPlane
  import opened ControlRegistry
  import opened ScopeKey
  import opened KillSwitch

  /** The older kill switch that a bypassed poll passes over, if there is one. */
  function Passes(scope: Option<Scope>, s: System, step: Step): set<Document> {
    if Bypasses(scope, s, step) && ScopedFile(s.files, scope).value.revision < s.files.global.value.revision
    then {ScopedFile(s.files, scope).value}
    else {}
  }

  ghost function Passed(scope: Option<Scope>, steps: seq<Step>, states: seq<System>, n: nat): set<Document>
    requires n <= |steps| && |steps| < |states|
  {
    if n == 0 then {} else Passed(scope, steps, states, n - 1) + Passes(scope, states[n - 1], steps[n - 1])
  }

  /** The i-th poll is bypassed by a global document newer than `r`, the document of its scope. */
  ghost predicate PassedAt(scope: Option<Scope>, steps: seq<Step>, states: seq<System>, i: nat, r: Document)
    requires i < |steps| < |states|
  {
    && Bypasses(scope, states[i], steps[i])
    && ScopedFile(states[i].files, scope) == Some(r)
    && r.revision < states[i].files.global.value.revision
  }

  lemma {:induction false} PassedBySome(scope: Option<Scope>, steps: seq<Step>, states: seq<System>, n: nat, r: Document)
    requires n <= |steps| && |steps| < |states|
    ensures r in Passed(scope, steps, states, n) <==> exists i :: 0 <= i < n && PassedAt(scope, steps, states, i, r)
  {
    if n > 0 {
      PassedBySome(scope, steps, states, n - 1, r);
      assert r in Passes(scope, states[n - 1], steps[n - 1]) <==> PassedAt(scope, steps, states, n - 1, r);
    }
  }

  // ----- the invariant

  /** After serving `c` the plane cannot serve anything older, unless both are kill switches or it was passed over. */
  ghost predicate Barrier(files: Files, scope: Option<Scope>, passed: set<Document>, c: Document) {
    var scoped := ScopedFile(files, scope);
    && files.global.Some?
    && (if files.global.value.revision >= c.revision then
          c.active || (scoped.Some? && scoped.value.active ==> scoped.value.revision >= c.revision || scoped.value in passed)
        else
          !files.global.value.active && scoped.Some? && scoped.value.revision >= c.revision)
  }

  /** An accepted document that is newer than `r`, of which not both are kill switches. */
  ghost predicate Overtaken(accepted: seq<Document>, r: Document) {
    exists c :: c in accepted && r.revision < c.revision && !(r.active && c.active)
  }

  ghost predicate OrderOk(s: System, scope: Option<Scope>, passed: set<Document>) {
    && (s.page.currentDocument.Some? ==>
          && s.page.currentDocument.value in s.accepted
          && (s.page.currentDocument.value.active ==> s.page.killSwitchLatched))
    && (forall k :: k in passed ==> Overtaken(s.accepted, k))
    && (forall c :: c in s.accepted ==>
          && c in s.published
          && 0 <= c.revision <= CurrentRevision(s.page)
          && Barrier(s.files, scope, passed, c))
  }

  /** The poll serves a document that an accepted one has overtaken. */
  ghost predicate BreaksOrder(scope: Option<Scope>, s: System, step: Step, passed: set<Document>) {
    && step.Poll?
    && var result := FetchControl(s.files, scope, step.planeNow, step.pageNow);
       && result.Fetched?
       && (if result.document.active then result.document in passed
           else Bypasses(scope, s, step) && result.document.revision < CurrentRevision(s.page))
  }

  lemma OvertakenBehindBarrier(scope: Option<Scope>, s: System, step: Step, passed: set<Document>, c: Document, r: Document)
    requires step.Poll? && Barrier(s.files, scope, passed, c)
    requires FetchControl(s.files, scope, step.planeNow, step.pageNow) == Fetched(r)
    requires r.revision < c.revision && !(r.active && c.active)
    ensures if r.active then r in passed else Bypasses(scope, s, step)
  {
    ServedIsStored(s.files, scope, step.planeNow);
  }

  lemma BreaksExactly(scope: Option<Scope>, s: System, step: Step, passed: set<Document>, r: Document)
    requires step.Poll? && OrderOk(s, scope, passed)
    requires FetchControl(s.files, scope, step.planeNow, step.pageNow) == Fetched(r) && r.revision >= 0
    ensures Overtaken(s.accepted, r) <==> BreaksOrder(scope, s, step, passed)
  {
    if Overtaken(s.accepted, r) {
      var c :| c in s.accepted && r.revision < c.revision && !(r.active && c.active);
      OvertakenBehindBarrier(scope, s, step, passed, c, r);
    }
  }

  lemma ServingRaisesOrderBarrier(scope: Option<Scope>, s: System, step: Step, passed: set<Document>, c: Document)
    requires PlaneOk(s) && step.Poll?
    requires FetchControl(s.files, scope, step.planeNow, step.pageNow) == Fetched(c)
    ensures Barrier(s.files, scope, passed + Passes(scope, s, step), c) && c.revision >= 0 && c in s.published
  {
    ServedIsStored(s.files, scope, step.planeNow);
    assert Built(c);
  }

  lemma OvertakenStays(accepted: seq<Document>, c: Document, k: Document)
    requires Overtaken(accepted, k) || (k.revision < c.revision && !c.active)
    ensures Overtaken(accepted + [c], k)
  {
    if Overtaken(accepted, k) {
      var d :| d in accepted && k.revision < d.revision && !(k.active && d.active);
      assert d in accepted + [c];
    } else {
      assert c in accepted + [c];
    }
  }

  lemma BarrierGrows(files: Files, scope: Option<Scope>, passed: set<Document>, more: set<Document>, c: Document)
    requires Barrier(files, scope, passed, c)
    ensures Barrier(files, scope, passed + more, c)
  {}

  /** What the page keeps when it accepts `c`, once the barriers are known. */
  lemma AcceptKeepsOrder(s: System, scope: Option<Scope>, c: Document, at: int, passed: set<Document>)
    requires c in s.published && c.revision >= 0 && Barrier(s.files, scope, passed, c)
    requires s.page.currentDocument.Some? ==>
               && s.page.currentDocument.value in s.accepted
               && (s.page.currentDocument.value.active ==> s.page.killSwitchLatched)
    requires forall k :: k in passed ==> Overtaken(s.accepted + [c], k)
    requires forall d :: d in s.accepted ==>
               d in s.published && 0 <= d.revision <= CurrentRevision(s.page) && Barrier(s.files, scope, passed, d)
    ensures OrderOk(s.(page := Apply(s.page, Fetched(c), at), accepted := s.accepted + [c]), scope, passed)
  {}

  lemma PollKeepsOrder(scope: Option<Scope>, s: System, step: Step, passed: set<Document>)
    requires step.Poll? && PlaneOk(s) && OrderOk(s, scope, passed)
    ensures OrderOk(PollNext(scope, s, step), scope, passed + Passes(scope, s, step))
  {
    var result := FetchControl(s.files, scope, step.planeNow, step.pageNow);
    var all := passed + Passes(scope, s, step);
    if result.Fetched? {
      var c := result.document;
      ServingRaisesOrderBarrier(scope, s, step, passed, c);
      forall k | k in all ensures Overtaken(s.accepted + [c], k) { OvertakenStays(s.accepted, c, k); }
      forall d | d in s.accepted ensures Barrier(s.files, scope, all, d) {
        BarrierGrows(s.files, scope, passed, Passes(scope, s, step), d);
      }
      AcceptKeepsOrder(s, scope, c, step.appliedAt, all);
    } else {
      assert all == passed;
    }
  }

  lemma BarrierKept(s: System, target: Option<Scope>, doc: Document, scope: Option<Scope>, passed: set<Document>, c: Document)
    requires NewerThanPublished(s, doc) && c in s.published && Barrier(s.files, scope, passed, c)
    ensures Barrier(Write(s.files, target, doc), scope, passed, c)
  {}

  lemma StepKeepsOrder(scope: Option<Scope>, s: System, step: Step, s': System, passed: set<Document>)
    requires Next(scope, s, step, s') && PlaneOk(s) && OrderOk(s, scope, passed)
    ensures OrderOk(s', scope, passed + Passes(scope, s, step))
  {
    match step
    case Poll(_, _, _) => PollKeepsOrder(scope, s, step, passed);
    case Fail(_, _) => assert passed + {} == passed;
    case Publish(target, _, _, _, _) =>
      assert passed + {} == passed;
      PublishEffect(s, step, s');
      forall c | c in s.accepted ensures Barrier(s'.files, scope, passed, c) {
        if step.result.Published? { BarrierKept(s, target, step.result.document, scope, passed, c); }
      }
  }

  lemma StartIsInOrder(scope: Option<Scope>)
    ensures PlaneOk(Start()) && OrderOk(Start(), scope, {})
  {}

  lemma {:induction false} BehaviorOrder(scope: Option<Scope>, steps: seq<Step>, states: seq<System>, n: nat)
    requires Behavior(scope, steps, states) && n <= |steps|
    ensures PlaneOk(states[n]) && OrderOk(states[n], scope, Passed(scope, steps, states, n))
  {
    StartIsInOrder(scope);
    if n > 0 {
      BehaviorOrder(scope, steps, states, n - 1);
      StepKeepsPlane(scope, states[n - 1], steps[n - 1], states[n]);
      StepKeepsOrder(scope, states[n - 1], steps[n - 1], states[n], Passed(scope, steps, states, n - 1));
    }
  }

  // ----- main results

  /** The n-th step is a poll from which the page accepts `r`. */
  ghost predicate Accepts(scope: Option<Scope>, steps: seq<Step>, states: seq<System>, n: nat, r: Document)
    requires n < |steps| < |states|
  {
    steps[n].Poll? && FetchControl(states[n].files, scope, steps[n].planeNow, steps[n].pageNow) == Fetched(r)
  }

  lemma AcceptedWhen(scope: Option<Scope>, steps: seq<Step>, states: seq<System>, n: nat, r: Document)
    requires Behavior(scope, steps, states) && n < |steps| && Accepts(scope, steps, states, n, r)
    ensures Overtaken(states[n].accepted, r) <==> BreaksOrder(scope, states[n], steps[n], Passed(scope, steps, states, n))
  {
    BehaviorOrder(scope, steps, states, n);
    ServingRaisesOrderBarrier(scope, states[n], steps[n], {}, r);
    BreaksExactly(scope, states[n], steps[n], Passed(scope, steps, states, n), r);
  }

  /**
   Every run, every poll: the page accepts a document older than one it accepted before, not both being kill
   switches, exactly if it is a kill switch that an earlier poll passed over for a newer document, or the
   poll itself is bypassed by an inactive document behind the page's revision.
   */
  lemma OrderBrokenExactly(scope: Option<Scope>, steps: seq<Step>, states: seq<System>, n: nat, r: Document)
    requires Behavior(scope, steps, states) && n < |steps| && Accepts(scope, steps, states, n, r)
    ensures (exists c :: c in states[n].accepted && r.revision < c.revision && !(r.active && c.active))
       <==> if r.active then exists i :: 0 <= i < n && PassedAt(scope, steps, states, i, r)
            else Bypasses(scope, states[n], steps[n]) && r.revision < CurrentRevision(states[n].page)
  {
    AcceptedWhen(scope, steps, states, n, r);
    PassedBySome(scope, steps, states, n, r);
  }

  ghost predicate InOrder(docs: seq<Document>) {
    forall i, j :: 0 <= i < j < |docs| && docs[j].revision < docs[i].revision ==> docs[i].active && docs[j].active
  }

  lemma InOrderAppend(docs: seq<Document>, r: Document)
    ensures InOrder(docs + [r]) <==> InOrder(docs) && !Overtaken(docs, r)
  {
    var all := docs + [r];
    if Overtaken(docs, r) {
      var c :| c in docs && r.revision < c.revision && !(r.active && c.active);
      var i :| 0 <= i < |docs| && docs[i] == c;
      assert all[i] == c && all[|docs|] == r;
    }
    if !InOrder(docs) {
      var i, j :| 0 <= i < j < |docs| && docs[j].revision < docs[i].revision && !(docs[i].active && docs[j].active);
      assert all[i] == docs[i] && all[j] == docs[j];
    }
  }

  ghost predicate BreaksOrderAt(scope: Option<Scope>, steps: seq<Step>, states: seq<System>, i: nat)
    requires i < |steps| < |states|
  {
    BreaksOrder(scope, states[i], steps[i], Passed(scope, steps, states, i))
  }

  /** Served-revision order: what a page accepts is in order exactly if none of its polls so far broke it. */
  lemma {:induction false} ServedRevisionOrder(scope: Option<Scope>, steps: seq<Step>, states: seq<System>, n: nat)
    requires Behavior(scope, steps, states) && n <= |steps|
    ensures InOrder(states[n].accepted) <==> Unbroken(scope, steps, states, n)
  {
    if n > 0 {
      ServedRevisionOrder(scope, steps, states, n - 1);
      StepOrder(scope, steps, states, n - 1);
      UnbrokenStep(scope, steps, states, n);
    }
  }

  ghost predicate Unbroken(scope: Option<Scope>, steps: seq<Step>, states: seq<System>, n: nat)
    requires n <= |steps| && |steps| < |states|
  {
    forall i :: 0 <= i < n ==> !BreaksOrderAt(scope, steps, states, i)
  }

  lemma UnbrokenStep(scope: Option<Scope>, steps: seq<Step>, states: seq<System>, n: nat)
    requires 0 < n <= |steps| && |steps| < |states|
    ensures Unbroken(scope, steps, states, n)
       <==> Unbroken(scope, steps, states, n - 1) && !BreaksOrderAt(scope, steps, states, n - 1)
  {}

  lemma StepOrder(scope: Option<Scope>, steps: seq<Step>, states: seq<System>, n: nat)
    requires Behavior(scope, steps, states) && n < |steps|
    ensures InOrder(states[n + 1].accepted) <==> InOrder(states[n].accepted) && !BreaksOrderAt(scope, steps, states, n)
  {
    assert Next(scope, states[n], steps[n], states[n + 1]);
    if steps[n].Poll? && FetchControl(states[n].files, scope, steps[n].planeNow, steps[n].pageNow).Fetched? {
      var r := FetchControl(states[n].files, scope, steps[n].planeNow, steps[n].pageNow).document;
      AcceptedWhen(scope, steps, states, n, r);
      InOrderAppend(states[n].accepted, r);
    }
  }

  /** A page that is not latched counts a rollback at exactly the polls that break the order. */
  lemma RollbackExactly(scope: Option<Scope>, steps: seq<Step>, states: seq<System>, n: nat)
    requires Behavior(scope, steps, states) && n < |steps| && !states[n].page.killSwitchLatched
    ensures states[n + 1].page.counters.rollbackRejected ==
            states[n].page.counters.rollbackRejected + (if BreaksOrderAt(scope, steps, states, n) then 1 else 0)
  {
    BehaviorOrder(scope, steps, states, n);
    assert Next(scope, states[n], steps[n], states[n + 1]);
    if steps[n].Poll? && FetchControl(states[n].files, scope, steps[n].planeNow, steps[n].pageNow).Fetched? {
      var r := FetchControl(states[n].files, scope, steps[n].planeNow, steps[n].pageNow).document;
      AcceptedWhen(scope, steps, states, n, r);
      RollbackIsOvertaken(states[n], scope, Passed(scope, steps, states, n), r);
    }
  }

  lemma RollbackIsOvertaken(s: System, scope: Option<Scope>, passed: set<Document>, r: Document)
    requires OrderOk(s, scope, passed) && !s.page.killSwitchLatched && r.revision >= 0
    ensures r.revision < CurrentRevision(s.page) <==> Overtaken(s.accepted, r)
  {}

  /** Over whole runs: a page that is not latched has counted a rollback exactly if some poll broke the order. */
  lemma {:induction false} RollbackNeedsBrokenOrder(scope: Option<Scope>, steps: seq<Step>, states: seq<System>, n: nat)
    requires Behavior(scope, steps, states) && n <= |steps| && !states[n].page.killSwitchLatched
    ensures states[n].page.counters.rollbackRejected > 0 <==> exists i :: 0 <= i < n && BreaksOrderAt(scope, steps, states, i)
  {
    if n > 0 {
      if states[n - 1].page.killSwitchLatched { LatchStays(scope, steps, states, n - 1, n); }
      RollbackNeedsBrokenOrder(scope, steps, states, n - 1);
      RollbackExactly(scope, steps, states, n - 1);
    }
  }
}
