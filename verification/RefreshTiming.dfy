/** What the loop's callbacks do and when the next refresh is due, in milliseconds and fetch outcomes. */
module RefreshTiming {
  import opened Wrappers
  import opened ControlRegistry
  import opened RefreshDelay
  import opened RefreshLoop

  // ----- which delay

  /** At most a tenth away from the base, and between 15 and 300 s. */
  ghost predicate About(delay: int, base: int) {
    9 * base <= 10 * delay <= 11 * base && 15_000 <= delay <= 300_000
  }

  /** The wait after so many failures in a row. */
  ghost function LadderMs(failures: nat): int {
    if failures <= 1 then 15_000
    else if failures == 2 then 30_000
    else if failures == 3 then 60_000
    else if failures == 4 then 120_000
    else 300_000
  }

  lemma DelayMeans(l: Loop, backoff: bool)
    ensures About(DelayAfter(l, backoff), if backoff then LadderMs(l.registry.consecutiveFailures) else 30_000)
  {
    JitterWithinTenth(BaseDelay(backoff, l.registry.consecutiveFailures), l.refreshAttemptCount);
  }

  /** The loop has exactly one timer, due after about `base` ms. */
  ghost predicate DueAfter(l: Loop, base: int) {
    exists id :: l.timerHandle == Some(id) && l.timers.Keys == {id} && About(l.timers[id], base)
  }

  lemma ScheduledDue(l: Loop, delay: int, base: int)
    requires l.timers.Keys == Only(l.timerHandle) && About(delay, base)
    ensures DueAfter(ScheduleNext(l, delay), base)
  {
    assert ScheduleNext(l, delay).timers.Keys == {l.nextId};
  }

  // ----- which outcome an await was settled with

  lemma {:induction false} ExecLast(l: Loop, steps: seq<Step>, l': Loop) returns (before: Loop)
    requires steps != [] && Exec(l, steps) == Some(l')
    ensures Exec(l, steps[..|steps| - 1]) == Some(before) && Next(before, steps[|steps| - 1]) == Some(l')
    decreases |steps|
  {
    if |steps| == 1 {
      before := l;
    } else {
      before := ExecLast(Next(l, steps[0]).value, steps[1..], l');
      assert steps[1..][..|steps| - 2] == steps[..|steps| - 1][1..];
    }
  }

  lemma Regroup(a: seq<Outcome>, b: seq<Outcome>, c: seq<Outcome>)
    ensures a + (b + c) == (a + b) + c
  {}

  lemma {:induction false} OutcomesLast(steps: seq<Step>)
    requires steps != []
    ensures Outcomes(steps) == Outcomes(steps[..|steps| - 1]) + OutcomeOf(steps[|steps| - 1])
    decreases |steps|
  {
    var init, tail, last := steps[..|steps| - 1], steps[1..], OutcomeOf(steps[|steps| - 1]);
    if |steps| == 1 {
      assert tail == [] && init == [];
    } else {
      OutcomesLast(tail);
      assert tail[..|tail| - 1] == init[1..];
      Regroup(OutcomeOf(steps[0]), Outcomes(init[1..]), last);
    }
  }

  lemma NumberedFirst(history: seq<Outcome>, more: seq<Outcome>)
    requires Numbered(history + more)
    ensures Numbered(history)
  {
    var all := history + more;
    assert forall i :: 0 <= i < |history| ==> all[i] == history[i];
  }

  /** The outcome that the j-th step brings is of a fetch whose document is not older than any before it. */
  ghost predicate SucceededAt(steps: seq<Step>, j: nat)
    requires j < |steps|
  {
    Succeeds(Outcomes(steps[..j + 1]))
  }

  /** The j-th step settled the cycle, with an outcome that calls for backing off exactly if it did not succeed. */
  ghost predicate SettledBy(steps: seq<Step>, j: nat, e: Settled) {
    && j < |steps|
    && steps[j].Complete? && steps[j].cycle == e.cycle
    && (e.backoff <==> !SucceededAt(steps, j))
  }

  ghost predicate CyclesOk(l: Loop, steps: seq<Step>) {
    && (forall id :: id in l.fetches ==> id < l.nextId)
    && (forall j :: 0 <= j < |steps| && steps[j].Complete? ==> steps[j].cycle < l.nextId && steps[j].cycle !in l.fetches)
    && (forall i, j :: 0 <= i < j < |steps| && steps[i].Complete? && steps[j].Complete? ==> steps[i].cycle != steps[j].cycle)
  }

  lemma {:induction false} CyclesDistinct(steps: seq<Step>, l: Loop)
    requires Exec(IDLE, steps) == Some(l)
    ensures CyclesOk(l, steps)
    decreases |steps|
  {
    if steps != [] {
      var last := |steps| - 1;
      var before := ExecLast(IDLE, steps, l);
      CyclesDistinct(steps[..last], before);
      ExecKeepsInv(IDLE, steps[..last]);
      CyclesStep(before, steps[..last], steps[last], l);
      assert steps == steps[..last] + [steps[last]];
    }
  }

  lemma CyclesStep(before: Loop, steps: seq<Step>, step: Step, l: Loop)
    requires CyclesOk(before, steps) && Inv(before) && Next(before, step) == Some(l)
    ensures CyclesOk(l, steps + [step])
  {
    assert before.nextId <= l.nextId;
    assert forall id :: id in l.fetches ==> id in before.fetches || (id == before.nextId < l.nextId);
    assert step.Complete? ==> step.cycle in before.fetches && step.cycle !in l.fetches;
  }

  /** What a completion decides is what the history up to it says. */
  lemma CompletionDecides(steps: seq<Step>, before: Loop, cycle: nat, outcome: Outcome)
    requires Exec(IDLE, steps) == Some(before) && Numbered(Outcomes(steps + [Complete(cycle, outcome)]))
    ensures ShouldBackoff(before.registry, outcome.result) <==> !Succeeds(Outcomes(steps + [Complete(cycle, outcome)]))
  {
    var all := steps + [Complete(cycle, outcome)];
    OutcomesLast(all);
    assert all[..|steps|] == steps;
    LoopReplays(IDLE, [], steps, before);
    assert [] + Outcomes(steps) == Outcomes(steps);
    var history := Outcomes(all);
    assert history[..|history| - 1] == Outcomes(steps);
    if outcome.result.Fetched? { OutcomeKind(history); }
  }

  lemma SettledStays(steps: seq<Step>, step: Step, j: nat, e: Settled)
    requires SettledBy(steps, j, e)
    ensures SettledBy(steps + [step], j, e)
  {
    assert (steps + [step])[..j + 1] == steps[..j + 1];
  }

  /** Where in the list before a step an entry of the list after it was. */
  function Origin(step: Step, k: nat): nat {
    if step.Resume? && k >= step.k then k + 1 else k
  }

  lemma ReadyStep(before: Loop, step: Step, l: Loop, k: nat)
    requires Next(before, step) == Some(l) && k < |l.ready|
    ensures if step.Complete? && k >= |before.ready|
            then l.ready[k] == Settled(step.cycle, ShouldBackoff(before.registry, step.outcome.result))
            else Origin(step, k) < |before.ready| && l.ready[k] == before.ready[Origin(step, k)]
  {}

  lemma {:induction false} ReadyIsSettled(steps: seq<Step>, l: Loop, k: nat) returns (j: nat)
    requires Exec(IDLE, steps) == Some(l) && Numbered(Outcomes(steps)) && k < |l.ready|
    ensures SettledBy(steps, j, l.ready[k])
    decreases |steps|
  {
    var last := |steps| - 1;
    var before := ExecLast(IDLE, steps, l);
    var init, step := steps[..last], steps[last];
    assert steps == init + [step];
    ReadyStep(before, step, l, k);
    if step.Complete? && k >= |before.ready| {
      j := last;
      CompletionDecides(init, before, step.cycle, step.outcome);
      assert steps[..last + 1] == steps;
    } else {
      OutcomesLast(steps);
      NumberedFirst(Outcomes(init), OutcomeOf(step));
      j := ReadyIsSettled(init, before, Origin(step, k));
      SettledStays(init, step, j, l.ready[k]);
    }
  }

  lemma FailuresAre(steps: seq<Step>, l: Loop)
    requires Exec(IDLE, steps) == Some(l) && Numbered(Outcomes(steps))
    ensures l.registry.consecutiveFailures == TrailingFailures(Outcomes(steps))
  {
    LoopReplays(IDLE, [], steps, l);
    assert [] + Outcomes(steps) == Outcomes(steps);
    HistoryConservation(Outcomes(steps));
  }

  /** What a ready caller found is the outcome of the cycle that it awaited. */
  lemma AwaitedOutcome(steps: seq<Step>, l: Loop, j: nat, k: nat)
    requires Exec(IDLE, steps) == Some(l) && Numbered(Outcomes(steps))
    requires j < |steps| && steps[j].Complete? && k < |l.ready| && l.ready[k].cycle == steps[j].cycle
    ensures l.ready[k].backoff <==> !SucceededAt(steps, j)
  {
    var settled := ReadyIsSettled(steps, l, k);
    CyclesDistinct(steps, l);
    SameCycle(steps, l, settled, j);
  }

  lemma SameCycle(steps: seq<Step>, l: Loop, i: nat, j: nat)
    requires CyclesOk(l, steps) && i < |steps| && j < |steps|
    requires steps[i].Complete? && steps[j].Complete? && steps[i].cycle == steps[j].cycle
    ensures i == j
  {}

  lemma ResumeDue(l: Loop, k: nat, succeeded: bool, failures: nat)
    requires Inv(l) && l.loopStarted && k < |l.ready|
    requires l.ready[k].backoff == !succeeded && l.registry.consecutiveFailures == failures
    ensures Next(l, Resume(k)).Some? && DueAfter(Next(l, Resume(k)).value, if succeeded then 30_000 else LadderMs(failures))
  {
    DelayMeans(l, l.ready[k].backoff);
    var rest := l.(ready := l.ready[..k] + l.ready[k + 1..]);
    ScheduledDue(rest, DelayAfter(l, l.ready[k].backoff), if succeeded then 30_000 else LadderMs(failures));
  }

  // ----- main results

  /**
   Every run: when a caller goes on that awaited the cycle which the j-th step settled, the next refresh of a started
   loop is due about 30 s later if that outcome succeeded, and otherwise after the wait for the failures in a row so far.
   */
  lemma ResumeSchedules(steps: seq<Step>, l: Loop, j: nat, k: nat)
    requires Exec(IDLE, steps) == Some(l) && Numbered(Outcomes(steps)) && l.loopStarted
    requires j < |steps| && steps[j].Complete? && k < |l.ready| && l.ready[k].cycle == steps[j].cycle
    ensures var next := Next(l, Resume(k));
            next.Some? && DueAfter(next.value, if SucceededAt(steps, j) then 30_000
                                               else LadderMs(TrailingFailures(Outcomes(steps))))
  {
    AwaitedOutcome(steps, l, j, k);
    ExecKeepsInv(IDLE, steps);
    FailuresAre(steps, l);
    ResumeDue(l, k, SucceededAt(steps, j), TrailingFailures(Outcomes(steps)));
  }

  /** The first delay after a start: about 30 s, or the wait for the failures in a row so far. */
  lemma StartSchedules(steps: seq<Step>, l: Loop)
    requires Exec(IDLE, steps) == Some(l) && Numbered(Outcomes(steps)) && !l.loopStarted && l.registry.hasAppliedOnce
    ensures var failures := TrailingFailures(Outcomes(steps)); var next := Next(l, Start);
            && next.Some? && next.value.loopStarted
            && DueAfter(next.value, if failures == 0 then 30_000 else LadderMs(failures))
  {
    ExecKeepsInv(IDLE, steps);
    FailuresAre(steps, l);
    var started := l.(loopStarted := true, listenersInstalled := true);
    var backoff := l.registry.consecutiveFailures > 0;
    DelayMeans(started, backoff);
    ScheduledDue(started, DelayAfter(started, backoff),
                 if backoff then LadderMs(l.registry.consecutiveFailures) else 30_000);
  }

  /** A started loop that is started again keeps its timer. */
  lemma StartAgain(l: Loop)
    requires l.loopStarted && Next(l, Start).Some?
    ensures Next(l, Start) == Some(l)
  {}

  /** A request is begun: it is the only one, and nobody else waits. */
  ghost predicate Begins(l: Loop, l': Loop, waiting: nat) {
    && l'.refreshAttemptCount == l.refreshAttemptCount + 1
    && l'.currentlyRefreshing
    && exists id :: id !in l.fetches && l'.fetches == {id} && l'.inFlight == Some(id) && l'.waiting == seq(waiting, _ => id)
  }

  ghost predicate SameRequests(l: Loop, l': Loop) {
    l'.fetches == l.fetches && l'.refreshAttemptCount == l.refreshAttemptCount && l'.inFlight == l.inFlight
  }

  /**
   An online or visibility event of a started loop begins a request at once if none is in flight, in place of the
   pending timer; with one in flight it only drops the timer.
   */
  lemma TriggerBegins(steps: seq<Step>, l: Loop)
    requires Exec(IDLE, steps) == Some(l) && l.loopStarted
    ensures var next := Next(l, Trigger);
            && next.Some? && next.value.timers == map[] && next.value.ready == l.ready
            && (l.fetches == {} ==> Begins(l, next.value, 1))
            && (l.fetches != {} ==> SameRequests(l, next.value) && next.value.waiting == l.waiting)
  {
    ExecKeepsInv(IDLE, steps);
    CyclesDistinct(steps, l);
    var l' := Next(l, Trigger).value;
    assert l'.timers.Keys == {};
    if l.fetches == {} {
      assert l.inFlight.None?;
      assert l'.waiting == seq(1, _ => l.nextId);
    }
  }

  /** A timer of a started loop begins a request if none is in flight, and otherwise waits for the one that is. */
  lemma TimerBegins(steps: seq<Step>, l: Loop, timer: nat)
    requires Exec(IDLE, steps) == Some(l) && timer in l.timers
    ensures var next := Next(l, Fire(timer));
            && next.Some? && next.value.timers == map[] && next.value.ready == l.ready
            && (l.fetches == {} ==> Begins(l, next.value, 1))
            && (l.fetches != {} ==> SameRequests(l, next.value) && |next.value.waiting| == |l.waiting| + 1)
  {
    ExecKeepsInv(IDLE, steps);
    CyclesDistinct(steps, l);
    var l' := Next(l, Fire(timer)).value;
    assert l'.timers.Keys == {};
    if l.fetches == {} {
      assert l.inFlight.None?;
      assert l'.waiting == seq(1, _ => l.nextId);
    }
  }

  /** The initial fetch begins a request exactly if no document was applied and none is in flight; nobody reschedules after it. */
  lemma InitialFetchBegins(steps: seq<Step>, l: Loop)
    requires Exec(IDLE, steps) == Some(l)
    ensures var next := Next(l, InitialFetch);
            && next.Some? && next.value.timers == l.timers
            && (if l.registry.hasAppliedOnce || l.fetches != {} then next.value == l else Begins(l, next.value, 0))
  {
    ExecKeepsInv(IDLE, steps);
    CyclesDistinct(steps, l);
    if !l.registry.hasAppliedOnce && l.fetches == {} {
      var l' := Next(l, InitialFetch).value;
      assert l.inFlight.None? && l'.waiting == seq(0, _ => l.nextId);
    }
  }

  /** Stopping drops the timer and leaves requests and awaits to end; what they find is a stopped loop, which they leave alone. */
  lemma StopEnds(steps: seq<Step>, l: Loop, k: nat)
    requires Exec(IDLE, steps) == Some(l)
    ensures var stopped := Next(l, Stop);
            && stopped.Some? && stopped.value.timers == map[] && SameRequests(l, stopped.value)
            && !stopped.value.loopStarted && stopped.value.ready == l.ready
            && (k < |l.ready| ==> Next(stopped.value, Resume(k)).Some? && Next(stopped.value, Resume(k)).value.timers == map[])
  {
    ExecKeepsInv(IDLE, steps);
    assert Next(l, Stop).value.timers.Keys == {};
  }

  /** When a request settles, every caller that awaited it becomes ready with its cycle, and the flight is over. */
  lemma CompleteReadies(steps: seq<Step>, l: Loop, cycle: nat, outcome: Outcome)
    requires Exec(IDLE, steps) == Some(l) && cycle in l.fetches
    ensures var next := Next(l, Complete(cycle, outcome));
            && next.Some? && next.value.fetches == {} && next.value.waiting == [] && !next.value.currentlyRefreshing
            && l.waiting == seq(|l.waiting|, _ => cycle)
            && |next.value.ready| == |l.ready| + |l.waiting| && next.value.ready[..|l.ready|] == l.ready
            && (forall k :: |l.ready| <= k < |next.value.ready| ==> next.value.ready[k].cycle == cycle)
            && next.value.timers == l.timers
  {
    ExecKeepsInv(IDLE, steps);
    assert l.inFlight == Some(cycle);
    forall k | 0 <= k < |l.waiting| ensures l.waiting[k] == cycle { assert l.waiting[k] in l.waiting; }
    assert l.waiting == seq(|l.waiting|, _ => cycle);
  }
}
