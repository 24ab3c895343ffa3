/**
 The refresh loop as an asynchronous machine.  A timer callback, an online or visibility event, start,
 stop, the completion of a fetch and the continuation of each awaiting caller are separate steps, in any
 order.  Applying a fetched outcome and clearing the in-flight promise happen in one turn of the event loop.
 */
module RefreshLoop {
  import opened Wrappers
  import opened ControlRegistry
  import opened RefreshDelay

  /** A settled await: the cycle that was awaited and what it resolved to. */
  datatype Settled = Settled(cycle: nat, backoff: bool)

  /** `waiting` holds, per caller that will reschedule, the cycle it awaits; `ready` those whose cycle is settled. */
  datatype Loop = Loop(
    registry: Registry,
    currentlyRefreshing: bool,
    refreshAttemptCount: nat,
    loopStarted: bool,
    listenersInstalled: bool,
    timerHandle: Option<nat>,
    timers: map<nat, int>,
    inFlight: Option<nat>,
    fetches: set<nat>,
    waiting: seq<nat>,
    ready: seq<Settled>,
    nextId: nat)

  const IDLE := Loop(INITIAL, false, 0, false, false, None, map[], None, {}, [], [], 0)

  datatype Step =
    | Start
    | Stop
    | Fire(timer: nat)
    | Trigger
    | InitialFetch
    | Complete(cycle: nat, outcome: Outcome)
    | Resume(k: nat)

  function ClearTimer(l: Loop): Loop {
    match l.timerHandle
    case None => l
    case Some(handle) => l.(timers := l.timers - {handle}, timerHandle := None)
  }

  function ScheduleNext(l: Loop, delay: int): Loop {
    var cleared := ClearTimer(l);
    cleared.(timers := cleared.timers[l.nextId := delay], timerHandle := Some(l.nextId), nextId := l.nextId + 1)
  }

  function DelayAfter(l: Loop, backoff: bool): int {
    NextDelayMs(backoff, l.registry.consecutiveFailures, l.refreshAttemptCount)
  }

  /** Joins the cycle in flight or begins one. */
  function RunCycle(l: Loop): Loop {
    if l.inFlight.Some? then l
    else
      l.(currentlyRefreshing := true,
         refreshAttemptCount := l.refreshAttemptCount + 1,
         inFlight := Some(l.nextId),
         fetches := l.fetches + {l.nextId},
         nextId := l.nextId + 1)
  }

  /** The caller awaits the cycle and will reschedule after it. */
  function AwaitCycle(l: Loop): Loop {
    var running := RunCycle(l);
    running.(waiting := running.waiting + [running.inFlight.value])
  }

  function DoStart(l: Loop): Loop {
    if l.loopStarted then l
    else
      var started := l.(loopStarted := true, listenersInstalled := true);
      ScheduleNext(started, DelayAfter(started, l.registry.consecutiveFailures > 0))
  }

  function DoStop(l: Loop): Loop {
    ClearTimer(l.(loopStarted := false)).(listenersInstalled := false)
  }

  function DoFire(l: Loop, timer: nat): Loop {
    var fired := l.(timers := l.timers - {timer}, timerHandle := None);
    if !l.loopStarted then fired else AwaitCycle(fired)
  }

  function DoTrigger(l: Loop): Loop {
    if !l.loopStarted then l
    else
      var cleared := ClearTimer(l);
      if l.inFlight.Some? then cleared else AwaitCycle(cleared)
  }

  function Resolved(n: nat, cycle: nat, backoff: bool): seq<Settled> {
    seq(n, _ => Settled(cycle, backoff))
  }

  /** All callers hold the same promise, so its settling makes each of them ready. */
  function DoComplete(l: Loop, cycle: nat, outcome: Outcome): Loop {
    l.(registry := Apply(l.registry, outcome.result, outcome.appliedAt),
       currentlyRefreshing := false,
       inFlight := None,
       fetches := l.fetches - {cycle},
       waiting := [],
       ready := l.ready + Resolved(|l.waiting|, cycle, ShouldBackoff(l.registry, outcome.result)))
  }

  function DoResume(l: Loop, k: nat): Loop
    requires k < |l.ready|
  {
    var rest := l.(ready := l.ready[..k] + l.ready[k + 1..]);
    if !l.loopStarted then rest else ScheduleNext(rest, DelayAfter(l, l.ready[k].backoff))
  }

  /** The loop is only started once a control document has been applied; events only reach installed listeners. */
  function Next(l: Loop, step: Step): Option<Loop> {
    match step
    case Start => if l.registry.hasAppliedOnce then Some(DoStart(l)) else None
    case Stop => Some(DoStop(l))
    case Fire(timer) => if timer in l.timers then Some(DoFire(l, timer)) else None
    case Trigger => if l.listenersInstalled then Some(DoTrigger(l)) else None
    case InitialFetch => Some(if l.registry.hasAppliedOnce then l else RunCycle(l))
    case Complete(cycle, outcome) => if cycle in l.fetches then Some(DoComplete(l, cycle, outcome)) else None
    case Resume(k) => if k < |l.ready| then Some(DoResume(l, k)) else None
  }

  function Exec(l: Loop, steps: seq<Step>): Option<Loop>
    decreases |steps|
  {
    if steps == [] then Some(l)
    else
      match Next(l, steps[0])
      case None => None
      case Some(l') => Exec(l', steps[1..])
  }

  // ----- the invariant

  function Only(id: Option<nat>): set<nat> {
    if id.Some? then {id.value} else {}
  }

  ghost predicate Inv(l: Loop) {
    && l.timers.Keys == Only(l.timerHandle)
    && (forall id :: id in l.timers ==> MIN_REFRESH_INTERVAL_MS <= l.timers[id] <= MAX_REFRESH_INTERVAL_MS)
    && l.fetches == Only(l.inFlight)
    && (l.currentlyRefreshing <==> l.inFlight.Some?)
    && (forall c :: c in l.waiting ==> l.inFlight == Some(c))
    && (l.inFlight.None? ==> l.waiting == [])
    && (l.loopStarted ==> l.registry.hasAppliedOnce)
    && (l.timerHandle.Some? ==> l.loopStarted)
    && (l.listenersInstalled <==> l.loopStarted)
    && (l.inFlight.Some? && l.registry.hasAppliedOnce ==> l.waiting != [])
    && (l.loopStarted ==> l.timerHandle.Some? || l.waiting != [] || l.ready != [])
  }

  /** Scheduling restores the invariant of a started loop even when no continuation is left. */
  lemma ScheduleKeepsInv(l: Loop, delay: int)
    requires Inv(l.(ready := [Settled(0, true)])) && l.loopStarted
    requires MIN_REFRESH_INTERVAL_MS <= delay <= MAX_REFRESH_INTERVAL_MS
    ensures Inv(ScheduleNext(l, delay))
  {}

  lemma StepKeepsInv(l: Loop, step: Step)
    requires Inv(l) && Next(l, step).Some?
    ensures Inv(Next(l, step).value)
  {
    match step
    case Start =>
      if !l.loopStarted {
        var started := l.(loopStarted := true, listenersInstalled := true);
        ScheduleKeepsInv(started, DelayAfter(started, l.registry.consecutiveFailures > 0));
      }
    case Resume(k) =>
      if l.loopStarted {
        ScheduleKeepsInv(l.(ready := l.ready[..k] + l.ready[k + 1..]), DelayAfter(l, l.ready[k].backoff));
      }
    case _ =>
  }

  lemma {:induction false} ExecKeepsInv(l: Loop, steps: seq<Step>)
    requires Inv(l) && Exec(l, steps).Some?
    ensures Inv(Exec(l, steps).value)
    decreases |steps|
  {
    if steps != [] {
      StepKeepsInv(l, steps[0]);
      ExecKeepsInv(Next(l, steps[0]).value, steps[1..]);
    }
  }

  // ----- main results

  ghost predicate SoundSchedule(l: Loop) {
    && |l.timers| <= 1
    && |l.fetches| <= 1
    && (forall id :: id in l.timers ==> 15_000 <= l.timers[id] <= 300_000)
    && (l.loopStarted ==> l.timers != map[] || l.waiting != [] || l.ready != [])
    && (l.waiting != [] ==> l.fetches != {})
    && (!l.loopStarted ==> l.timers == map[])
  }

  lemma InvMeansSoundSchedule(l: Loop)
    requires Inv(l)
    ensures SoundSchedule(l)
  {
    assert |l.timers| == |l.timers.Keys|;
    if l.timerHandle.Some? { assert l.timerHandle.value in l.timers; }
  }

  /**
   The loop never doubles and never loses its schedule: at most one timer and one request are
   outstanding, every pending delay is between 15 and 300 s, and a started loop has a pending timer or
   a caller that has yet to reschedule.
   */
  lemma NeverDoublesNeverStalls(steps: seq<Step>)
    requires Exec(IDLE, steps).Some?
    ensures SoundSchedule(Exec(IDLE, steps).value)
  {
    ExecKeepsInv(IDLE, steps);
    InvMeansSoundSchedule(Exec(IDLE, steps).value);
  }

  lemma ExecCons(l: Loop, step: Step, rest: seq<Step>)
    requires Next(l, step).Some?
    ensures Exec(l, [step] + rest) == Exec(Next(l, step).value, rest)
  {
    assert ([step] + rest)[1..] == rest;
  }

  lemma FireRefreshes(l: Loop)
    requires Inv(l) && l.timerHandle.Some? && l.inFlight.None?
    ensures var l' := Exec(l, [Fire(l.timerHandle.value)]);
            l'.Some? && l'.value.refreshAttemptCount == l.refreshAttemptCount + 1
  {
    ExecCons(l, Fire(l.timerHandle.value), []);
    assert [Fire(l.timerHandle.value)] == [Fire(l.timerHandle.value)] + [];
  }

  /** A started loop with nothing in flight gets to its next attempt. */
  lemma RefreshesFromRest(l: Loop) returns (steps: seq<Step>)
    requires Inv(l) && l.loopStarted && l.inFlight.None?
    ensures var l' := Exec(l, steps);
            l'.Some? && l'.value.refreshAttemptCount == l.refreshAttemptCount + 1
  {
    if l.timerHandle.Some? {
      FireRefreshes(l);
      steps := [Fire(l.timerHandle.value)];
    } else {
      var l1 := Next(l, Resume(0)).value;
      StepKeepsInv(l, Resume(0));
      FireRefreshes(l1);
      steps := [Resume(0)] + [Fire(l1.timerHandle.value)];
      ExecCons(l, Resume(0), [Fire(l1.timerHandle.value)]);
    }
  }

  /** From every reachable state in which the loop is started, some continuation begins another refresh. */
  lemma AlwaysRefreshesAgain(steps: seq<Step>) returns (more: seq<Step>)
    requires Exec(IDLE, steps).Some? && Exec(IDLE, steps).value.loopStarted
    ensures var l := Exec(IDLE, steps).value; var l' := Exec(l, more);
            l'.Some? && l'.value.refreshAttemptCount == l.refreshAttemptCount + 1
  {
    ExecKeepsInv(IDLE, steps);
    var l := Exec(IDLE, steps).value;
    if l.inFlight.None? {
      more := RefreshesFromRest(l);
    } else {
      var done := Complete(l.inFlight.value, Outcome(Failed(FetchTimeout), 0, 0));
      var l1 := Next(l, done).value;
      StepKeepsInv(l, done);
      var rest := RefreshesFromRest(l1);
      more := [done] + rest;
      ExecCons(l, done, rest);
    }
  }

  /** Timer callbacks, settled fetches and continuations that a started loop has left before its next refresh. */
  function Slack(l: Loop): nat {
    if l.inFlight.Some? then |l.waiting| + 3 * |l.ready| + (if l.timerHandle.Some? then 2 else 0) + 1
    else |l.ready|
  }

  predicate Works(step: Step) {
    step.Fire? || step.Complete? || step.Resume?
  }

  function Work(steps: seq<Step>): nat {
    if steps == [] then 0 else (if Works(steps[0]) then 1 else 0) + Work(steps[1..])
  }

  lemma StepUsesSlack(l: Loop, step: Step)
    requires Inv(l) && l.loopStarted && !step.Stop? && Next(l, step).Some?
    ensures var l' := Next(l, step).value;
            && l'.loopStarted
            && l.refreshAttemptCount <= l'.refreshAttemptCount
            && (l'.refreshAttemptCount == l.refreshAttemptCount ==>
                  Slack(l') + (if Works(step) then 1 else 0) <= Slack(l))
  {}

  /**
   A started loop that is not stopped refreshes again: every run with more than `Slack` timer callbacks,
   settled fetches and continuations begins a refresh, whatever else happens in between.
   */
  lemma {:induction false} EveryRunRefreshes(l: Loop, steps: seq<Step>, l': Loop)
    requires Inv(l) && l.loopStarted && Exec(l, steps) == Some(l')
    requires forall i :: 0 <= i < |steps| ==> !steps[i].Stop?
    ensures l'.loopStarted && l.refreshAttemptCount <= l'.refreshAttemptCount
    ensures l'.refreshAttemptCount == l.refreshAttemptCount ==> Slack(l') + Work(steps) <= Slack(l)
    decreases |steps|
  {
    if steps != [] {
      StepUsesSlack(l, steps[0]);
      StepKeepsInv(l, steps[0]);
      EveryRunRefreshes(Next(l, steps[0]).value, steps[1..], l');
    }
  }

  /** The same from every reachable state. */
  lemma RefreshesWithinSlack(before: seq<Step>, steps: seq<Step>)
    requires Exec(IDLE, before).Some? && Exec(IDLE, before).value.loopStarted
    requires Exec(Exec(IDLE, before).value, steps).Some?
    requires forall i :: 0 <= i < |steps| ==> !steps[i].Stop?
    requires Work(steps) > Slack(Exec(IDLE, before).value)
    ensures var l := Exec(IDLE, before).value;
            Exec(l, steps).value.refreshAttemptCount > l.refreshAttemptCount
  {
    ExecKeepsInv(IDLE, before);
    EveryRunRefreshes(Exec(IDLE, before).value, steps, Exec(Exec(IDLE, before).value, steps).value);
  }

  // ----- the registry underneath the loop

  function OutcomeOf(step: Step): seq<Outcome> {
    if step.Complete? then [step.outcome] else []
  }

  function Outcomes(steps: seq<Step>): seq<Outcome> {
    if steps == [] then [] else OutcomeOf(steps[0]) + Outcomes(steps[1..])
  }

  lemma ReplayMore(history: seq<Outcome>, outcome: Outcome)
    ensures Replay(history + [outcome]) == Apply(Replay(history), outcome.result, outcome.appliedAt)
  {
    assert (history + [outcome])[..|history|] == history;
  }

  lemma StepReplays(l: Loop, history: seq<Outcome>, step: Step)
    requires l.registry == Replay(history) && Next(l, step).Some?
    ensures Next(l, step).value.registry == Replay(history + OutcomeOf(step))
  {
    if step.Complete? {
      ReplayMore(history, step.outcome);
    } else {
      assert history + OutcomeOf(step) == history;
    }
  }

  lemma OutcomesSplit(history: seq<Outcome>, steps: seq<Step>)
    requires steps != []
    ensures history + Outcomes(steps) == (history + OutcomeOf(steps[0])) + Outcomes(steps[1..])
  {}

  /** Only completed cycles change the record, so it is the replay of their outcomes. */
  lemma {:induction false} LoopReplays(l: Loop, history: seq<Outcome>, steps: seq<Step>, l': Loop)
    requires l.registry == Replay(history) && Exec(l, steps) == Some(l')
    ensures l'.registry == Replay(history + Outcomes(steps))
    decreases |steps|
  {
    if steps == [] {
      assert history + Outcomes(steps) == history;
    } else {
      StepReplays(l, history, steps[0]);
      LoopReplays(Next(l, steps[0]).value, history + OutcomeOf(steps[0]), steps[1..], l');
      OutcomesSplit(history, steps);
    }
  }

  /**
   Gate safety over whole runs, stops and restarts included: a latched page keeps its gate closed, and
   an open gate is one of an unlatched page whose document was applied less than 660 s ago.
   */
  lemma GateSafety(steps: seq<Step>, more: seq<Step>, t: int)
    requires Exec(IDLE, steps).Some? && Exec(Exec(IDLE, steps).value, more).Some?
    ensures var l := Exec(IDLE, steps).value; var l' := Exec(l, more).value;
            && (l.registry.killSwitchLatched ==> l'.registry.killSwitchLatched && !GateOpen(l'.registry, t))
            && (Honest(Outcomes(steps)) && GateOpen(l.registry, t) ==>
                  !l.registry.killSwitchLatched && l.registry.lastAppliedAt.Some?
                  && t < l.registry.lastAppliedAt.value + 660_000)
  {
    LoopReplays(IDLE, [], steps, Exec(IDLE, steps).value);
    var history := Outcomes(steps);
    assert [] + history == history;
    var l := Exec(IDLE, steps).value;
    LoopReplays(l, history, more, Exec(l, more).value);
    if l.registry.killSwitchLatched {
      LatchIsForever(history, Outcomes(more), t);
    }
    if Honest(history) && GateOpen(l.registry, t) {
      OpenGateIsRecent(history, t);
    }
  }
}
