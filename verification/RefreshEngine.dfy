/**
 The refresh engine as it is written: callbacks that update the page's registry object and the timer.
 Each method is the part of a callback that runs without an await; its contract is the step of
 `RefreshLoop` with the same name.
 */
module RefreshEngine {
  import opened Wrappers
  import opened ControlRegistry
  import opened RefreshDelay
  import opened RefreshLoop

  class Engine {
    const registry: PageRegistry
    var currentlyRefreshing: bool
    var refreshAttemptCount: nat
    var loopStarted: bool
    var listenersInstalled: bool
    var timerHandle: Option<nat>
    var inFlight: Option<nat>
    // What the runtime still owes the page: running timers, requests and settled or unsettled awaits.
    var timers: map<nat, int>
    var fetches: set<nat>
    var waiting: seq<nat>
    var ready: seq<Settled>
    var nextId: nat

    ghost function View(): Loop
      reads this, registry
    {
      Loop(registry.View(), currentlyRefreshing, refreshAttemptCount, loopStarted, listenersInstalled, timerHandle,
           timers, inFlight, fetches, waiting, ready, nextId)
    }

    constructor ()
      ensures View() == IDLE && fresh(registry)
    {
      registry := new PageRegistry();
      currentlyRefreshing, refreshAttemptCount := false, 0;
      loopStarted, listenersInstalled, timerHandle, inFlight := false, false, None, None;
      timers, fetches, waiting, ready, nextId := map[], {}, [], [], 0;
    }

    method ClearRegistryTimer()
      modifies this`timers, this`timerHandle
      ensures View() == ClearTimer(old(View()))
    {
      if timerHandle.Some? {
        timers := timers - {timerHandle.value};
        timerHandle := None;
      }
    }

    method Schedule(delay: int)
      modifies this`timers, this`timerHandle, this`nextId
      ensures View() == ScheduleNext(old(View()), delay)
    {
      ClearRegistryTimer();
      timers := timers[nextId := delay];
      timerHandle := Some(nextId);
      nextId := nextId + 1;
    }

    method NextDelay(backoff: bool) returns (delay: int)
      ensures delay == DelayAfter(View(), backoff)
    {
      delay := NextDelayMs(backoff, registry.consecutiveFailures, refreshAttemptCount);
    }

    method RunRefreshCycle()
      modifies this`currentlyRefreshing, this`refreshAttemptCount, this`inFlight, this`fetches, this`nextId
      ensures View() == RunCycle(old(View()))
    {
      if inFlight.Some? { return; }
      currentlyRefreshing := true;
      refreshAttemptCount := refreshAttemptCount + 1;
      inFlight := Some(nextId);
      fetches := fetches + {nextId};
      nextId := nextId + 1;
    }

    method AwaitAndReschedule()
      modifies this`currentlyRefreshing, this`refreshAttemptCount, this`inFlight, this`fetches, this`nextId, this`waiting
      ensures View() == AwaitCycle(old(View()))
    {
      RunRefreshCycle();
      waiting := waiting + [inFlight.value];
    }

    method StartRuntimeControlLoop()
      modifies this
      ensures View() == DoStart(old(View()))
    {
      if loopStarted { return; }
      loopStarted := true;
      listenersInstalled := true;
      var delay := NextDelay(registry.consecutiveFailures > 0);
      Schedule(delay);
    }

    method StopRuntimeControlLoop()
      modifies this
      ensures View() == DoStop(old(View()))
    {
      loopStarted := false;
      ClearRegistryTimer();
      listenersInstalled := false;
    }

    /** The timer callback, up to its await. */
    method Tick(timer: nat)
      requires timer in timers
      modifies this
      ensures View() == DoFire(old(View()), timer)
    {
      timers := timers - {timer};
      timerHandle := None;
      if !loopStarted { return; }
      AwaitAndReschedule();
    }

    /** An online or visibility event, up to its await. */
    method TriggerImmediateRefresh()
      modifies this
      ensures View() == DoTrigger(old(View()))
    {
      if !loopStarted { return; }
      ClearRegistryTimer();
      if inFlight.Some? { return; }
      AwaitAndReschedule();
    }

    method PerformInitialControlFetch()
      modifies this
      ensures Next(old(View()), InitialFetch) == Some(View())
    {
      if !registry.hasAppliedOnce {
        RunRefreshCycle();
      }
    }

    /** A fetch settles: its outcome is applied, the single flight is released, its callers are resolved. */
    method CompleteCycle(cycle: nat, outcome: Outcome)
      requires cycle in fetches
      modifies this, registry
      ensures View() == DoComplete(old(View()), cycle, outcome)
    {
      var backoff := registry.ApplyFetchOutcome(outcome.result, outcome.appliedAt);
      currentlyRefreshing := false;
      inFlight := None;
      fetches := fetches - {cycle};
      ready := ready + Resolved(|waiting|, cycle, backoff);
      waiting := [];
    }

    /** The rest of a timer or event callback, after its await. */
    method Reschedule(k: nat)
      requires k < |ready|
      modifies this
      ensures View() == DoResume(old(View()), k)
    {
      var backoff := ready[k].backoff;
      ready := ready[..k] + ready[k + 1..];
      if !loopStarted { return; }
      var delay := NextDelay(backoff);
      Schedule(delay);
    }
  }
}
