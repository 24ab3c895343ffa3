/**
 The alert policy evaluator: hysteresis on consecutive breaches and recoveries, a cooldown between
 firings and one open incident at a time, told apart by its deduplication key.
 */
module AlertPolicy {
  import opened Wrappers

  datatype Status = Healthy | Pending | Firing | Resolved | NoData | QueryError | InsufficientSample

  /** The row of one evaluation; measured values are numbers, a missing one is None. */
  datatype Row = Row(
    ageMinutes: Option<real>,
    lastEventKnown: bool,
    metric: Option<real>,
    p75: Option<real>,
    sampleSize: real,
    observedWithinWindow: bool)

  /** `dedupKey` is the sample's own key, if it carries one. */
  datatype Sample = Sample(queryError: bool, noData: bool, row: Row, nowMinute: int, dedupKey: Option<string>)

  datatype Policy = Policy(
    isFreshness: bool,
    directionAbove: bool,
    threshold: real,
    sampleMinimum: real,
    requiredBreaches: int,
    cooldownMinutes: int,
    recoveryBelowOrEqual: bool,
    recoveryValue: real,
    requiredHealthy: int,
    deduplicationKey: string)

  datatype Notification = FiringNote(dedupKey: string, minute: int) | ResolvedNote(dedupKey: string, minute: int)

  datatype AlertState = AlertState(
    status: Status,
    consecutiveBreaches: nat,
    consecutiveHealthy: nat,
    lastNotificationAt: Option<int>,
    openKey: Option<string>,
    notifications: seq<Notification>)

  const FRESH := AlertState(Healthy, 0, 0, None, None, [])

  function MeasuredValue(policy: Policy, row: Row): Option<real> {
    if policy.isFreshness then row.ageMinutes
    else if row.metric.Some? then row.metric
    else row.p75
  }

  predicate HasMinimumSample(policy: Policy, row: Row) {
    if policy.isFreshness then row.lastEventKnown || row.ageMinutes.Some?
    else row.sampleSize >= policy.sampleMinimum
  }

  predicate Breaches(policy: Policy, row: Row) {
    var value := MeasuredValue(policy, row);
    value.Some? && policy.directionAbove && value.value > policy.threshold
  }

  predicate Recovers(policy: Policy, row: Row) {
    var value := MeasuredValue(policy, row);
    value.Some? && (if policy.recoveryBelowOrEqual then value.value <= policy.recoveryValue else row.observedWithinWindow)
  }

  /** What one sample means to the hysteresis; a breach is looked at before a recovery. */
  datatype Verdict = Unknown | UnderSampled | Breach | Recovery | Neutral

  function Judge(policy: Policy, sample: Sample): Verdict {
    if sample.queryError || sample.noData then Unknown
    else if !HasMinimumSample(policy, sample.row) then UnderSampled
    else if Breaches(policy, sample.row) then Breach
    else if Recovers(policy, sample.row) then Recovery
    else Neutral
  }

  function KeyOf(policy: Policy, sample: Sample): string {
    if sample.dedupKey.Some? then sample.dedupKey.value else policy.deduplicationKey
  }

  /** An incident is open when its key is set and not the empty string. */
  predicate Open(s: AlertState) {
    s.openKey.Some? && s.openKey.value != ""
  }

  predicate CooledDown(policy: Policy, s: AlertState, nowMinute: int) {
    s.lastNotificationAt.None? || nowMinute - s.lastNotificationAt.value >= policy.cooldownMinutes
  }

  predicate Fires(policy: Policy, s: AlertState, sample: Sample) {
    && Judge(policy, sample).Breach?
    && s.consecutiveBreaches + 1 >= policy.requiredBreaches
    && s.openKey != Some(KeyOf(policy, sample))
    && CooledDown(policy, s, sample.nowMinute)
  }

  predicate Resolves(policy: Policy, s: AlertState, sample: Sample) {
    && Judge(policy, sample).Recovery?
    && Open(s)
    && s.consecutiveHealthy + 1 >= policy.requiredHealthy
  }

  function NextStatus(policy: Policy, s: AlertState, sample: Sample): Status {
    match Judge(policy, sample)
    case Unknown => if sample.queryError then QueryError else NoData
    case UnderSampled => InsufficientSample
    case Breach => if s.consecutiveBreaches + 1 >= policy.requiredBreaches then Firing else Pending
    case Recovery => if Resolves(policy, s, sample) then Resolved else Healthy
    case Neutral => Healthy
  }

  /** The state after one sample, field by field. */
  function Evaluate(policy: Policy, s: AlertState, sample: Sample): AlertState {
    var verdict := Judge(policy, sample);
    var fires, resolves := Fires(policy, s, sample), Resolves(policy, s, sample);
    AlertState(
      NextStatus(policy, s, sample),
      if verdict.Unknown? then s.consecutiveBreaches else if verdict.Breach? then s.consecutiveBreaches + 1 else 0,
      if verdict.Breach? then 0 else if verdict.Recovery? && Open(s) then s.consecutiveHealthy + 1 else s.consecutiveHealthy,
      if fires then Some(sample.nowMinute) else s.lastNotificationAt,
      if fires then Some(KeyOf(policy, sample)) else if resolves then None else s.openKey,
      if fires then s.notifications + [FiringNote(KeyOf(policy, sample), sample.nowMinute)]
      else if resolves then s.notifications + [ResolvedNote(s.openKey.value, sample.nowMinute)]
      else s.notifications)
  }

  function Run(policy: Policy, samples: seq<Sample>): AlertState {
    if samples == [] then FRESH
    else Evaluate(policy, Run(policy, samples[..|samples| - 1]), samples[|samples| - 1])
  }

  // ----- reading the counters off the trace

  /** Breaches at the end of the trace, ignoring failed queries and missing data. */
  function TrailingBreaches(policy: Policy, samples: seq<Sample>): nat {
    if samples == [] then 0
    else
      var rest := samples[..|samples| - 1];
      match Judge(policy, samples[|samples| - 1])
      case Breach => TrailingBreaches(policy, rest) + 1
      case Unknown => TrailingBreaches(policy, rest)
      case _ => 0
  }

  /** Recoveries since the last breach. */
  function RecoveriesSinceBreach(policy: Policy, samples: seq<Sample>): nat {
    if samples == [] then 0
    else
      var rest := samples[..|samples| - 1];
      match Judge(policy, samples[|samples| - 1])
      case Breach => 0
      case Recovery => RecoveriesSinceBreach(policy, rest) + 1
      case _ => RecoveriesSinceBreach(policy, rest)
  }

  /** The evaluator's counters are functions of the trace; while an incident is open it counts every recovery. */
  lemma {:induction false} CountersReadTrace(policy: Policy, samples: seq<Sample>)
    ensures var s := Run(policy, samples);
            && s.consecutiveBreaches == TrailingBreaches(policy, samples)
            && (Open(s) ==> s.consecutiveHealthy == RecoveriesSinceBreach(policy, samples))
    decreases |samples|
  {
    if samples != [] {
      CountersReadTrace(policy, samples[..|samples| - 1]);
    }
  }

  predicate Interrupts(policy: Policy, sample: Sample) {
    !Judge(policy, sample).Breach? && !Judge(policy, sample).Unknown?
  }

  function CountBreaches(policy: Policy, samples: seq<Sample>): nat {
    if samples == [] then 0
    else CountBreaches(policy, samples[..|samples| - 1]) + (if Judge(policy, samples[|samples| - 1]).Breach? then 1 else 0)
  }

  /** The trailing breaches as a window of the trace that holds no healthy or under-sampled evaluation. */
  lemma {:induction false} TrailingWindow(policy: Policy, samples: seq<Sample>) returns (from: nat)
    ensures from <= |samples|
    ensures forall i :: from <= i < |samples| ==> !Interrupts(policy, samples[i])
    ensures CountBreaches(policy, samples[from..]) == TrailingBreaches(policy, samples)
    ensures from > 0 ==> Interrupts(policy, samples[from - 1])
    decreases |samples|
  {
    if samples == [] {
      from := 0;
    } else {
      var last := |samples| - 1;
      if Interrupts(policy, samples[last]) {
        from := |samples|;
      } else {
        from := TrailingWindow(policy, samples[..last]);
        assert samples[from..][..last - from] == samples[..last][from..];
      }
    }
  }

  // ----- main results

  /** The n-th sample sends a notification of the given kind. */
  ghost predicate FiresAt(policy: Policy, samples: seq<Sample>, n: nat) {
    n < |samples| && Fires(policy, Run(policy, samples[..n]), samples[n])
  }

  ghost predicate ResolvesAt(policy: Policy, samples: seq<Sample>, n: nat) {
    n < |samples| && Resolves(policy, Run(policy, samples[..n]), samples[n])
  }

  /**
   Every firing is earned: it ends a window of the trace that holds at least the required number of
   breaches and nothing else but failed queries and missing data.
   */
  lemma FiringIsEarned(policy: Policy, samples: seq<Sample>, n: nat) returns (from: nat)
    requires FiresAt(policy, samples, n)
    ensures from <= n + 1
    ensures forall i :: from <= i <= n ==> !Interrupts(policy, samples[i])
    ensures CountBreaches(policy, samples[from..n + 1]) >= policy.requiredBreaches
  {
    CountersReadTrace(policy, samples[..n]);
    assert samples[..n + 1][..n] == samples[..n];
    from := TrailingWindow(policy, samples[..n + 1]);
    assert samples[..n + 1][from..] == samples[from..n + 1];
    forall i | from <= i <= n ensures !Interrupts(policy, samples[i]) {
      assert samples[..n + 1][i] == samples[i];
    }
  }

  /** Every resolution is earned: since the last breach there were at least the required recoveries. */
  lemma ResolutionIsEarned(policy: Policy, samples: seq<Sample>, n: nat)
    requires ResolvesAt(policy, samples, n)
    ensures RecoveriesSinceBreach(policy, samples[..n + 1]) >= policy.requiredHealthy
    ensures Judge(policy, samples[n]).Recovery?
  {
    CountersReadTrace(policy, samples[..n]);
    assert samples[..n + 1][..n] == samples[..n];
  }

  function LastFiring(notes: seq<Notification>): Option<int> {
    if notes == [] then None
    else if notes[|notes| - 1].FiringNote? then Some(notes[|notes| - 1].minute)
    else LastFiring(notes[..|notes| - 1])
  }

  ghost predicate CooldownKept(notes: seq<Notification>, minutes: int) {
    forall i, j :: 0 <= i < j < |notes| && notes[i].FiringNote? && notes[j].FiringNote?
                   && (forall k :: i < k < j ==> notes[k].ResolvedNote?) ==>
      notes[j].minute - notes[i].minute >= minutes
  }

  lemma {:induction false} LastFiringIs(notes: seq<Notification>, i: nat)
    requires i < |notes| && notes[i].FiringNote? && forall k :: i < k < |notes| ==> notes[k].ResolvedNote?
    ensures LastFiring(notes) == Some(notes[i].minute)
    decreases |notes|
  {
    if i < |notes| - 1 { LastFiringIs(notes[..|notes| - 1], i); }
  }

  lemma AppendKeepsCooldown(notes: seq<Notification>, note: Notification, minutes: int)
    requires CooldownKept(notes, minutes)
    requires note.FiringNote? ==> LastFiring(notes).None? || note.minute - LastFiring(notes).value >= minutes
    ensures CooldownKept(notes + [note], minutes)
    ensures LastFiring(notes + [note]) == if note.FiringNote? then Some(note.minute) else LastFiring(notes)
  {
    var all := notes + [note];
    assert all[..|notes|] == notes;
    forall i, j | 0 <= i < j < |all| && all[i].FiringNote? && all[j].FiringNote?
                  && (forall k :: i < k < j ==> all[k].ResolvedNote?)
      ensures all[j].minute - all[i].minute >= minutes
    {
      if j == |notes| {
        assert forall k :: i < k < |notes| ==> notes[k] == all[k];
        LastFiringIs(notes, i);
      } else {
        assert notes[i] == all[i] && notes[j] == all[j];
        assert forall k :: i < k < j ==> notes[k] == all[k];
      }
    }
  }

  /** Successive firings are at least the cooldown apart, whatever the keys and the clock. */
  lemma {:induction false} FiringsRespectCooldown(policy: Policy, samples: seq<Sample>)
    ensures CooldownKept(Run(policy, samples).notifications, policy.cooldownMinutes)
    ensures Run(policy, samples).lastNotificationAt == LastFiring(Run(policy, samples).notifications)
    decreases |samples|
  {
    if samples != [] {
      var last := |samples| - 1;
      FiringsRespectCooldown(policy, samples[..last]);
      var s := Run(policy, samples[..last]);
      if Fires(policy, s, samples[last]) {
        AppendKeepsCooldown(s.notifications, FiringNote(KeyOf(policy, samples[last]), samples[last].nowMinute), policy.cooldownMinutes);
      } else if Resolves(policy, s, samples[last]) {
        AppendKeepsCooldown(s.notifications, ResolvedNote(s.openKey.value, samples[last].nowMinute), policy.cooldownMinutes);
      }
    }
  }

  ghost predicate AllFiringsApart(notes: seq<Notification>, minutes: int) {
    forall i, j :: 0 <= i < j < |notes| && notes[i].FiringNote? && notes[j].FiringNote? ==>
      notes[j].minute - notes[i].minute >= minutes
  }

  lemma {:induction false} SuccessiveMeansAll(notes: seq<Notification>, minutes: int, i: nat, j: nat)
    requires CooldownKept(notes, minutes) && minutes >= 0
    requires i < j < |notes| && notes[i].FiringNote? && notes[j].FiringNote?
    ensures notes[j].minute - notes[i].minute >= minutes
    decreases j - i
  {
    if k :| i < k < j && notes[k].FiringNote? {
      SuccessiveMeansAll(notes, minutes, i, k);
      SuccessiveMeansAll(notes, minutes, k, j);
    } else {
      assert forall k :: i < k < j ==> notes[k].ResolvedNote?;
    }
  }

  /** With a cooldown that is not negative, any two firings of a trace are that far apart. */
  lemma AnyTwoFiringsRespectCooldown(policy: Policy, samples: seq<Sample>)
    requires policy.cooldownMinutes >= 0
    ensures AllFiringsApart(Run(policy, samples).notifications, policy.cooldownMinutes)
  {
    FiringsRespectCooldown(policy, samples);
    var notes := Run(policy, samples).notifications;
    forall i, j | 0 <= i < j < |notes| && notes[i].FiringNote? && notes[j].FiringNote?
      ensures notes[j].minute - notes[i].minute >= policy.cooldownMinutes
    {
      SuccessiveMeansAll(notes, policy.cooldownMinutes, i, j);
    }
  }

  ghost predicate Alternates(notes: seq<Notification>, key: string) {
    forall i :: 0 <= i < |notes| ==> notes[i].dedupKey == key && (notes[i].FiringNote? <==> i % 2 == 0)
  }

  /** With one deduplication key the notifications strictly alternate, firing first; with the empty key nothing ever resolves. */
  lemma {:induction false} NotificationsAlternate(policy: Policy, samples: seq<Sample>, key: string)
    requires forall i :: 0 <= i < |samples| ==> KeyOf(policy, samples[i]) == key
    ensures var s := Run(policy, samples);
            && Alternates(s.notifications, key)
            && s.openKey == (if |s.notifications| % 2 == 0 then None else Some(key))
            && (key == "" ==> |s.notifications| <= 1)
    decreases |samples|
  {
    if samples != [] {
      NotificationsAlternate(policy, samples[..|samples| - 1], key);
    }
  }

  /**
   With one key, exactly when the n-th sample fires and when it resolves, read off the trace and the
   notifications sent so far: an incident is open after an odd number of them.
   */
  lemma FiresAndResolvesExactly(policy: Policy, samples: seq<Sample>, n: nat, key: string)
    requires n < |samples| && key != ""
    requires forall i :: 0 <= i <= n ==> KeyOf(policy, samples[i]) == key
    ensures var notes := Run(policy, samples[..n]).notifications; var open := |notes| % 2 == 1; var last := LastFiring(notes);
            && (FiresAt(policy, samples, n) <==>
                  && Judge(policy, samples[n]).Breach? && !open
                  && TrailingBreaches(policy, samples[..n + 1]) >= policy.requiredBreaches
                  && (last.None? || samples[n].nowMinute - last.value >= policy.cooldownMinutes))
            && (ResolvesAt(policy, samples, n) <==>
                  && Judge(policy, samples[n]).Recovery? && open
                  && RecoveriesSinceBreach(policy, samples[..n + 1]) >= policy.requiredHealthy)
  {
    NotificationsAlternate(policy, samples[..n], key);
    FiringsRespectCooldown(policy, samples[..n]);
    CountersReadTrace(policy, samples[..n]);
    assert samples[..n + 1][..n] == samples[..n];
  }

  /** The reported status is a function of the last sample, the trailing breaches and whether a resolution was just sent. */
  lemma StatusReadsTrace(policy: Policy, samples: seq<Sample>)
    requires samples != []
    ensures var status := Run(policy, samples).status; var n := |samples| - 1; var verdict := Judge(policy, samples[n]);
            var enough := TrailingBreaches(policy, samples) >= policy.requiredBreaches;
            && (status.Firing? <==> verdict.Breach? && enough)
            && (status.Pending? <==> verdict.Breach? && !enough)
            && (status.Resolved? <==> ResolvesAt(policy, samples, n))
            && (status.Healthy? <==> (verdict.Recovery? || verdict.Neutral?) && !ResolvesAt(policy, samples, n))
  {
    CountersReadTrace(policy, samples[..|samples| - 1]);
  }

  ghost predicate KindsAlternate(notes: seq<Notification>) {
    forall i :: 0 <= i < |notes| ==> (notes[i].FiringNote? <==> i % 2 == 0)
  }

  /** The n-th sample fires while an incident is still open under another key. */
  ghost predicate SupersedesAt(policy: Policy, samples: seq<Sample>, n: nat) {
    FiresAt(policy, samples, n) && Run(policy, samples[..n]).openKey.Some?
  }

  /** An incident is open after an odd number of notes. */
  ghost predicate OpenIsOdd(s: AlertState) {
    s.openKey.Some? <==> |s.notifications| % 2 == 1
  }

  lemma AppendAlternates(notes: seq<Notification>, note: Notification)
    ensures KindsAlternate(notes + [note]) <==> KindsAlternate(notes) && (note.FiringNote? <==> |notes| % 2 == 0)
  {
    var all := notes + [note];
    assert forall i :: 0 <= i < |notes| ==> all[i] == notes[i];
    assert all[|notes|] == note;
  }

  lemma StepAlternates(policy: Policy, s: AlertState, sample: Sample)
    requires KindsAlternate(s.notifications) ==> OpenIsOdd(s)
    ensures var s' := Evaluate(policy, s, sample);
            && (KindsAlternate(s'.notifications) <==> KindsAlternate(s.notifications) && !(Fires(policy, s, sample) && s.openKey.Some?))
            && (KindsAlternate(s'.notifications) ==> OpenIsOdd(s'))
  {
    if Fires(policy, s, sample) {
      AppendAlternates(s.notifications, FiringNote(KeyOf(policy, sample), sample.nowMinute));
    } else if Resolves(policy, s, sample) {
      AppendAlternates(s.notifications, ResolvedNote(s.openKey.value, sample.nowMinute));
    }
  }

  ghost predicate NeverSupersedes(policy: Policy, samples: seq<Sample>) {
    forall n: nat | n < |samples| :: !SupersedesAt(policy, samples, n)
  }

  lemma SupersedesPrefix(policy: Policy, samples: seq<Sample>, m: nat, n: nat)
    requires n < m <= |samples|
    ensures SupersedesAt(policy, samples[..m], n) <==> SupersedesAt(policy, samples, n)
  {
    assert samples[..m][..n] == samples[..n];
  }

  /**
   For any keys, firings and resolutions strictly alternate, firing first, exactly when no sample fires
   while an incident is open under another key.
   */
  lemma {:induction false} AlternatesExactly(policy: Policy, samples: seq<Sample>)
    ensures var s := Run(policy, samples);
            && (KindsAlternate(s.notifications) <==> NeverSupersedes(policy, samples))
            && (KindsAlternate(s.notifications) ==> OpenIsOdd(s))
    decreases |samples|
  {
    if samples != [] {
      var last := |samples| - 1;
      AlternatesExactly(policy, samples[..last]);
      forall n: nat | n < last
        ensures SupersedesAt(policy, samples[..last], n) <==> SupersedesAt(policy, samples, n)
      {
        SupersedesPrefix(policy, samples, last, n);
      }
      StepAlternates(policy, Run(policy, samples[..last]), samples[last]);
      var now := SupersedesAt(policy, samples, last);
      assert NeverSupersedes(policy, samples) <==> NeverSupersedes(policy, samples[..last]) && !now;
    }
  }

  /** With two keys an incident can indeed be superseded without ever being resolved. */
  lemma TwoKeysNeedNotAlternate() returns (policy: Policy, samples: seq<Sample>)
    ensures Run(policy, samples).notifications == [FiringNote("a", 0), FiringNote("b", 30)]
    ensures SupersedesAt(policy, samples, 1)
  {
    policy := Policy(false, true, 1.0, 0.0, 1, 30, true, 0.0, 1, "");
    var row := Row(None, false, Some(2.0), None, 1.0, false);
    var first, second := Sample(false, false, row, 0, Some("a")), Sample(false, false, row, 30, Some("b"));
    samples := [first, second];
    assert samples[..1] == [first] && samples[..1][..0] == [];
    assert Run(policy, []) == FRESH;
    assert Run(policy, [first]) == Evaluate(policy, FRESH, first);
  }

  // ----- the evaluator object

  class Evaluator {
    var status: Status
    var consecutiveBreaches: nat
    var consecutiveHealthy: nat
    var lastNotificationAt: Option<int>
    var openKey: Option<string>
    var notifications: seq<Notification>

    ghost function View(): AlertState
      reads this
    {
      AlertState(status, consecutiveBreaches, consecutiveHealthy, lastNotificationAt, openKey, notifications)
    }

    constructor ()
      ensures View() == FRESH
    {
      status, consecutiveBreaches, consecutiveHealthy := Healthy, 0, 0;
      lastNotificationAt, openKey, notifications := None, None, [];
    }

    method EvaluateBreach(policy: Policy, dedupKey: string, nowMinute: int) returns (notification: Option<Notification>)
      modifies this
      ensures var before := old(View()); var n := before.consecutiveBreaches + 1;
              var fires := n >= policy.requiredBreaches && before.openKey != Some(dedupKey) && CooledDown(policy, before, nowMinute);
              && notification == (if fires then Some(FiringNote(dedupKey, nowMinute)) else None)
              && View() == before.(
                   status := if n >= policy.requiredBreaches then Firing else Pending,
                   consecutiveBreaches := n,
                   consecutiveHealthy := 0,
                   lastNotificationAt := if fires then Some(nowMinute) else before.lastNotificationAt,
                   openKey := if fires then Some(dedupKey) else before.openKey,
                   notifications := if fires then before.notifications + [FiringNote(dedupKey, nowMinute)] else before.notifications)
    {
      notification := None;
      consecutiveBreaches := consecutiveBreaches + 1;
      consecutiveHealthy := 0;
      var enoughBreaches := consecutiveBreaches >= policy.requiredBreaches;
      var cooldownElapsed := lastNotificationAt.None? || nowMinute - lastNotificationAt.value >= policy.cooldownMinutes;
      if enoughBreaches && openKey != Some(dedupKey) && cooldownElapsed {
        status := Firing;
        openKey := Some(dedupKey);
        lastNotificationAt := Some(nowMinute);
        notification := Some(FiringNote(dedupKey, nowMinute));
        notifications := notifications + [notification.value];
      } else {
        status := if enoughBreaches then Firing else Pending;
      }
    }

    method EvaluatePolicySample(policy: Policy, sample: Sample) returns (notification: Option<Notification>)
      modifies this
      ensures View() == Evaluate(policy, old(View()), sample)
      ensures notifications == if notification.Some? then old(notifications) + [notification.value] else old(notifications)
    {
      notification := None;
      if sample.queryError {
        status := QueryError;
        return;
      }
      if sample.noData {
        status := NoData;
        return;
      }
      if !HasMinimumSample(policy, sample.row) {
        status := InsufficientSample;
        consecutiveBreaches := 0;
        return;
      }
      if Breaches(policy, sample.row) {
        notification := EvaluateBreach(policy, KeyOf(policy, sample), sample.nowMinute);
        return;
      }
      consecutiveBreaches := 0;
      status := Healthy;
      if openKey.Some? && openKey.value != "" && Recovers(policy, sample.row) {
        consecutiveHealthy := consecutiveHealthy + 1;
        if consecutiveHealthy >= policy.requiredHealthy {
          notification := Some(ResolvedNote(openKey.value, sample.nowMinute));
          notifications := notifications + [notification.value];
          status := Resolved;
          openKey := None;
        }
      }
    }
  }
}
