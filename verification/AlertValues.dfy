/** When notes are sent, in measured values, thresholds and the notes sent before. */
module AlertValues {
  import opened Wrappers
  import opened AlertPolicy

  // ----- one sample

  ghost predicate Answered(sample: Sample) {
    !sample.queryError && !sample.noData
  }

  ghost predicate Sampled(policy: Policy, row: Row) {
    if policy.isFreshness then row.lastEventKnown || row.ageMinutes.Some? else row.sampleSize >= policy.sampleMinimum
  }

  ghost predicate Measures(policy: Policy, row: Row, value: real) {
    if policy.isFreshness then row.ageMinutes == Some(value)
    else row.metric == Some(value) || (row.metric.None? && row.p75 == Some(value))
  }

  /** An answered and sufficient sample above the threshold. */
  ghost predicate Exceeds(policy: Policy, sample: Sample) {
    && Answered(sample) && Sampled(policy, sample.row) && policy.directionAbove
    && exists value :: Measures(policy, sample.row, value) && value > policy.threshold
  }

  /** One that does not exceed, and is back at the recovery value, or in the company window where there is none. */
  ghost predicate Recovered(policy: Policy, sample: Sample) {
    && Answered(sample) && Sampled(policy, sample.row) && !Exceeds(policy, sample)
    && exists value :: Measures(policy, sample.row, value) &&
         if policy.recoveryBelowOrEqual then value <= policy.recoveryValue else sample.row.observedWithinWindow
  }

  lemma JudgeMeans(policy: Policy, sample: Sample)
    ensures Judge(policy, sample).Unknown? <==> !Answered(sample)
    ensures Judge(policy, sample).UnderSampled? <==> Answered(sample) && !Sampled(policy, sample.row)
    ensures Judge(policy, sample).Breach? <==> Exceeds(policy, sample)
    ensures Judge(policy, sample).Recovery? <==> Recovered(policy, sample)
  {
    var value := MeasuredValue(policy, sample.row);
    if value.Some? { assert Measures(policy, sample.row, value.value); }
  }

  ghost predicate HasKey(policy: Policy, sample: Sample, key: string) {
    sample.dedupKey == Some(key) || (sample.dedupKey.None? && policy.deduplicationKey == key)
  }

  // ----- windows of a trace

  ghost function Exceedings(policy: Policy, samples: seq<Sample>): nat {
    if samples == [] then 0
    else Exceedings(policy, samples[..|samples| - 1]) + (if Exceeds(policy, samples[|samples| - 1]) then 1 else 0)
  }

  ghost function Recoveries(policy: Policy, samples: seq<Sample>): nat {
    if samples == [] then 0
    else Recoveries(policy, samples[..|samples| - 1]) + (if Recovered(policy, samples[|samples| - 1]) then 1 else 0)
  }

  /** From some sample on, the required number exceeds and all others are unanswered. */
  ghost predicate Breached(policy: Policy, samples: seq<Sample>, from: nat) {
    && from <= |samples|
    && Exceedings(policy, samples[from..]) >= policy.requiredBreaches
    && forall i :: from <= i < |samples| ==> Exceeds(policy, samples[i]) || !Answered(samples[i])
  }

  /** From some sample on, the required number has recovered and none exceeds. */
  ghost predicate Healed(policy: Policy, samples: seq<Sample>, from: nat) {
    && from <= |samples|
    && Recoveries(policy, samples[from..]) >= policy.requiredHealthy
    && forall i :: from <= i < |samples| ==> !Exceeds(policy, samples[i])
  }

  ghost predicate LongBreached(policy: Policy, samples: seq<Sample>) {
    exists from :: Breached(policy, samples, from)
  }

  ghost predicate LongHealed(policy: Policy, samples: seq<Sample>) {
    exists from :: Healed(policy, samples, from)
  }

  lemma {:induction false} CountsAgree(policy: Policy, samples: seq<Sample>)
    ensures CountBreaches(policy, samples) == Exceedings(policy, samples)
    decreases |samples|
  {
    if samples != [] {
      CountsAgree(policy, samples[..|samples| - 1]);
      JudgeMeans(policy, samples[|samples| - 1]);
    }
  }

  /** Any such window lies within the trailing breaches. */
  lemma {:induction false} WindowInTrailing(policy: Policy, samples: seq<Sample>, from: nat)
    requires from <= |samples|
    requires forall i :: from <= i < |samples| ==> Exceeds(policy, samples[i]) || !Answered(samples[i])
    ensures Exceedings(policy, samples[from..]) <= TrailingBreaches(policy, samples)
    decreases |samples|
  {
    if from < |samples| {
      var last := |samples| - 1;
      JudgeMeans(policy, samples[last]);
      WindowInTrailing(policy, samples[..last], from);
      assert samples[from..][..last - from] == samples[..last][from..];
    } else {
      assert samples[from..] == [];
    }
  }

  lemma TrailingMeans(policy: Policy, samples: seq<Sample>)
    ensures TrailingBreaches(policy, samples) >= policy.requiredBreaches <==> LongBreached(policy, samples)
  {
    if TrailingBreaches(policy, samples) >= policy.requiredBreaches {
      var from := TrailingWindow(policy, samples);
      CountsAgree(policy, samples[from..]);
      forall i | from <= i < |samples| ensures Exceeds(policy, samples[i]) || !Answered(samples[i]) {
        JudgeMeans(policy, samples[i]);
      }
      assert Breached(policy, samples, from);
    }
    if from :| Breached(policy, samples, from) { WindowInTrailing(policy, samples, from); }
  }

  lemma {:induction false} HealingWindow(policy: Policy, samples: seq<Sample>) returns (from: nat)
    ensures from <= |samples| && Recoveries(policy, samples[from..]) == RecoveriesSinceBreach(policy, samples)
    ensures forall i :: from <= i < |samples| ==> !Exceeds(policy, samples[i])
    decreases |samples|
  {
    if samples == [] {
      from := 0;
    } else {
      var last := |samples| - 1;
      JudgeMeans(policy, samples[last]);
      if Exceeds(policy, samples[last]) {
        from := |samples|;
      } else {
        from := HealingWindow(policy, samples[..last]);
        assert samples[from..][..last - from] == samples[..last][from..];
      }
    }
  }

  lemma {:induction false} WindowInRecoveries(policy: Policy, samples: seq<Sample>, from: nat)
    requires from <= |samples| && forall i :: from <= i < |samples| ==> !Exceeds(policy, samples[i])
    ensures Recoveries(policy, samples[from..]) <= RecoveriesSinceBreach(policy, samples)
    decreases |samples|
  {
    if from < |samples| {
      var last := |samples| - 1;
      JudgeMeans(policy, samples[last]);
      WindowInRecoveries(policy, samples[..last], from);
      assert samples[from..][..last - from] == samples[..last][from..];
    } else {
      assert samples[from..] == [];
    }
  }

  lemma RecoveriesMean(policy: Policy, samples: seq<Sample>)
    ensures RecoveriesSinceBreach(policy, samples) >= policy.requiredHealthy <==> LongHealed(policy, samples)
  {
    if RecoveriesSinceBreach(policy, samples) >= policy.requiredHealthy {
      var from := HealingWindow(policy, samples);
      assert Healed(policy, samples, from);
    }
    if from :| Healed(policy, samples, from) { WindowInRecoveries(policy, samples, from); }
  }

  // ----- notes

  /** The incident that the notes leave open: that of the last one, if it is a firing. */
  ghost function OpenIncident(notes: seq<Notification>): Option<string> {
    if notes == [] || notes[|notes| - 1].ResolvedNote? then None else Some(notes[|notes| - 1].dedupKey)
  }

  lemma {:induction false} OpenKeyReadsNotes(policy: Policy, samples: seq<Sample>)
    ensures Run(policy, samples).openKey == OpenIncident(Run(policy, samples).notifications)
    decreases |samples|
  {
    if samples != [] { OpenKeyReadsNotes(policy, samples[..|samples| - 1]); }
  }

  /** Firing is due: enough exceeding samples, no incident open under this key, and the last firing long enough ago. */
  ghost predicate FiringDue(policy: Policy, samples: seq<Sample>, n: nat, notes: seq<Notification>, key: string)
    requires n < |samples|
  {
    && Exceeds(policy, samples[n])
    && LongBreached(policy, samples[..n + 1])
    && OpenIncident(notes) != Some(key)
    && (LastFiring(notes).None? || samples[n].nowMinute - LastFiring(notes).value >= policy.cooldownMinutes)
  }

  /** Resolving is due: an incident with a key is open, and enough samples recovered since the last one that exceeds. */
  ghost predicate ResolvingDue(policy: Policy, samples: seq<Sample>, n: nat, notes: seq<Notification>)
    requires n < |samples|
  {
    && Recovered(policy, samples[n])
    && LongHealed(policy, samples[..n + 1])
    && OpenIncident(notes).Some? && OpenIncident(notes).value != ""
  }

  lemma FiresMeans(policy: Policy, samples: seq<Sample>, n: nat, key: string)
    requires n < |samples| && HasKey(policy, samples[n], key)
    ensures FiresAt(policy, samples, n) <==> FiringDue(policy, samples, n, Run(policy, samples[..n]).notifications, key)
  {
    JudgeMeans(policy, samples[n]);
    CountersReadTrace(policy, samples[..n]);
    OpenKeyReadsNotes(policy, samples[..n]);
    FiringsRespectCooldown(policy, samples[..n]);
    TrailingMeans(policy, samples[..n + 1]);
    assert samples[..n + 1][..n] == samples[..n];
  }

  lemma ResolvesMeans(policy: Policy, samples: seq<Sample>, n: nat)
    requires n < |samples|
    ensures ResolvesAt(policy, samples, n) <==> ResolvingDue(policy, samples, n, Run(policy, samples[..n]).notifications)
  {
    JudgeMeans(policy, samples[n]);
    CountersReadTrace(policy, samples[..n]);
    OpenKeyReadsNotes(policy, samples[..n]);
    RecoveriesMean(policy, samples[..n + 1]);
    assert samples[..n + 1][..n] == samples[..n];
  }

  /**
   For every trace, whatever its keys, the n-th sample sends exactly the note that is due by the values measured and the
   notes sent so far, and none otherwise.
   */
  lemma NotesExactly(policy: Policy, samples: seq<Sample>, n: nat, key: string)
    requires n < |samples| && HasKey(policy, samples[n], key)
    ensures var notes := Run(policy, samples[..n]).notifications;
            Run(policy, samples[..n + 1]).notifications ==
              if FiringDue(policy, samples, n, notes, key) then notes + [FiringNote(key, samples[n].nowMinute)]
              else if ResolvingDue(policy, samples, n, notes)
                then notes + [ResolvedNote(OpenIncident(notes).value, samples[n].nowMinute)]
              else notes
  {
    FiresMeans(policy, samples, n, key);
    ResolvesMeans(policy, samples, n);
    OpenKeyReadsNotes(policy, samples[..n]);
    assert samples[..n + 1][..n] == samples[..n];
  }

  /** What is reported for an unanswered or insufficient sample. */
  lemma UnansweredStatus(policy: Policy, samples: seq<Sample>)
    requires samples != []
    ensures var sample, status := samples[|samples| - 1], Run(policy, samples).status;
            && (status.QueryError? <==> sample.queryError)
            && (status.NoData? <==> sample.noData && !sample.queryError)
            && (status.InsufficientSample? <==> Answered(sample) && !Sampled(policy, sample.row))
  {
    JudgeMeans(policy, samples[|samples| - 1]);
  }
}
