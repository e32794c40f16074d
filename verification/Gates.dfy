/** The resource and power gates (plan.go:643-694 and 793-808) and what they
    decide over a whole run of observations, whatever the clock does. */
module Gates {
  import opened Basics

  // ----- Streaks ----------------------------------------------------------

  // The remembered start of a streak: a clock set back restarts it.
  function Extend(since: Option<int>, now: int): Option<int> {
    if since.None? || now < since.value then Some(now) else since
  }

  // The memory of a streak after k observations, each good or not.
  function Since(good: seq<bool>, times: seq<int>, k: nat): Option<int>
    requires k <= |good| == |times|
  {
    if k == 0 || !good[k - 1] then None
    else Extend(Since(good, times, k - 1), times[k - 1])
  }

  // Observations j to k - 1 are all good.
  ghost predicate Streak(good: seq<bool>, j: nat, k: nat) {
    j < k <= |good| && forall m :: j <= m < k ==> good[m]
  }

  // Some streak that ends with the last of k observations lasts the window.
  ghost predicate Spans(good: seq<bool>, times: seq<int>, k: nat, window: int)
    requires 0 < k <= |good| == |times|
  {
    exists j :: 0 <= j < k && Streak(good, j, k) && times[k - 1] - times[j] >= window
  }

  lemma {:induction false} SinceIsEarliest(good: seq<bool>, times: seq<int>, k: nat)
    requires k <= |good| == |times|
    ensures Since(good, times, k).Some? ==>
              exists j :: 0 <= j < k && Streak(good, j, k) && times[j] == Since(good, times, k).value
    ensures forall j :: 0 <= j < k && Streak(good, j, k) ==>
                          Since(good, times, k).Some? && Since(good, times, k).value <= times[j]
  {
    if k > 0 && good[k - 1] {
      SinceIsEarliest(good, times, k - 1);
      var before := Since(good, times, k - 1);
      forall j | 0 <= j < k && Streak(good, j, k)
        ensures j == k - 1 || Streak(good, j, k - 1)
      {
      }
      assert Streak(good, k - 1, k);
      if before.Some? {
        var j :| 0 <= j < k - 1 && Streak(good, j, k - 1) && times[j] == before.value;
        assert Streak(good, j, k);
      }
    } else if k > 0 {
      forall j | 0 <= j < k
        ensures !Streak(good, j, k)
      {
      }
    }
  }

  lemma SinceSpans(good: seq<bool>, times: seq<int>, k: nat, window: int)
    requires 0 < k <= |good| == |times|
    ensures Spans(good, times, k, window)
       <==> Since(good, times, k).Some? && times[k - 1] - Since(good, times, k).value >= window
  {
    SinceIsEarliest(good, times, k);
  }

  // ----- The resource gate ------------------------------------------------

  datatype Reason = NoReason | Cpu | InvalidObservation

  datatype ResourceGate = ResourceGate(
    blocked: bool, reason: Reason, highSince: Option<int>, healthySince: Option<int>)

  const OPEN := ResourceGate(false, NoReason, None, None)

  // cpu is None for a NaN or infinite reading.
  datatype Resources = Resources(total: nat, available: nat, cpu: Option<real>)
  {
    predicate MemoryValid() {
      total > 0 && available <= total
    }

    predicate Valid() {
      MemoryValid() && cpu.Some? && 0.0 <= cpu.value <= 100.0
    }
  }

  datatype CpuPolicy = CpuPolicy(block: real, resume: real, observation: int, hysteresis: int)

  function EvaluateResourceGate(previous: ResourceGate, seen: Resources, policy: CpuPolicy, now: int)
    : (r: (ResourceGate, bool))
    // Healthy exactly when open.
    ensures r.1 <==> !r.0.blocked
  {
    if !seen.Valid() then
      (ResourceGate(true, InvalidObservation, None, None), false)
    else if previous.blocked && previous.reason.NoReason? then
      // A blocked state without a reason is a legacy one.
      if seen.cpu.value <= policy.resume then (OPEN, true)
      else (ResourceGate(true, Cpu, None, None), false)
    else if !previous.blocked then
      if seen.cpu.value >= policy.block then
        var since := Extend(previous.highSince, now);
        if now - since.value >= policy.observation
        then (ResourceGate(true, Cpu, since, None), false)
        else (ResourceGate(false, NoReason, since, None), true)
      else (ResourceGate(false, NoReason, None, None), true)
    else if seen.cpu.value <= policy.resume then
      var since := Extend(previous.healthySince, now);
      if now - since.value >= policy.hysteresis then (OPEN, true)
      else (ResourceGate(true, previous.reason, None, since), false)
    else (ResourceGate(true, previous.reason, None, None), false)
  }

  datatype Observation = Observation(seen: Resources, now: int)

  function After(policy: CpuPolicy, run: seq<Observation>, k: nat): ResourceGate
    requires k <= |run|
  {
    if k == 0 then OPEN
    else EvaluateResourceGate(After(policy, run, k - 1), run[k - 1].seen, policy, run[k - 1].now).0
  }

  function Times(run: seq<Observation>): seq<int> {
    seq(|run|, i requires 0 <= i < |run| => run[i].now)
  }

  // Valid observations at or above the block threshold, made while open.
  ghost function High(policy: CpuPolicy, run: seq<Observation>): (good: seq<bool>)
    ensures |good| == |run|
  {
    seq(|run|, i requires 0 <= i < |run| =>
      run[i].seen.Valid() && run[i].seen.cpu.value >= policy.block && !After(policy, run, i).blocked)
  }

  // Valid observations at or below the resume threshold, made while blocked.
  ghost function Healthy(policy: CpuPolicy, run: seq<Observation>): (good: seq<bool>)
    ensures |good| == |run|
  {
    seq(|run|, i requires 0 <= i < |run| =>
      run[i].seen.Valid() && run[i].seen.cpu.value <= policy.resume && After(policy, run, i).blocked)
  }

  // What one observation leaves of the memory of both streaks.
  lemma GateStep(previous: ResourceGate, seen: Resources, policy: CpuPolicy, now: int)
    requires previous.blocked <==> !previous.reason.NoReason?
    ensures var gate := EvaluateResourceGate(previous, seen, policy, now).0;
            && (gate.blocked <==> !gate.reason.NoReason?)
            && (!gate.blocked ==>
                  gate.highSince == if seen.Valid() && seen.cpu.value >= policy.block && !previous.blocked
                                    then Extend(previous.highSince, now) else None)
            && (gate.blocked ==>
                  gate.healthySince == if seen.Valid() && seen.cpu.value <= policy.resume && previous.blocked
                                       then Extend(previous.healthySince, now) else None)
  {
  }

  // The gate remembers exactly its current streak, and never blocks unexplained.
  lemma {:induction false} GateRemembers(policy: CpuPolicy, run: seq<Observation>, k: nat)
    requires k <= |run|
    ensures var gate := After(policy, run, k);
            && (gate.blocked <==> !gate.reason.NoReason?)
            && (!gate.blocked ==> gate.highSince == Since(High(policy, run), Times(run), k))
            && (gate.blocked ==> gate.healthySince == Since(Healthy(policy, run), Times(run), k))
  {
    hide EvaluateResourceGate, Extend;
    if k > 0 {
      GateRemembers(policy, run, k - 1);
      GateStep(After(policy, run, k - 1), run[k - 1].seen, policy, run[k - 1].now);
    }
  }

  // An open gate blocks for CPU at observation k exactly when observations at
  // or above the block threshold, made while open, span the window.
  lemma BlocksExactly(policy: CpuPolicy, run: seq<Observation>, k: nat)
    requires k < |run| && !After(policy, run, k).blocked
    ensures var gate := After(policy, run, k + 1);
            (gate.blocked && gate.reason.Cpu?)
              <==> Spans(High(policy, run), Times(run), k + 1, policy.observation)
    ensures After(policy, run, k + 1).reason.InvalidObservation? <==> !run[k].seen.Valid()
  {
    GateRemembers(policy, run, k);
    SinceSpans(High(policy, run), Times(run), k + 1, policy.observation);
  }

  // A blocked gate opens at observation k exactly when observations at or
  // below the resume threshold, made while blocked, span the hysteresis window.
  lemma OpensExactly(policy: CpuPolicy, run: seq<Observation>, k: nat)
    requires k < |run| && After(policy, run, k).blocked
    ensures !After(policy, run, k + 1).blocked
       <==> Spans(Healthy(policy, run), Times(run), k + 1, policy.hysteresis)
  {
    GateRemembers(policy, run, k);
    SinceSpans(Healthy(policy, run), Times(run), k + 1, policy.hysteresis);
  }

  // ----- The power gate ---------------------------------------------------

  datatype PowerPolicy = PowerAlways | AcOnly(stableWindow: int)

  datatype PowerGate = PowerGate(acSince: Option<int>)

  function EvaluatePowerGate(previous: PowerGate, acConnected: bool, policy: PowerPolicy, now: int)
    : (PowerGate, bool)
  {
    if policy.PowerAlways? then (PowerGate(None), true)
    else if !acConnected then (PowerGate(None), false)
    else if previous.acSince.None? || now < previous.acSince.value then (PowerGate(Some(now)), false)
    else (previous, now - previous.acSince.value >= policy.stableWindow)
  }

  function PowerAfter(policy: PowerPolicy, ac: seq<bool>, times: seq<int>, k: nat): (PowerGate, bool)
    requires k <= |ac| == |times|
  {
    if k == 0 then (PowerGate(None), false)
    else EvaluatePowerGate(PowerAfter(policy, ac, times, k - 1).0, ac[k - 1], policy, times[k - 1])
  }

  // Under the AC-only policy work is admitted exactly when mains power has
  // lasted the stability window, which configuration keeps positive.
  lemma {:induction false} AdmitsExactly(policy: PowerPolicy, ac: seq<bool>, times: seq<int>, k: nat)
    requires policy.AcOnly? && policy.stableWindow > 0
    requires 0 < k <= |ac| == |times|
    ensures PowerAfter(policy, ac, times, k).1 <==> Spans(ac, times, k, policy.stableWindow)
    ensures PowerAfter(policy, ac, times, k).0.acSince == Since(ac, times, k)
  {
    if k > 1 { AdmitsExactly(policy, ac, times, k - 1); }
    SinceSpans(ac, times, k, policy.stableWindow);
  }
}
