/** What no plan may do, whatever the input (plan.go:93-516, 705-767): pass a
    pool's own cap, commit memory that is not there, advertise while a gate is
    shut, or take Docker Desktop away from work. */
module PlanSafety {
  import opened Basics
  import opened FleetModel
  import opened Gates
  import opened PlanInputs
  import opened Planner
  import opened PlanLaws
  import opened Departures
  import S = Serving
  import A = Advertising
  import D = Drain

  // ----- No pool passes its own cap ---------------------------------------

  // Work already running may exceed a cap; nothing else does.
  ghost predicate Capped(pools: seq<S.Pool>, values: seq<int>) {
    |values| == |pools| && forall i :: 0 <= i < |pools| ==> values[i] <= Max(pools[i].maxCapacity, pools[i].busy)
  }

  lemma AllocateCapped(p: S.Pool, floorBlocked: bool, a: S.Alloc, i: nat, warm: bool)
    requires a.Sized(|a.desired|) && i < |a.desired| && p.Valid()
    requires a.desired[i] <= Max(p.maxCapacity, p.busy)
    ensures var r := S.Allocate(p, floorBlocked, a, i, S.Request(p, warm));
            r.desired == a.desired[i := r.desired[i]] && r.desired[i] <= Max(p.maxCapacity, p.busy)
  {
  }

  lemma {:induction false} PassCapped(pools: seq<S.Pool>, host: S.Host, warm: bool, a: S.Alloc, k: nat)
    requires a.Sized(|pools|) && k <= |pools| && Capped(pools, a.desired)
    requires forall i :: 0 <= i < |pools| ==> pools[i].Valid()
    ensures Capped(pools, S.Pass(pools, host, warm, a, k).desired)
  {
    hide S.Allocate, S.Request;
    if k > 0 {
      PassCapped(pools, host, warm, a, k - 1);
      if pools[k - 1].ready {
        AllocateCapped(pools[k - 1], host.floorBlocked, S.Pass(pools, host, warm, a, k - 1), k - 1, warm);
      }
    }
  }

  lemma AllocatedCapped(pools: seq<S.Pool>, host: S.Host)
    requires forall i :: 0 <= i < |pools| ==> pools[i].Valid()
    ensures Capped(pools, S.Allocated(pools, host).desired)
  {
    hide S.Pass;
    PassCapped(pools, host, false, S.Initial(pools, host), |pools|);
    PassCapped(pools, host, true, S.Assigned(pools, host), |pools|);
  }

  lemma {:induction false} BurstCapped(pools: seq<S.Pool>, order: seq<nat>, o: A.Offer, k: nat)
    requires k <= |order| && o.Sized(|pools|) && Capped(pools, o.advertised)
    requires forall x :: 0 <= x < |order| ==> order[x] < |pools|
    ensures Capped(pools, A.Burst(pools, order, o, k).advertised)
  {
    if k > 0 { BurstCapped(pools, order, o, k - 1); }
  }

  lemma BurstedCapped(pools: seq<S.Pool>, host: S.Host)
    requires S.ValidFleet(pools, host)
    ensures Capped(pools, A.Bursted(pools, host).advertised)
  {
    hide S.Allocated, A.Burst, A.BurstOrder, S.Balanced;
    var desired := S.Allocated(pools, host).desired;
    var ds := A.Decisions(pools, host, desired);
    AllocatedCapped(pools, host);
    DesiredCoversBusy(pools, host);
    var first := A.FirstOffer(ds, host.limit);
    forall i | 0 <= i < |pools| ensures first.advertised[i] <= Max(pools[i].maxCapacity, pools[i].busy) {
      assert ds[i] == A.Decide(pools[i], host, desired[i]);
    }
    BurstCapped(pools, A.BurstOrder(ds), first, |A.BurstOrder(ds)|);
  }

  lemma DesiredCoversBusy(pools: seq<S.Pool>, host: S.Host)
    requires S.ValidFleet(pools, host)
    ensures forall i :: 0 <= i < |pools| ==> 0 <= pools[i].busy <= S.Allocated(pools, host).desired[i]
  {
    S.AllocatedBalanced(pools, host);
  }

  lemma ServeCapped(p: S.Pool, floorBlocked: bool, s: A.Service, i: nat)
    requires s.Sized(|s.clamped|) && i < |s.clamped|
    requires 0 <= s.memory < TWO_64 && 0 <= s.slots && 0 <= s.budget <= MAX_INT
    requires s.advertised[i] <= Max(p.maxCapacity, p.busy)
    ensures var r := A.Serve(p, floorBlocked, s, i);
            r.advertised == s.advertised[i := r.advertised[i]] && r.advertised[i] <= Max(p.maxCapacity, p.busy)
  {
    hide A.Claim, A.Grant;
    A.ServeEffect(p, floorBlocked, s, i);
    A.ClaimFits(p, floorBlocked, Min(Min(p.maxCapacity - s.advertised[i], s.slots), s.budget),
                Max(p.previous - s.advertised[i], 0), s.memory);
  }

  lemma {:induction false} ServePassCapped(pools: seq<S.Pool>, host: S.Host, advertisable: seq<bool>,
                                           first: A.Service, k: nat)
    requires A.Serviced(pools, host, first, first) && k <= |pools| == |advertisable| && Capped(pools, first.advertised)
    ensures Capped(pools, A.ServePass(pools, host.floorBlocked, advertisable, first, k).advertised)
  {
    hide A.Serve, Sum, Weighted;
    if k > 0 {
      ServePassCapped(pools, host, advertisable, first, k - 1);
      A.ServePassServiced(pools, host, advertisable, first, k - 1);
      var before := A.ServePass(pools, host.floorBlocked, advertisable, first, k - 1);
      if advertisable[k - 1] && before.slots != 0 {
        ServeCapped(pools[k - 1], host.floorBlocked, before, k - 1);
      }
    }
  }

  // No pool is offered more jobs than its cap, or than it already runs.
  lemma AdvertisedCapped(pools: seq<S.Pool>, host: S.Host)
    requires S.ValidFleet(pools, host)
    ensures Capped(pools, A.PlanServing(pools, host).advertised)
    ensures Capped(pools, A.PlanServing(pools, host).desired)
  {
    hide S.Allocated, A.Bursted, A.ServePass, A.Serviced;
    AllocatedCapped(pools, host);
    BurstedCapped(pools, host);
    A.FirstServiced(pools, host);
    ServePassCapped(pools, host, A.Bursted(pools, host).advertisable, A.FirstService(pools, host), |pools|);
  }

  /** Whatever the regime, a plan advertises to a pool at most its configured
      capacity or the workers already busy in it. */
  lemma PlanWithinPool(input: Input, i: nat)
    requires input.Valid() && i < |SortedIds(input)|
    ensures var t := Sorted(input.config.targets)[i];
            Get(BuildPlan(input).advertised, t.id) <= Max(Max(t.maxCapacity, 0), CountIn(input.workers, t.id, AreBusy))
  {
    hide BuildPlan, RegimeOf, ToMap, Select, Sorted, CountIn, A.PlanServing, S.ValidFleet, ServingRemovals, Blank,
         EvaluateMemoryBasis;
    var ids := SortedIds(input);
    PlanRegime(input);
    if Serves(input) {
      ServingViewsValid(input);
      AdvertisedCapped(ServingViews(input), HostView(input));
      SortedIdsDistinct(input);
      ToMapAt(ids, A.PlanServing(ServingViews(input), HostView(input)).advertised, i);
    }
  }

  // ----- Memory committed is memory there ---------------------------------

  function TargetMemories(input: Input): (m: seq<int>)
    ensures |m| == |SortedIds(input)|
  {
    var targets := Sorted(input.config.targets);
    seq(|targets|, i requires 0 <= i < |targets| => targets[i].Memory(input.config.defaultMemory))
  }

  // The memory of the workers a plan starts.
  function StartedMemory(input: Input, plan: Plan): int {
    Weighted(TargetMemories(input), At(SortedIds(input), plan.start))
  }

  // What workers may use in all, where a budget is configured.
  function Budget(input: Input): nat {
    if input.engineMemory > 0 then Min(input.config.memoryBudget, input.engineMemory) else input.config.memoryBudget
  }

  function Floor(input: Input): nat {
    Percent(input.config.minimumAvailablePct, input.resources.total)
  }

  lemma StartedWithinBasis(input: Input)
    requires input.Valid() && (input.config.memoryBudget > 0 || input.resources.MemoryValid())
    ensures StartedMemory(input, BuildPlan(input)) <= EvaluateMemoryBasis(input).remaining
    ensures EvaluateMemoryBasis(input).floorBlocked ==> StartedMemory(input, BuildPlan(input)) == 0
  {
    hide BuildPlan, EvaluateMemoryBasis, Weighted, Draining, ServingPlanOf, SortedIds, TargetMemories;
    PlanStarts(input);
    if Serves(input) {
      ServingStarts(input);
    } else if BuildPlan(input).start == Draining(input).start {
      DrainingStarts(input);
    } else {
      WeightedZero(TargetMemories(input), At(SortedIds(input), BuildPlan(input).start));
    }
  }

  // Where a plan's starts come from.
  lemma PlanStarts(input: Input)
    ensures Serves(input) ==> BuildPlan(input) == ServingPlanOf(input)
    ensures !Serves(input) ==>
              || BuildPlan(input).start == Draining(input).start
              || BuildPlan(input).start == Constant(SortedIds(input), 0)
  {
    hide RegimeOf, ServingPlanOf, ToMap, Select, Sum, D.DrainStarts, D.SafeRemovals, DrainViews, DrainHostView,
         EvaluatePowerGate, EvaluateResourceGate, SortedIds, Constant, Total;
  }

  lemma ServingStarts(input: Input)
    requires input.Valid() && Serves(input)
    ensures StartedMemory(input, BuildPlan(input)) <= EvaluateMemoryBasis(input).remaining
    ensures EvaluateMemoryBasis(input).floorBlocked ==> StartedMemory(input, BuildPlan(input)) == 0
  {
    hide BuildPlan, EvaluateMemoryBasis, Weighted, Serves, Sorted, TargetMemories, A.ServiceSlots, A.PlanServing,
         S.ValidFleet, HostView, Total, S.Memories;
    PlanConserves(input);
    var pools, host := ServingViews(input), HostView(input);
    ServingViewsValid(input);
    A.MemoryConserved(pools, host);
    SameMemories(input);
    MemoriesNonNegative(pools);
    WeightedNonNegative(S.Memories(pools), A.ServiceSlots(pools, host));
    if EvaluateMemoryBasis(input).floorBlocked {
      WeightedZero(TargetMemories(input), At(SortedIds(input), BuildPlan(input).start));
    }
  }

  lemma SameMemories(input: Input)
    ensures TargetMemories(input) == S.Memories(ServingViews(input))
  {
    hide Sorted, Select;
  }

  lemma MemoriesNonNegative(pools: seq<S.Pool>)
    ensures |S.Memories(pools)| == |pools| && forall i :: 0 <= i < |pools| ==> 0 <= S.Memories(pools)[i]
  {
  }

  lemma DrainingStarts(input: Input)
    requires input.Valid() && (input.config.memoryBudget > 0 || input.resources.MemoryValid())
    ensures StartedMemory(input, Draining(input)) <= EvaluateMemoryBasis(input).remaining
    ensures EvaluateMemoryBasis(input).floorBlocked ==> StartedMemory(input, Draining(input)) == 0
  {
    hide Weighted, Sorted, Draining, Sum, Select;
    PlanDrains(input);
    assert TargetMemories(input) == D.DrainMemories(DrainViews(input, Sorted(input.config.targets)));
    if EvaluateMemoryBasis(input).floorBlocked {
      FloorStopsDrainStarts(input);
      WeightedZero(TargetMemories(input), At(SortedIds(input), Draining(input).start));
    }
  }

  lemma FloorStopsDrainStarts(input: Input)
    requires input.Valid() && EvaluateMemoryBasis(input).floorBlocked
    ensures forall i :: 0 <= i < |SortedIds(input)| ==> At(SortedIds(input), Draining(input).start)[i] == 0
  {
    hide Sorted, Select, ToMap, D.DrainPass, D.DrainDesires, D.SafeRemovals, Blank, Sum, EvaluateMemoryBasis;
    var ids, pools, host := SortedIds(input), DrainViews(input, Sorted(input.config.targets)), DrainHostView(input);
    SortedIdsDistinct(input);
    forall i | 0 <= i < |ids| ensures At(ids, Draining(input).start)[i] == 0 {
      ToMapAt(ids, D.DrainStarts(pools, host), i);
      D.DrainStartAt(pools, host, i, |pools|);
    }
  }

  lemma {:induction false} WeightedNonNegative(w: seq<int>, s: seq<int>)
    requires |w| == |s| && forall i :: 0 <= i < |s| ==> 0 <= w[i] && 0 <= s[i]
    ensures 0 <= Weighted(w, s)
  {
    if s != [] {
      var n := |s| - 1;
      WeightedNonNegative(w[..n], s[..n]);
      assert 0 <= s[n] * w[n];
    }
  }

  /** With a worker-memory budget, what active workers reserve plus what the
      plan starts never passes the budget, itself at most the engine's memory,
      unless the reservations alone do; and nothing starts while the host is at
      its memory floor. */
  lemma StartsWithinBudget(input: Input)
    requires input.Valid() && input.config.memoryBudget > 0
    ensures var reserved := Reservations(input.config, input.workers);
            var started := StartedMemory(input, BuildPlan(input));
            && reserved + started <= Max(Budget(input), reserved)
            && (input.resources.MemoryValid() && input.resources.available <= Floor(input) ==> started == 0)
  {
    hide BuildPlan, Weighted, Reservations, Percent, StartedMemory;
    StartedWithinBasis(input);
  }

  /** Without one, the memory of started workers comes out of what the host has
      above its floor. */
  lemma StartsAboveFloor(input: Input)
    requires input.Valid() && input.config.memoryBudget == 0 && input.resources.MemoryValid()
    ensures var started := StartedMemory(input, BuildPlan(input));
            started <= 0 || started + Floor(input) <= input.resources.available
  {
    hide BuildPlan, Weighted, Percent, StartedMemory;
    StartedWithinBasis(input);
  }

  // ----- Gates ------------------------------------------------------------

  lemma AdvertisesOnlyServing(input: Input, pool: PoolId)
    ensures 0 < Get(BuildPlan(input).advertised, pool) ==> Serves(input)
  {
    hide BuildPlan, Serves, SortedIds;
    PlanRegime(input);
  }

  /** Over any history of observations, a plan advertises capacity only if the
      last observation is valid and either the CPU gate was open and no streak
      of high readings spans the observation window, or it was blocked and a
      streak of healthy ones spans the hysteresis window. */
  lemma AdvertisesOnlyWithCpu(input: Input, run: seq<Observation>, k: nat, pool: PoolId)
    requires k < |run| && run[k] == Observation(input.resources, input.now)
    requires input.resourceGate == After(input.config.cpu, run, k)
    ensures 0 < Get(BuildPlan(input).advertised, pool) ==>
              && run[k].seen.Valid()
              && if After(input.config.cpu, run, k).blocked
                 then Spans(Healthy(input.config.cpu, run), Times(run), k + 1, input.config.cpu.hysteresis)
                 else !Spans(High(input.config.cpu, run), Times(run), k + 1, input.config.cpu.observation)
  {
    hide BuildPlan, Spans, High, Healthy, HostLimit;
    AdvertisesOnlyServing(input, pool);
    var policy := input.config.cpu;
    if Serves(input) {
      assert !After(policy, run, k + 1).blocked;
      if After(policy, run, k).blocked {
        OpensExactly(policy, run, k);
      } else {
        BlocksExactly(policy, run, k);
      }
      ValidWhenOpen(input.resourceGate, input.resources, policy, input.now);
    }
  }

  lemma ValidWhenOpen(previous: ResourceGate, seen: Resources, policy: CpuPolicy, now: int)
    requires EvaluateResourceGate(previous, seen, policy, now).1
    ensures seen.Valid()
  {
  }

  /** Under the AC-only policy, only once mains power has lasted its window. */
  lemma AdvertisesOnlyOnStablePower(input: Input, ac: seq<bool>, times: seq<int>, k: nat, pool: PoolId)
    requires 0 < k <= |ac| == |times| && ac[k - 1] == input.acConnected && times[k - 1] == input.now
    requires input.config.power.AcOnly? && input.config.power.stableWindow > 0
    requires input.powerGate == PowerAfter(input.config.power, ac, times, k - 1).0
    ensures 0 < Get(BuildPlan(input).advertised, pool) ==> Spans(ac, times, k, input.config.power.stableWindow)
  {
    hide BuildPlan, Spans, HostLimit, EvaluatePowerGate, EvaluateResourceGate;
    AdvertisesOnlyServing(input, pool);
    AdmitsExactly(input.config.power, ac, times, k);
  }

  // ----- Docker Desktop ---------------------------------------------------

  lemma ServingStopsNothing(input: Input)
    requires Serves(input)
    ensures !ServingPlanOf(input).stopDesktop && !ServingPlanOf(input).shutdownWSL
  {
    hide RegimeOf, A.PlanServing, ToMap, ServingRemovals, Orphans, EvaluatePowerGate, EvaluateResourceGate;
  }

  /** Docker Desktop and WSL are taken down only for gaming, and only when no
      worker is busy, no assigned job is unaccounted for and nothing is being
      started, Docker Desktop included. */
  lemma StopsDesktopOnlyIdle(input: Input)
    requires input.Valid()
    ensures BuildPlan(input).stopDesktop || BuildPlan(input).shutdownWSL ==>
              && input.mode.Gaming? && Select(input.workers, AreBusy) == []
              && (forall id :: id in input.pools ==> Uncovered(input, id) == 0)
              && Total(SortedIds(input), BuildPlan(input).start) <= 0 && !BuildPlan(input).startDesktop
  {
    hide ToMap, Select, Sorted, Constant, D.SafeRemovals, D.DrainStarts, DrainViews, DrainHostView, Uncovered,
         ServingPlanOf, EvaluatePowerGate, EvaluateResourceGate, Sum, Total, SortedIds, Orphans;
    if Serves(input) { ServingStopsNothing(input); }
    var starts := D.DrainStarts(DrainViews(input, Sorted(input.config.targets)), DrainHostView(input));
    SortedIdsDistinct(input);
    ToMapTotal(SortedIds(input), starts);
  }
}
