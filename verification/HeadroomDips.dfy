/** A whole plan after a dip in memory headroom (plan.go:319-502, 705-721): it
    comes out the same exactly when the dip is within the headroom it left. */
module HeadroomDips {
  import opened Basics
  import opened Memory
  import opened FleetModel
  import opened Gates
  import opened PlanInputs
  import opened Planner
  import opened PlanLaws
  import opened Departures
  import S = Serving
  import A = Advertising
  import L = ServingLaws

  // ----- The allocation passes --------------------------------------------

  // An allocation that leaves the dip over comes out the same, cut short by
  // memory or not.
  lemma AllocateDips(p: S.Pool, floorBlocked: bool, a: S.Alloc, i: nat, requested: int, dip: nat)
    requires a.Sized(|a.desired|) && i < |a.desired|
    requires 0 <= a.memory < TWO_64 && 0 <= a.remaining <= MAX_INT && 0 <= a.counted[i] <= p.nonbusy
    requires dip <= S.Allocate(p, floorBlocked, a, i, requested).memory
    ensures var r := S.Allocate(p, floorBlocked, a, i, requested);
            S.Allocate(p, floorBlocked, a.(memory := a.memory - dip), i, requested) == r.(memory := r.memory - dip)
    ensures S.Allocate(p, floorBlocked, a, i, requested).memory <= a.memory
  {
    hide Affordable, Wrap64;
    if a.desired[i] < requested {
      var need := requested - a.desired[i];
      var existing := Min(need, Min(p.nonbusy - a.counted[i], a.remaining));
      var prospective := Min(need - existing, a.remaining - existing);
      var starts := Min(prospective, if floorBlocked then 0 else Affordable(a.memory, p.memory));
      S.StartsFit(a.memory, p.memory, starts);
      assert S.Allocate(p, floorBlocked, a, i, requested).memory == a.memory - starts * p.memory;
      if !floorBlocked { StillAfforded(a.memory, p.memory, starts, dip); }
      S.StartsFit(a.memory - dip, p.memory, starts);
    }
  }

  // What still fits after the dip is still afforded, and nothing more is.
  lemma StillAfforded(memory: int, worker: nat, starts: int, dip: nat)
    requires 0 <= memory < TWO_64 && 0 <= starts <= Affordable(memory, worker)
    requires dip <= memory - starts * worker
    ensures dip <= memory && starts <= Affordable(memory - dip, worker) <= Affordable(memory, worker)
  {
    ScaleMonotone(0, starts, worker);
    if 0 < worker {
      AffordsIffFits(memory - dip, worker, starts);
      AffordsIffFits(memory, worker, Affordable(memory - dip, worker));
    }
  }

  lemma {:induction false} PassDips(pools: seq<S.Pool>, host: S.Host, low: S.Host, warm: bool, a: S.Alloc, dip: nat,
                                    k: nat)
    requires a.Sized(|pools|) && S.Balanced(pools, host, a) && k <= |pools| && low.floorBlocked == host.floorBlocked
    requires dip <= S.Pass(pools, host, warm, a, k).memory
    ensures var r := S.Pass(pools, host, warm, a, k);
            S.Pass(pools, low, warm, a.(memory := a.memory - dip), k) == r.(memory := r.memory - dip)
    ensures dip <= a.memory
  {
    hide S.Allocate, S.Request, Sum, Weighted;
    if k > 0 {
      var before, p := S.Pass(pools, host, warm, a, k - 1), pools[k - 1];
      S.PassBalanced(pools, host, warm, a, k - 1);
      if p.ready { AllocateDips(p, host.floorBlocked, before, k - 1, S.Request(p, warm), dip); }
      PassDips(pools, host, low, warm, a, dip, k - 1);
    }
  }

  lemma AllocatedDips(pools: seq<S.Pool>, host: S.Host, low: S.Host, dip: nat)
    requires S.ValidFleet(pools, host) && dip <= S.Allocated(pools, host).memory
    requires dip <= host.memory && low == host.(memory := host.memory - dip)
    ensures var a := S.Allocated(pools, host);
            S.Allocated(pools, low) == a.(memory := a.memory - dip)
  {
    hide S.Balanced, S.Pass;
    S.InitialBalanced(pools, host);
    S.PassBalanced(pools, host, false, S.Initial(pools, host), |pools|);
    PassDips(pools, host, low, true, S.Assigned(pools, host), dip, |pools|);
    PassDips(pools, host, low, false, S.Initial(pools, host), dip, |pools|);
  }

  // ----- The serving plan -------------------------------------------------

  lemma FirstServiceDips(pools: seq<S.Pool>, host: S.Host, low: S.Host, dip: nat)
    requires S.ValidFleet(pools, host) && dip <= S.Allocated(pools, host).memory
    requires dip <= host.memory && low == host.(memory := host.memory - dip)
    ensures var first := A.FirstService(pools, host);
            && A.FirstService(pools, low) == first.(memory := first.memory - dip)
            && A.Bursted(pools, low) == A.Bursted(pools, host) && dip <= first.memory
    ensures var desired := S.Allocated(pools, host).desired;
            A.Decisions(pools, low, desired) == A.Decisions(pools, host, desired)
  {
    hide S.Allocated, A.Burst, A.BurstOrder, A.FirstOffer, Sum;
    AllocatedDips(pools, host, low, dip);
    var desired := S.Allocated(pools, host).desired;
    forall i | 0 <= i < |pools| ensures A.Decide(pools[i], low, desired[i]) == A.Decide(pools[i], host, desired[i]) {
    }
    assert A.Decisions(pools, low, desired) == A.Decisions(pools, host, desired);
  }

  // The headroom the plan leaves after serving its first k pools.
  ghost function LeftAfter(pools: seq<S.Pool>, host: S.Host, k: nat): int
    requires k <= |pools|
  {
    var first := A.FirstService(pools, host);
    if host.Debt() then first.memory
    else A.ServePass(pools, host.floorBlocked, A.Bursted(pools, host).advertisable, first, k).memory
  }

  lemma LeftAfterFits(pools: seq<S.Pool>, host: S.Host, k: nat)
    requires S.ValidFleet(pools, host) && k <= |pools|
    ensures LeftAfter(pools, host, k) <= S.Allocated(pools, host).memory
    ensures LeftAfter(pools, host, |pools|) == A.PlanServing(pools, host).headroom
  {
    hide S.Allocated, A.Bursted, A.ServePass, Sum, Weighted;
    A.FirstServiced(pools, host);
    A.ServePassServiced(pools, host, A.Bursted(pools, host).advertisable, A.FirstService(pools, host), k);
  }

  // A pool that gained a slot by growth leaves at least its margin over, so a
  // dip of at most the margin withdraws nothing from it or the pools before it.
  lemma GrowthLeavesMargin(pools: seq<S.Pool>, host: S.Host, k: nat)
    requires S.ValidFleet(pools, host) && !host.Debt() && 0 < k <= |pools|
    requires L.GrewAt(pools, host.floorBlocked, A.Bursted(pools, host).advertisable, A.FirstService(pools, host), k)
    ensures pools[k - 1].margin <= LeftAfter(pools, host, k)
  {
    hide S.ValidFleet, A.Bursted, A.FirstService, A.Serviced, A.Serve, L.Rebased, L.GrewAt;
    A.FirstServiced(pools, host);
    L.GrownPassSurvives(pools, host, A.Bursted(pools, host).advertisable, A.FirstService(pools, host),
                        pools[k - 1].margin, k);
  }

  /** Planning again from the plan's own capacity, after a dip within what the
      first k pools leave over: starts and removals are the same, and those pools
      keep their capacity. */
  lemma ServingSurvivesDip(pools: seq<S.Pool>, host: S.Host, low: S.Host, dip: nat, k: nat)
    requires S.ValidFleet(pools, host) && k <= |pools| && dip <= LeftAfter(pools, host, k)
    requires dip <= host.memory && low == host.(memory := host.memory - dip)
    ensures dip <= S.Allocated(pools, host).memory
    ensures var plan := A.PlanServing(pools, host);
            var again := A.PlanServing(L.Rebased(pools, plan.advertised), low);
            && again.desired == plan.desired && again.start == plan.start && again.drop == plan.drop
            && (forall i :: 0 <= i < k ==> again.advertised[i] == plan.advertised[i])
            && (k == |pools| ==> again == plan.(headroom := plan.headroom - dip))
  {
    hide S.Allocated, A.Bursted, A.FirstService, A.ServePass, A.Decisions, A.Serviced, L.Rebased, S.ValidFleet;
    var plan := A.PlanServing(pools, host);
    LeftAfterFits(pools, host, k);
    AllocatedDips(pools, host, low, dip);
    FirstServiceDips(pools, host, low, dip);
    L.RebasedAllocates(pools, low, plan.advertised);
    L.RebasedOffers(pools, low, plan.advertised);
    if !host.Debt() {
      A.FirstServiced(pools, host);
      L.PassSurvivesDip(pools, host, A.Bursted(pools, host).advertisable, A.FirstService(pools, host), dip, k);
    }
  }

  /** The whole serving plan comes out the same, but for the dip, exactly when
      the dip is within the headroom the plan left over. */
  lemma ServingDipsExactly(pools: seq<S.Pool>, host: S.Host, low: S.Host, dip: nat)
    requires S.ValidFleet(pools, host)
    requires dip <= host.memory && low == host.(memory := host.memory - dip)
    ensures var plan := A.PlanServing(pools, host);
            (A.PlanServing(L.Rebased(pools, plan.advertised), low) == plan.(headroom := plan.headroom - dip))
              <==> dip <= plan.headroom
  {
    hide S.ValidFleet, A.PlanServing, LeftAfter, L.Rebased;
    var plan := A.PlanServing(pools, host);
    LeftAfterFits(pools, host, |pools|);
    if dip <= plan.headroom {
      ServingSurvivesDip(pools, host, low, dip, |pools|);
    }
    RebasedValid(pools, host, low, plan.advertised);
    A.PlanServiced(L.Rebased(pools, plan.advertised), low);
  }

  lemma RebasedValid(pools: seq<S.Pool>, host: S.Host, low: S.Host, baseline: seq<int>)
    requires S.ValidFleet(pools, host) && |baseline| == |pools|
    requires low.memory <= host.memory && low == host.(memory := low.memory)
    ensures S.ValidFleet(L.Rebased(pools, baseline), low)
  {
    hide Sum;
    var rebased := L.Rebased(pools, baseline);
    assert S.Busies(rebased) == S.Busies(pools) && S.Actives(rebased) == S.Actives(pools);
  }

  // ----- The whole plan ---------------------------------------------------

  // The same input with a given hysteresis baseline and other memory readings,
  // which leave the gates and the floor as they were and the headroom lower by
  // the dip.
  ghost predicate Dipped(input: Input, later: Input, baseline: map<PoolId, int>, dip: nat) {
    && later == Rehearsed(input, baseline).(resources := later.resources, engineMemory := later.engineMemory)
    && dip <= EvaluateMemoryBasis(input).remaining
    && EvaluateMemoryBasis(later)
         == EvaluateMemoryBasis(input).(remaining := EvaluateMemoryBasis(input).remaining - dip)
    && EvaluateResourceGate(later.resourceGate, later.resources, later.config.cpu, later.now)
         == EvaluateResourceGate(input.resourceGate, input.resources, input.config.cpu, input.now)
  }

  lemma DippedViews(input: Input, later: Input, values: seq<int>, dip: nat)
    requires input.Valid() && Serves(input) && |values| == |SortedIds(input)|
    requires Dipped(input, later, ToMap(SortedIds(input), values), dip)
    ensures Serves(later) && SortedIds(later) == SortedIds(input) && Blank(later) == Blank(input)
    ensures ServingViews(later) == L.Rebased(ServingViews(input), values)
    ensures HostView(later) == HostView(input).(memory := HostView(input).memory - dip)
  {
    hide Dipped, SortedIds, HostView, Blank, RegimeOf, ToMap, ServingViews, L.Rebased;
    var baseline := ToMap(SortedIds(input), values);
    RehearsedViews(input, values);
    DippedIs(input, later, baseline, dip);
    SameViews(Rehearsed(input, baseline), later);
    DippedRegime(input, later, baseline, dip);
    DippedHost(input, later, baseline, dip);
  }

  lemma ServingAdvertised(input: Input)
    requires Serves(input)
    ensures ServingPlanOf(input).advertised
         == ToMap(SortedIds(input), A.PlanServing(ServingViews(input), HostView(input)).advertised)
  {
    hide A.PlanServing, ToMap, ServingRemovals, Blank, RegimeOf;
  }

  lemma DippedIs(input: Input, later: Input, baseline: map<PoolId, int>, dip: nat)
    requires Dipped(input, later, baseline, dip)
    ensures later == Rehearsed(input, baseline).(resources := later.resources, engineMemory := later.engineMemory)
  {
    hide EvaluateMemoryBasis, EvaluateResourceGate;
  }

  lemma DippedRegime(input: Input, later: Input, baseline: map<PoolId, int>, dip: nat)
    requires Dipped(input, later, baseline, dip) && Serves(input)
    ensures Serves(later) && SortedIds(later) == SortedIds(input) && Blank(later) == Blank(input)
  {
    hide EvaluateMemoryBasis, EvaluateResourceGate, EvaluatePowerGate, Sorted, Orphans, Constant;
  }

  lemma DippedHost(input: Input, later: Input, baseline: map<PoolId, int>, dip: nat)
    requires Dipped(input, later, baseline, dip) && 0 <= HostLimit(input)
    ensures 0 <= HostLimit(later) && dip <= HostView(input).memory
    ensures HostView(later) == HostView(input).(memory := HostView(input).memory - dip)
  {
    hide EvaluateMemoryBasis, EvaluateResourceGate, Select;
  }

  // Memory readings reach the plan only through the basis and the gate.
  lemma SameViews(input: Input, later: Input)
    requires later == input.(resources := later.resources, engineMemory := later.engineMemory)
    ensures ServingViews(later) == ServingViews(input)
    ensures SortedIds(later) == SortedIds(input) && HostLimit(later) == HostLimit(input)
  {
    hide Sorted, Select, Percent;
    var targets := Sorted(input.config.targets);
    forall i | 0 <= i < |targets| ensures PoolView(later, targets[i]) == PoolView(input, targets[i]) {
    }
  }

  lemma ServingLimit(input: Input)
    requires Serves(input)
    ensures 0 <= HostLimit(input)
  {
  }

  // The serving plan behind a dipped BuildPlan is the one planned again from the
  // first plan's capacity.
  lemma DippedServing(input: Input, later: Input, dip: nat)
    requires input.Valid() && Serves(input) && Dipped(input, later, BuildPlan(input).advertised, dip)
    ensures var plan := A.PlanServing(ServingViews(input), HostView(input));
            && Dipped(input, later, ToMap(SortedIds(input), plan.advertised), dip)
            && Serves(later) && SortedIds(later) == SortedIds(input) && Blank(later) == Blank(input)
            && ServingViews(later) == L.Rebased(ServingViews(input), plan.advertised)
            && dip <= HostView(input).memory && S.ValidFleet(ServingViews(input), HostView(input))
            && HostView(later) == HostView(input).(memory := HostView(input).memory - dip)
  {
    hide BuildPlan, Dipped, Serves, A.PlanServing, ToMap, Blank, S.ValidFleet, HostView, ServingViews, SortedIds,
         L.Rebased;
    PlanRegime(input);
    ServingAdvertised(input);
    DippedViews(input, later, A.PlanServing(ServingViews(input), HostView(input)).advertised, dip);
    ServingLimit(input);
    DippedHost(input, later, BuildPlan(input).advertised, dip);
    ServingViewsValid(input);
  }

  /** On BuildPlan: a later plan that differs only by a dip, within what its first
      k pools leave over, starts and removes the same workers and keeps those
      pools' capacity. */
  lemma PlanSurvivesDip(input: Input, later: Input, dip: nat, k: nat)
    requires input.Valid() && Serves(input) && k <= |SortedIds(input)|
    requires Dipped(input, later, BuildPlan(input).advertised, dip)
    requires dip <= LeftAfter(ServingViews(input), HostView(input), k)
    ensures var ids, plan, again := SortedIds(input), BuildPlan(input), BuildPlan(later);
            && again.desired == plan.desired && again.start == plan.start && again.remove == plan.remove
            && (forall i :: 0 <= i < k ==> Get(again.advertised, ids[i]) == Get(plan.advertised, ids[i]))
            && (k == |ids| ==> again == plan.(headroom := plan.headroom - dip))
  {
    hide BuildPlan, Dipped, Serves, LeftAfter, A.PlanServing, ToMap, ServingRemovals, Blank, S.ValidFleet, HostView,
         ServingViews, SortedIds, L.Rebased;
    var ids, pools, host := SortedIds(input), ServingViews(input), HostView(input);
    var plan := A.PlanServing(pools, host);
    DippedServing(input, later, dip);
    var again := A.PlanServing(ServingViews(later), HostView(later));
    PlanRegime(input);
    PlanRegime(later);
    ServingSurvivesDip(pools, host, HostView(later), dip, k);
    SortedIdsDistinct(input);
    forall i | 0 <= i < k ensures Get(BuildPlan(later).advertised, ids[i]) == Get(BuildPlan(input).advertised, ids[i]) {
      ToMapAt(ids, plan.advertised, i);
      ToMapAt(ids, again.advertised, i);
    }
    SameRemovals(input, later, plan.advertised, dip);
  }

  /** On BuildPlan: the later plan is the same but for the dip exactly when the
      dip is within the headroom the first plan left over. */
  lemma PlanDipsExactly(input: Input, later: Input, dip: nat)
    requires input.Valid() && Serves(input) && Dipped(input, later, BuildPlan(input).advertised, dip)
    ensures (BuildPlan(later) == BuildPlan(input).(headroom := BuildPlan(input).headroom - dip))
              <==> dip <= BuildPlan(input).headroom
  {
    hide BuildPlan, Dipped, Serves, A.PlanServing, LeftAfter, ToMap, ServingRemovals, Blank, S.ValidFleet, HostView,
         ServingViews, SortedIds, L.Rebased;
    var pools, host := ServingViews(input), HostView(input);
    var plan := A.PlanServing(pools, host);
    DippedServing(input, later, dip);
    PlanRegime(input);
    PlanRegime(later);
    LeftAfterFits(pools, host, |pools|);
    if dip <= plan.headroom {
      PlanSurvivesDip(input, later, dip, |pools|);
    }
    RebasedValid(pools, host, HostView(later), plan.advertised);
    A.PlanServiced(ServingViews(later), HostView(later));
  }

  lemma SameRemovals(input: Input, later: Input, values: seq<int>, dip: nat)
    requires input.Valid() && Serves(input) && |values| == |SortedIds(input)|
    requires Dipped(input, later, ToMap(SortedIds(input), values), dip)
    requires dip <= S.Allocated(ServingViews(input), HostView(input)).memory
    ensures Serves(later) && ServingRemovals(later) == ServingRemovals(input)
  {
    hide Dipped, Serves, S.Allocated, A.Bursted, A.Decisions, RemovalsFor, SortedIds, ServingViews, HostView,
         S.ValidFleet, L.Rebased, ToMap;
    var pools, host := ServingViews(input), HostView(input);
    ServingViewsValid(input);
    DippedIs(input, later, ToMap(SortedIds(input), values), dip);
    DippedViews(input, later, values, dip);
    DippedHost(input, later, ToMap(SortedIds(input), values), dip);
    var low := HostView(later);
    AllocatedDips(pools, host, low, dip);
    FirstServiceDips(pools, host, low, dip);
    L.RebasedAllocates(pools, low, values);
    L.RebasedOffers(pools, low, values);
  }
}
