/** BuildPlan as a whole (plan.go:125-516): which regime applies, and what
    every plan guarantees. */
module Planner {
  import opened Basics
  import opened FleetModel
  import opened Gates
  import opened PlanInputs
  import opened Departures
  import S = Serving
  import A = Advertising
  import D = Drain

  datatype Plan = Plan(
    advertised: map<PoolId, int>,
    desired: map<PoolId, int>,
    start: map<PoolId, int>,
    remove: seq<Worker>,
    startDesktop: bool,
    stopDesktop: bool,
    shutdownWSL: bool,
    resourceGate: ResourceGate,
    powerGate: PowerGate,
    headroom: int,
    clamped: map<PoolId, bool>)

  // ----- Per-pool maps ----------------------------------------------------

  function ToMap<V>(ids: seq<PoolId>, values: seq<V>): (m: map<PoolId, V>)
    requires |ids| == |values|
    ensures m.Keys == set id | id in ids
  {
    if ids == [] then map[]
    else
      assert ids == ids[..|ids| - 1] + [ids[|ids| - 1]];
      ToMap(ids[..|ids| - 1], values[..|ids| - 1])[ids[|ids| - 1] := values[|ids| - 1]]
  }

  function Constant<V>(ids: seq<PoolId>, v: V): map<PoolId, V> {
    map id | id in ids :: v
  }

  // The values of a map at the given pools, in order.
  function At(ids: seq<PoolId>, m: map<PoolId, int>): (values: seq<int>)
    ensures |values| == |ids|
  {
    seq(|ids|, i requires 0 <= i < |ids| => Get(m, ids[i]))
  }

  function Total(ids: seq<PoolId>, m: map<PoolId, int>): int {
    Sum(At(ids, m))
  }

  lemma {:induction false} ToMapAt<V>(ids: seq<PoolId>, values: seq<V>, i: nat)
    requires |ids| == |values| && Distinct(ids) && i < |ids|
    ensures ids[i] in ToMap(ids, values) && ToMap(ids, values)[ids[i]] == values[i]
  {
    var n := |ids| - 1;
    if i < n { ToMapAt(ids[..n], values[..n], i); }
  }

  lemma ToMapTotal(ids: seq<PoolId>, values: seq<int>)
    requires |ids| == |values| && Distinct(ids)
    ensures At(ids, ToMap(ids, values)) == values
    ensures Total(ids, ToMap(ids, values)) == Sum(values)
  {
    forall i | 0 <= i < |ids|
      ensures At(ids, ToMap(ids, values))[i] == values[i]
    {
      ToMapAt(ids, values, i);
    }
    assert At(ids, ToMap(ids, values)) == values;
  }

  // ----- The regimes ------------------------------------------------------

  // Nothing advertised, wanted or started yet; only orphans are let go.
  function Blank(input: Input): Plan {
    var ids := SortedIds(input);
    Plan(Constant(ids, 0), Constant(ids, 0), Constant(ids, 0), Orphans(input.workers, ids), false, false, false,
         EvaluateResourceGate(input.resourceGate, input.resources, input.config.cpu, input.now).0,
         EvaluatePowerGate(input.powerGate, input.acConnected, input.config.power, input.now).0,
         0, Constant(ids, false))
  }

  function KnownPools(input: Input): set<PoolId> {
    set id | id in SortedIds(input)
  }

  // Capacity held at zero while assigned jobs are covered.
  function Draining(input: Input): Plan {
    var ids := SortedIds(input);
    var pools := DrainViews(input, Sorted(input.config.targets));
    var starts := D.DrainStarts(pools, DrainHostView(input));
    Blank(input).(
      desired := ToMap(ids, D.DrainDesires(pools, starts)),
      start := ToMap(ids, starts),
      remove := Orphans(input.workers, ids)
                + D.SafeRemovals(input.order, input.workers, KnownPools(input), Reserved(input)),
      startDesktop := Sum(starts) > 0 && !input.desktop.Up())
  }

  // GitHub holds an assignment no busy worker accounts for.
  predicate Outstanding(input: Input) {
    exists pool | pool in input.pools.Keys :: Uncovered(input, pool) > 0
  }

  function ServingViews(input: Input): (pools: seq<S.Pool>)
    ensures |pools| == |Sorted(input.config.targets)|
  {
    PoolViews(input, Sorted(input.config.targets))
  }

  function Drops(ds: seq<A.Decision>): (drops: seq<int>)
    ensures |drops| == |ds|
  {
    seq(|ds|, i requires 0 <= i < |ds| => ds[i].drop)
  }

  // Burst candidates that ended up unadvertised lose their excess worker.
  function BurstDrops(ds: seq<A.Decision>, advertised: seq<int>): (drops: seq<int>)
    requires |advertised| == |ds|
    ensures |drops| == |ds|
  {
    seq(|ds|, i requires 0 <= i < |ds| => if ds[i].burst && advertised[i] == 0 then 1 else 0)
  }

  function Named(ids: seq<PoolId>, order: seq<nat>): (names: seq<PoolId>)
    requires forall k :: 0 <= k < |order| ==> order[k] < |ids|
    ensures |names| == |order|
  {
    seq(|order|, k requires 0 <= k < |order| => ids[order[k]])
  }

  function RemovalsFor(ids: seq<PoolId>, ws: seq<Worker>, ds: seq<A.Decision>, advertised: seq<int>): seq<Worker>
    requires |ids| == |ds| == |advertised|
  {
    Removals(ids, ws, ToMap(ids, Drops(ds)), Named(ids, A.BurstOrder(ds)), ToMap(ids, BurstDrops(ds, advertised)))
  }

  function ServingRemovals(input: Input): seq<Worker>
    requires 0 <= HostLimit(input)
  {
    var pools, host := ServingViews(input), HostView(input);
    RemovalsFor(SortedIds(input), input.workers,
                A.Decisions(pools, host, S.Allocated(pools, host).desired), A.Bursted(pools, host).advertised)
  }

  function ServingPlanOf(input: Input): Plan
    requires 0 <= HostLimit(input)
  {
    var ids := SortedIds(input);
    var plan := A.PlanServing(ServingViews(input), HostView(input));
    Blank(input).(
      advertised := ToMap(ids, plan.advertised),
      desired := ToMap(ids, plan.desired),
      start := ToMap(ids, plan.start),
      remove := ServingRemovals(input),
      headroom := plan.headroom,
      clamped := ToMap(ids, plan.clamped))
  }

  datatype Regime = Holding | Closing | Booting | Misconfigured | Allocating

  // Docker Desktop starts before the resource gate is consulted.
  function RegimeOf(input: Input): Regime {
    match input.mode
    case Unsupported => Holding
    case Disabled => Holding
    case Gaming => Closing
    case Enabled =>
      if !EvaluatePowerGate(input.powerGate, input.acConnected, input.config.power, input.now).1 then Holding
      else if !input.desktop.Up() then Booting
      else if !EvaluateResourceGate(input.resourceGate, input.resources, input.config.cpu, input.now).1 then Holding
      else if HostLimit(input) < 0 then Misconfigured
      else Allocating
  }

  predicate Serves(input: Input)
    ensures Serves(input) ==> 0 <= HostLimit(input)
  {
    RegimeOf(input).Allocating?
  }

  function BuildPlan(input: Input): Plan {
    match RegimeOf(input)
    case Holding => Draining(input)
    case Closing =>
      var plan := Draining(input);
      if |Select(input.workers, AreBusy)| > 0 || Outstanding(input) || Total(SortedIds(input), plan.start) > 0 then plan
      else plan.(stopDesktop := input.desktop.running || input.desktop.reachable,
                 shutdownWSL := input.desktop.wslCount > 0)
    case Booting => Blank(input).(startDesktop := true)
    case Misconfigured =>
      Blank(input).(remove := Orphans(input.workers, SortedIds(input))
                              + D.SafeRemovals(input.order, input.workers, KnownPools(input), map[]))
    case Allocating => ServingPlanOf(input)
  }

  // ----- Every plan -------------------------------------------------------

  lemma SortedIdsDistinct(input: Input)
    requires input.Valid()
    ensures Distinct(SortedIds(input))
  {
    SortedInOrder(input.config.targets);
  }

  lemma PlanRegime(input: Input)
    ensures Serves(input) ==> BuildPlan(input) == ServingPlanOf(input)
    ensures !Serves(input) ==> BuildPlan(input).advertised == Constant(SortedIds(input), 0)
  {
    hide Constant, ToMap, EvaluatePowerGate, EvaluateResourceGate, HostLimit, Select, SortedIds, Sum, Total,
         D.DrainStarts, D.SafeRemovals, DrainViews, DrainHostView, ServingPlanOf, RegimeOf;
  }

  lemma WithinHost(input: Input)
    requires input.Valid() && Serves(input)
    ensures var ids, plan := SortedIds(input), ServingPlanOf(input);
            && Total(ids, plan.advertised) <= HostLimit(input)
            && (forall id :: id in ids ==> 0 <= Get(plan.advertised, id))
            && plan.advertised.Keys == set id | id in ids
  {
    hide A.PlanServing, S.ValidFleet, ToMap, Blank, ServingRemovals, SortedIds, EvaluateMemoryBasis, Sum;
    var ids := SortedIds(input);
    var serving := A.PlanServing(ServingViews(input), HostView(input));
    SortedIdsDistinct(input);
    ViewsValid(input);
    A.AdvertisedWithinHost(ServingViews(input), HostView(input));
    ToMapTotal(ids, serving.advertised);
    forall id | id in ids
      ensures 0 <= Get(ToMap(ids, serving.advertised), id)
    {
      var i :| 0 <= i < |ids| && ids[i] == id;
      ToMapAt(ids, serving.advertised, i);
    }
  }

  // The total advertised is never above the host limit, and only the
  // allocator advertises anything.
  lemma PlanWithinHost(input: Input)
    requires input.Valid()
    ensures var ids, plan := SortedIds(input), BuildPlan(input);
            && Total(ids, plan.advertised) <= Max(HostLimit(input), 0)
            && (forall id :: id in ids ==> 0 <= Get(plan.advertised, id))
            && (!Serves(input) ==> Total(ids, plan.advertised) == 0)
            && plan.advertised.Keys == set id | id in ids
  {
    hide BuildPlan, Serves, ServingPlanOf, SortedIds, HostLimit;
    PlanRegime(input);
    if Serves(input) {
      WithinHost(input);
    } else {
      SumZero(At(SortedIds(input), BuildPlan(input).advertised));
    }
  }
}
