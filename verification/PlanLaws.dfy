/** The planner's laws, stated on BuildPlan itself. */
module PlanLaws {
  import opened Basics
  import opened FleetModel
  import opened Gates
  import opened PlanInputs
  import opened Departures
  import opened Planner
  import S = Serving
  import A = Advertising
  import L = ServingLaws
  import D = Drain

  // ----- Schmitt trigger --------------------------------------------------

  function Rehearsed(input: Input, h: map<PoolId, int>): Input {
    input.(hysteresis := h)
  }

  lemma RehearsedUncovered(input: Input, h: map<PoolId, int>, pool: PoolId)
    ensures Uncovered(Rehearsed(input, h), pool) == Uncovered(input, pool)
  {
  }

  lemma RehearsedDrainViews(input: Input, h: map<PoolId, int>)
    ensures var again, targets := Rehearsed(input, h), Sorted(input.config.targets);
            && DrainViews(again, targets) == DrainViews(input, targets)
            && Reserved(again) == Reserved(input)
            && DrainHostView(again) == DrainHostView(input)
  {
    hide Uncovered, CountIn, Select, Sorted, EvaluateMemoryBasis;
    var again, targets := Rehearsed(input, h), Sorted(input.config.targets);
    forall pool: PoolId
      ensures Uncovered(again, pool) == Uncovered(input, pool)
    {
      RehearsedUncovered(input, h, pool);
    }
    RehearsedBasis(input, h);
    assert DrainViews(again, targets) == DrainViews(input, targets);
  }

  lemma RehearsedDrains(input: Input, h: map<PoolId, int>)
    ensures Draining(Rehearsed(input, h)) == Draining(input)
  {
    hide DrainViews, DrainHostView, Reserved, Sorted, Select, D.DrainStarts, D.SafeRemovals, D.DrainDesires, Orphans,
         ToMap, EvaluatePowerGate, EvaluateResourceGate, Sum, Constant;
    RehearsedDrainViews(input, h);
  }

  lemma RehearsedParts(input: Input, h: map<PoolId, int>)
    ensures var again := Rehearsed(input, h);
            && Blank(again) == Blank(input) && SortedIds(again) == SortedIds(input)
            && KnownPools(again) == KnownPools(input) && Outstanding(again) == Outstanding(input)
  {
    var again := Rehearsed(input, h);
    forall pool | pool in input.pools.Keys
      ensures Uncovered(again, pool) == Uncovered(input, pool)
    {
    }
  }

  lemma RehearsedRegime(input: Input, h: map<PoolId, int>)
    ensures RegimeOf(Rehearsed(input, h)) == RegimeOf(input)
  {
  }

  // A hysteresis baseline reaches the plan only through the served views.
  lemma RehearsedOtherwise(input: Input, h: map<PoolId, int>)
    requires !Serves(input)
    ensures BuildPlan(Rehearsed(input, h)) == BuildPlan(input)
  {
    hide Draining, Blank, SortedIds, EvaluatePowerGate, EvaluateResourceGate, Select, Total, D.SafeRemovals,
         Outstanding, KnownPools, ServingPlanOf, Orphans, RegimeOf;
    RehearsedRegime(input, h);
    RehearsedDrains(input, h);
    RehearsedParts(input, h);
  }

  lemma RehearsedViews(input: Input, values: seq<int>)
    requires input.Valid() && 0 <= HostLimit(input) && |values| == |SortedIds(input)|
    ensures ServingViews(Rehearsed(input, ToMap(SortedIds(input), values))) == L.Rebased(ServingViews(input), values)
    ensures HostView(Rehearsed(input, ToMap(SortedIds(input), values))) == HostView(input)
  {
    hide ToMap, Sorted, CountIn, Select, EvaluateMemoryBasis, Percent;
    var ids := SortedIds(input);
    var again := Rehearsed(input, ToMap(ids, values));
    SortedIdsDistinct(input);
    forall i | 0 <= i < |ids|
      ensures ServingViews(again)[i] == L.Rebased(ServingViews(input), values)[i]
    {
      ToMapAt(ids, values, i);
      RehearsedView(input, ToMap(ids, values), Sorted(input.config.targets)[i]);
    }
    RehearsedBasis(input, ToMap(ids, values));
  }

  lemma RehearsedView(input: Input, h: map<PoolId, int>, t: Target)
    requires t.id in h
    ensures PoolView(Rehearsed(input, h), t) == PoolView(input, t).(previous := h[t.id])
  {
  }

  lemma RehearsedBasis(input: Input, h: map<PoolId, int>)
    ensures EvaluateMemoryBasis(Rehearsed(input, h)) == EvaluateMemoryBasis(input)
  {
  }

  // Planning again with the plan's own capacity as the hysteresis baseline
  // gives the whole plan back: capacity, headroom, starts and removals.
  lemma PlanFixedPoint(input: Input)
    requires input.Valid()
    ensures BuildPlan(Rehearsed(input, BuildPlan(input).advertised)) == BuildPlan(input)
  {
    hide BuildPlan;
    PlanRegime(input);
    if Serves(input) {
      ServingFixedPoint(input);
      PlanRegime(Rehearsed(input, ServingPlanOf(input).advertised));
    } else {
      RehearsedOtherwise(input, BuildPlan(input).advertised);
    }
  }

  lemma ServingFixedPoint(input: Input)
    requires input.Valid() && Serves(input)
    ensures var again := Rehearsed(input, ServingPlanOf(input).advertised);
            Serves(again) && ServingPlanOf(again) == ServingPlanOf(input)
  {
    hide A.PlanServing, ToMap, EvaluatePowerGate, EvaluateResourceGate, EvaluateMemoryBasis, ServingViews, RemovalsFor,
         S.Allocated, A.Bursted, A.Decisions, L.Rebased;
    var pools, host := ServingViews(input), HostView(input);
    var plan := A.PlanServing(pools, host);
    RehearsedViews(input, plan.advertised);
    ServingViewsValid(input);
    L.SchmittFixedPoint(pools, host);
    L.RebasedAllocates(pools, host, plan.advertised);
    L.RebasedOffers(pools, host, plan.advertised);
  }

  lemma ServingViewsValid(input: Input)
    requires input.Valid() && 0 <= HostLimit(input)
    ensures S.ValidFleet(ServingViews(input), HostView(input))
  {
    ViewsValid(input);
  }

  // ----- Assignments beat warm idle ---------------------------------------

  function Cold(targets: seq<Target>): (r: seq<Target>)
    ensures |r| == |targets|
    ensures forall i :: 0 <= i < |r| ==> r[i] == targets[i].(warmIdle := 0)
  {
    seq(|targets|, i requires 0 <= i < |targets| => targets[i].(warmIdle := 0))
  }

  function WithoutWarmIdle(input: Input): Input {
    input.(config := input.config.(targets := Cold(input.config.targets)))
  }

  lemma {:induction false} InsertCold(t: Target, s: seq<Target>)
    ensures Cold(Insert(t, s)) == Insert(t.(warmIdle := 0), Cold(s))
  {
    var n := |s| - 1;
    if s != [] && Before(t, s[n]) {
      InsertCold(t, s[..n]);
      assert Cold(s)[..n] == Cold(s[..n]);
    } else {
      assert Cold(s + [t]) == Cold(s) + [t.(warmIdle := 0)];
    }
  }

  lemma {:induction false} SortedCold(targets: seq<Target>)
    ensures Sorted(Cold(targets)) == Cold(Sorted(targets))
  {
    if targets != [] {
      var n := |targets| - 1;
      SortedCold(targets[..n]);
      InsertCold(targets[n], Sorted(targets[..n]));
      assert Cold(targets)[..n] == Cold(targets[..n]);
    }
  }

  lemma {:induction false} ProfileCold(targets: seq<Target>, default_: nat, pool: PoolId)
    ensures ProfileOf(Cold(targets), default_, pool) == ProfileOf(targets, default_, pool)
  {
    if targets != [] {
      ProfileCold(targets[..|targets| - 1], default_, pool);
      assert Cold(targets)[..|targets| - 1] == Cold(targets[..|targets| - 1]);
    }
  }

  lemma {:induction false} ReservationsCold(config: Config, ws: seq<Worker>)
    ensures Reservations(config.(targets := Cold(config.targets)), ws) == Reservations(config, ws)
  {
    if ws != [] {
      ReservationsCold(config, ws[..|ws| - 1]);
      ProfileCold(config.targets, config.defaultMemory, ws[|ws| - 1].pool);
    }
  }

  lemma ColdBasis(input: Input)
    ensures EvaluateMemoryBasis(WithoutWarmIdle(input)) == EvaluateMemoryBasis(input)
    ensures SortedIds(WithoutWarmIdle(input)) == SortedIds(input)
    ensures HostLimit(WithoutWarmIdle(input)) == HostLimit(input)
    ensures RegimeOf(WithoutWarmIdle(input)) == RegimeOf(input)
  {
    hide Sorted, Reservations, EvaluatePowerGate, EvaluateResourceGate, Percent, Cold;
    ReservationsCold(input.config, input.workers);
    SortedCold(input.config.targets);
    ColdIds(Sorted(input.config.targets));
  }

  lemma ColdIds(targets: seq<Target>)
    ensures Ids(Cold(targets)) == Ids(targets)
  {
  }

  lemma ColdUncovered(input: Input, pool: PoolId)
    ensures Uncovered(WithoutWarmIdle(input), pool) == Uncovered(input, pool)
  {
    ColdBasis(input);
  }

  lemma ColdDrains(input: Input)
    ensures Draining(WithoutWarmIdle(input)).desired == Draining(input).desired
  {
    hide Uncovered, CountIn, Select, Sorted, D.DrainStarts, ToMap, EvaluateMemoryBasis, RegimeOf;
    var cold, targets := WithoutWarmIdle(input), Sorted(input.config.targets);
    ColdBasis(input);
    SortedCold(input.config.targets);
    forall i | 0 <= i < |targets|
      ensures DrainView(cold, Sorted(cold.config.targets)[i]) == DrainView(input, targets[i])
    {
      ColdUncovered(input, targets[i].id);
    }
    assert DrainViews(cold, Sorted(cold.config.targets)) == DrainViews(input, targets);
  }

  lemma ColdServes(input: Input, i: nat)
    requires input.Valid() && Serves(input) && i < |SortedIds(input)|
    ensures Serves(WithoutWarmIdle(input)) && SortedIds(WithoutWarmIdle(input)) == SortedIds(input)
    ensures ServingPlanOf(WithoutWarmIdle(input)).desired[SortedIds(input)[i]]
         <= ServingPlanOf(input).desired[SortedIds(input)[i]]
  {
    hide RegimeOf, A.PlanServing, EvaluateMemoryBasis, Sorted, ServingRemovals, Blank, S.Allocated, S.ValidFleet;
    var cold, ids := WithoutWarmIdle(input), SortedIds(input);
    ColdBasis(input);
    SortedCold(input.config.targets);
    assert ServingViews(cold) == S.WithoutWarmIdle(ServingViews(input));
    assert HostView(cold) == HostView(input);
    ServingViewsValid(input);
    S.AssignmentsBeatWarmIdle(ServingViews(input), HostView(input), i);
    SortedIdsDistinct(input);
    PlanDesired(ServingViews(input), HostView(input));
    PlanDesired(ServingViews(cold), HostView(cold));
    ToMapAt(ids, A.PlanServing(ServingViews(input), HostView(input)).desired, i);
    ToMapAt(ids, A.PlanServing(ServingViews(cold), HostView(cold)).desired, i);
  }

  lemma PlanDesired(pools: seq<S.Pool>, host: S.Host)
    ensures A.PlanServing(pools, host).desired == S.Allocated(pools, host).desired
  {
  }

  lemma ColdOtherwise(input: Input)
    requires !Serves(input)
    ensures BuildPlan(WithoutWarmIdle(input)).desired == BuildPlan(input).desired
  {
    hide Draining, Blank, SortedIds, EvaluatePowerGate, EvaluateResourceGate, Select, Total, D.SafeRemovals,
         Outstanding, KnownPools, ServingPlanOf, Orphans, EvaluateMemoryBasis, RegimeOf;
    ColdBasis(input);
    ColdDrains(input);
    ColdBlank(input);
  }

  lemma ColdBlank(input: Input)
    ensures Blank(WithoutWarmIdle(input)).desired == Blank(input).desired
  {
    ColdBasis(input);
  }

  // Every pool's desired workers are at least what the same input gives with
  // all warm-idle preferences removed.
  lemma PlanBeatsWarmIdle(input: Input, pool: PoolId)
    requires input.Valid() && pool in SortedIds(input)
    ensures Get(BuildPlan(WithoutWarmIdle(input)).desired, pool) <= Get(BuildPlan(input).desired, pool)
  {
    hide BuildPlan, Serves, ServingPlanOf, SortedIds;
    if Serves(input) {
      var i :| 0 <= i < |SortedIds(input)| && SortedIds(input)[i] == pool;
      ColdServes(input, i);
      PlanRegime(input);
      PlanRegime(WithoutWarmIdle(input));
      ServingKeys(input);
      ServingKeys(WithoutWarmIdle(input));
    } else {
      ColdOtherwise(input);
    }
  }

  lemma ServingKeys(input: Input)
    requires 0 <= HostLimit(input)
    ensures ServingPlanOf(input).desired.Keys == set id | id in SortedIds(input)
  {
  }

  // ----- Convergence and removals -----------------------------------------

  // Where a plan's removal list comes from.
  lemma RemoveIs(input: Input)
    ensures Serves(input) ==> BuildPlan(input).remove == ServingRemovals(input)
    ensures !Serves(input) ==>
              var orphans, known := Orphans(input.workers, SortedIds(input)), KnownPools(input);
              || BuildPlan(input).remove == orphans
              || BuildPlan(input).remove == orphans + D.SafeRemovals(input.order, input.workers, known, Reserved(input))
              || BuildPlan(input).remove == orphans + D.SafeRemovals(input.order, input.workers, known, map[])
  {
    hide RegimeOf, ToMap, Select, SortedIds, Sorted, Constant, EvaluatePowerGate, EvaluateResourceGate,
         D.SafeRemovals, Orphans, D.DrainStarts, DrainViews, DrainHostView, ServingRemovals, A.PlanServing, Total,
         Sum, KnownPools, Reserved, Outstanding;
  }

  lemma ServingRemovesNoBusy(input: Input)
    requires Serves(input)
    ensures forall w :: w in ServingRemovals(input) ==> w in input.workers && !w.state.Busy?
  {
    hide RegimeOf, ToMap, Select, SortedIds, Removals, A.Bursted, A.Decisions, S.Allocated, A.BurstOrder;
    var ids, pools, host := SortedIds(input), ServingViews(input), HostView(input);
    var ds := A.Decisions(pools, host, S.Allocated(pools, host).desired);
    RemovalsNotBusy(ids, input.workers, ToMap(ids, Drops(ds)), Named(ids, A.BurstOrder(ds)),
                    ToMap(ids, BurstDrops(ds, A.Bursted(pools, host).advertised)));
  }

  // No plan, in any regime, lists a busy worker or one not in the inventory.
  lemma PlanRemovesNoBusy(input: Input, w: Worker)
    ensures w in BuildPlan(input).remove ==> w in input.workers && !w.state.Busy?
  {
    hide BuildPlan, Serves, ServingRemovals, SortedIds, D.SafeRemovals, Orphans, KnownPools, Reserved;
    RemoveIs(input);
    if Serves(input) {
      ServingRemovesNoBusy(input);
    } else {
      D.RemovalsNotBusy(input.order, input.workers, KnownPools(input), Reserved(input));
      D.RemovalsNotBusy(input.order, input.workers, KnownPools(input), map[]);
    }
  }

  lemma NamedDistinct(ids: seq<PoolId>, order: seq<nat>)
    requires Distinct(ids) && Distinct(order) && forall k :: 0 <= k < |order| ==> order[k] < |ids|
    ensures Distinct(Named(ids, order))
    ensures forall i :: 0 <= i < |ids| ==> (ids[i] in Named(ids, order) <==> i in order)
  {
    forall i | 0 <= i < |ids|
      ensures ids[i] in Named(ids, order) <==> i in order
    {
      if i in order {
        var k :| 0 <= k < |order| && order[k] == i;
        assert Named(ids, order)[k] == ids[i];
      }
    }
  }

  // The removal list takes from each pool exactly the plan's drop.
  lemma RemovalsMatch(input: Input, i: nat)
    requires input.Valid() && Serves(input) && i < |SortedIds(input)|
    ensures var id := SortedIds(input)[i];
            && CountIn(ServingRemovals(input), id, AreNonbusy)
                 == A.PlanServing(ServingViews(input), HostView(input)).drop[i]
            && CountIn(ServingRemovals(input), id, AreBusy) == 0
  {
    hide RegimeOf, ToMap, Select, CountIn, Sorted, Removals, A.Bursted, S.Allocated, A.BurstOrder, S.ValidFleet, Sum;
    var ids, pools, host := SortedIds(input), ServingViews(input), HostView(input);
    var ds := A.Decisions(pools, host, S.Allocated(pools, host).desired);
    var advertised := A.Bursted(pools, host).advertised;
    var order := A.BurstOrder(ds);
    SortedIdsDistinct(input);
    NamedDistinct(ids, order);
    ServingViewsValid(input);
    L.BurstedSettles(pools, host, i);
    L.Converges(pools, host, i);
    ToMapAt(ids, Drops(ds), i);
    ToMapAt(ids, BurstDrops(ds, advertised), i);
    RemovalsCount(ids, input.workers, ToMap(ids, Drops(ds)), Named(ids, order),
                  ToMap(ids, BurstDrops(ds, advertised)), ids[i]);
  }

  // Every serving plan converges: a pool's active workers, less the active
  // workers removed, plus the starts, are its desired workers, or one more
  // where it is left advertising a slot.
  lemma PlanConverges(input: Input, i: nat)
    requires input.Valid() && Serves(input) && i < |SortedIds(input)|
    ensures var id, plan := SortedIds(input)[i], BuildPlan(input);
            var after := CountIn(input.workers, id, AreActive) - CountIn(plan.remove, id, AreActive) + plan.start[id];
            && CountIn(plan.remove, id, AreBusy) == 0
            && CountIn(input.workers, id, AreBusy) <= plan.desired[id]
            && (after == plan.desired[id] || (after == plan.desired[id] + 1 && 1 <= plan.advertised[id]))
  {
    hide BuildPlan, RegimeOf, ToMap, Select, Sorted, A.PlanServing, S.ValidFleet, ServingRemovals, Blank,
         EvaluateMemoryBasis;
    var ids, pools, host := SortedIds(input), ServingViews(input), HostView(input);
    var plan := A.PlanServing(pools, host);
    PlanRegime(input);
    RemovalsMatch(input, i);
    ServingViewsValid(input);
    L.Converges(pools, host, i);
    SortedIdsDistinct(input);
    ToMapAt(ids, plan.desired, i);
    ToMapAt(ids, plan.start, i);
    ToMapAt(ids, plan.advertised, i);
    ActiveSplits(Select(input.workers, InPool(ids[i])));
    ActiveSplits(Select(ServingRemovals(input), InPool(ids[i])));
  }

  // Total desired workers stay within the host limit or the busy workers, and
  // headroom is conserved: what the basis offered is left over, started or
  // set aside for service slots.
  lemma PlanConserves(input: Input)
    requires input.Valid() && Serves(input)
    ensures var ids, plan, pools, host := SortedIds(input), BuildPlan(input), ServingViews(input), HostView(input);
            && Total(ids, plan.desired) <= Max(HostLimit(input), |Select(input.workers, AreBusy)|)
            && 0 <= plan.headroom
            && EvaluateMemoryBasis(input).remaining
                 == plan.headroom + Weighted(S.Memories(pools), At(ids, plan.start))
                    + Weighted(S.Memories(pools), A.ServiceSlots(pools, host))
            && (EvaluateMemoryBasis(input).floorBlocked ==> forall id :: id in ids ==> Get(plan.start, id) == 0)
  {
    hide BuildPlan, RegimeOf, ToMap, Select, Sorted, A.PlanServing, S.ValidFleet, ServingRemovals, Blank,
         EvaluateMemoryBasis, Sum, Weighted, A.ServiceSlots;
    var ids, pools, host := SortedIds(input), ServingViews(input), HostView(input);
    var plan := A.PlanServing(pools, host);
    PlanRegime(input);
    ServingViewsValid(input);
    SortedIdsDistinct(input);
    A.MemoryConserved(pools, host);
    A.DesiredWithinHost(pools, host);
    A.StartsAreFunded(pools, host);
    ToMapTotal(ids, plan.desired);
    ToMapTotal(ids, plan.start);
    forall id | id in ids && host.floorBlocked
      ensures Get(ToMap(ids, plan.start), id) == 0
    {
      var i :| 0 <= i < |ids| && ids[i] == id;
      ToMapAt(ids, plan.start, i);
    }
  }

  // ----- Draining ---------------------------------------------------------

  // While capacity is held at zero: active workers plus starts stay within the
  // host limit or what already runs, starts fit a valid memory basis, and each
  // configured pool keeps exactly the idle workers its uncovered jobs need.
  lemma PlanDrains(input: Input)
    requires input.Valid()
    ensures var ids, plan := SortedIds(input), Draining(input);
            var host := DrainHostView(input);
            && host.active + Total(ids, plan.start) <= Max(HostLimit(input), host.active)
            && (host.memoryValid ==>
                  Weighted(D.DrainMemories(DrainViews(input, Sorted(input.config.targets))), At(ids, plan.start))
                    <= host.memory)
            && (forall id :: id in ids ==> 0 <= Get(plan.start, id))
  {
    hide ToMap, Select, Sorted, D.DrainStarts, Blank, EvaluateMemoryBasis, Sum, Weighted, D.SafeRemovals,
         D.DrainDesires;
    var ids := SortedIds(input);
    var pools, host := DrainViews(input, Sorted(input.config.targets)), DrainHostView(input);
    D.DrainStartsFit(pools, host);
    SortedIdsDistinct(input);
    ToMapTotal(ids, D.DrainStarts(pools, host));
    forall id | id in ids
      ensures 0 <= Get(ToMap(ids, D.DrainStarts(pools, host)), id)
    {
      var i :| 0 <= i < |ids| && ids[i] == id;
      ToMapAt(ids, D.DrainStarts(pools, host), i);
    }
  }

  lemma PlanDrainKeeps(input: Input, pool: PoolId)
    requires input.Valid() && pool in SortedIds(input)
    ensures var plan := Draining(input);
            var idle := CountIn(input.workers, pool, AreNonbusy);
            && idle - CountIn(plan.remove, pool, AreNonbusy) == Min(idle, Uncovered(input, pool))
            && CountIn(plan.remove, pool, AreBusy) == 0
  {
    hide Select, Sorted, Uncovered, D.SafeRemovals, D.DrainStarts, ToMap, Orphans, Sum;
    var ids, ws := SortedIds(input), input.workers;
    var orphans := Orphans(ws, ids);
    var shed := D.SafeRemovals(input.order, ws, KnownPools(input), Reserved(input));
    SelectAppend(orphans, shed, InPool(pool));
    SelectNone(orphans, InPool(pool));
    assert Select(Draining(input).remove, InPool(pool)) == Select(shed, InPool(pool));
    ReservedIs(input, pool);
    if pool in input.order {
      D.DrainKeeps(input.order, ws, KnownPools(input), Reserved(input), pool);
    } else {
      D.RemovalsOf(input.order, ws, KnownPools(input), Reserved(input), pool);
      assert Select(ws, InPool(pool)) == [] by { SelectNone(ws, InPool(pool)); }
      SelectNone([], AreNonbusy);
      SelectNone([], AreBusy);
    }
  }

  lemma ReservedIs(input: Input, pool: PoolId)
    ensures Get(Reserved(input), pool) == Uncovered(input, pool)
  {
  }
}
