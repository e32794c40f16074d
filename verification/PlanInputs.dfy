/** What BuildPlan is given (plan.go:15-115) and what it derives from it before
    allocating: the host limit, the memory basis and a view of each pool. */
module PlanInputs {
  import opened Basics
  import opened FleetModel
  import opened Gates
  import S = Serving
  import D = Drain

  datatype Mode = Enabled | Disabled | Gaming | Unsupported

  datatype Desktop = Desktop(running: bool, reachable: bool, wslCount: int)
  {
    predicate Up() {
      running && reachable
    }
  }

  datatype PoolSnapshot = PoolSnapshot(assignedJobs: int, drainCapacity: int, ready: bool)

  datatype Config = Config(
    targets: seq<Target>,
    maximumWorkers: int,
    defaultMemory: nat,
    memoryBudget: nat,            // zero when unset
    minimumAvailablePct: real,
    marginPct: real,
    interactiveMaximum: int,      // zero when unset
    interactiveThreshold: int,
    cpu: CpuPolicy,
    power: PowerPolicy)

  datatype Input = Input(
    config: Config,
    mode: Mode,
    override_: Option<int>,
    resourceGate: ResourceGate,           // from the previous observation
    powerGate: PowerGate,
    previousCapacity: map<PoolId, int>,
    hysteresis: map<PoolId, int>,         // overrides previousCapacity
    pools: map<PoolId, PoolSnapshot>,
    workers: seq<Worker>,
    resources: Resources,
    acConnected: bool,
    desktop: Desktop,
    engineMemory: nat,                    // zero when unknown
    inputIdle: Option<int>,
    now: int,
    order: seq<PoolId>)                   // the iteration order of workersByPool
  {
    // Configuration rejects duplicate target IDs; the rest bounds the machine
    // integers the fields hold.
    ghost predicate Valid() {
      && DistinctIds(config.targets)
      && Distinct(order) && (forall w :: w in workers ==> w.pool in order)
      && HostLimit(this) <= MAX_INT
      && config.memoryBudget < TWO_64 && engineMemory < TWO_64 && resources.total < TWO_64
    }
  }

  function SortedIds(input: Input): (ids: seq<PoolId>)
    ensures |ids| == |Sorted(input.config.targets)|
  {
    Ids(Sorted(input.config.targets))
  }

  // ----- Host limit -------------------------------------------------------

  predicate InteractiveCap(input: Input) {
    && input.config.interactiveMaximum > 0 && input.override_.None?
    && input.inputIdle.Some? && input.inputIdle.value < input.config.interactiveThreshold
  }

  function HostLimit(input: Input): int {
    if InteractiveCap(input) then input.config.interactiveMaximum
    else if input.override_.Some? then input.override_.value
    else input.config.maximumWorkers
  }

  // ----- Memory basis -----------------------------------------------------

  function NatCeil(x: real): nat {
    if x <= 0.0 then 0 else -((-x).Floor)
  }

  function Percent(pct: real, of_: nat): nat {
    NatCeil(of_ as real * pct / 100.0)
  }

  function SaturatingAdd(left: nat, right: nat): nat {
    Min(left + right, TWO_64 - 1)
  }

  function MemoryOf(config: Config, w: Worker): nat {
    if w.memoryLimit > 0 then w.memoryLimit
    else ProfileOf(config.targets, config.defaultMemory, w.pool)
  }

  function ProfileOf(targets: seq<Target>, default_: nat, pool: PoolId): nat {
    if targets == [] then default_
    else if targets[|targets| - 1].id == pool then targets[|targets| - 1].Memory(default_)
    else ProfileOf(targets[..|targets| - 1], default_, pool)
  }

  function Reservations(config: Config, ws: seq<Worker>): nat {
    if ws == [] then 0
    else
      var rest := Reservations(config, ws[..|ws| - 1]);
      var w := ws[|ws| - 1];
      if w.Active() then SaturatingAdd(rest, MemoryOf(config, w)) else rest
  }

  datatype MemoryBasis = MemoryBasis(budgetActive: bool, floorBlocked: bool, remaining: nat)

  function EvaluateMemoryBasis(input: Input): (basis: MemoryBasis)
    ensures input.config.memoryBudget < TWO_64 && input.resources.total < TWO_64 ==> basis.remaining < TWO_64
  {
    var floor := Percent(input.config.minimumAvailablePct, input.resources.total);
    var seen := input.resources;
    if input.config.memoryBudget == 0 then
      MemoryBasis(false, false,
                  if seen.MemoryValid() && seen.available > floor then seen.available - floor else 0)
    else
      var budget := if input.engineMemory > 0 then Min(input.config.memoryBudget, input.engineMemory)
                    else input.config.memoryBudget;
      MemoryBasis(true, seen.MemoryValid() && seen.available <= floor,
                  Max(budget - Reservations(input.config, input.workers), 0))
  }

  // ----- Views ------------------------------------------------------------

  function Baseline(input: Input, pool: PoolId): int {
    if pool in input.hysteresis then input.hysteresis[pool] else Get(input.previousCapacity, pool)
  }

  function PoolView(input: Input, t: Target): S.Pool {
    var ready := t.id in input.pools && input.pools[t.id].ready;
    var jobs := if ready then Max(input.pools[t.id].assignedJobs, 0) else 0;
    var memory := t.Memory(input.config.defaultMemory);
    S.Pool(t.maxCapacity, t.warmIdle, memory, Percent(input.config.marginPct, memory),
           CountIn(input.workers, t.id, AreBusy), CountIn(input.workers, t.id, AreNonbusy),
           ready, Min(jobs, t.maxCapacity), ready && jobs > t.maxCapacity, Baseline(input, t.id))
  }

  function PoolViews(input: Input, targets: seq<Target>): (pools: seq<S.Pool>)
    ensures |pools| == |targets|
    ensures forall i :: 0 <= i < |pools| ==> pools[i] == PoolView(input, targets[i])
  {
    seq(|targets|, i requires 0 <= i < |targets| => PoolView(input, targets[i]))
  }

  function HostView(input: Input): S.Host
    requires 0 <= HostLimit(input)
  {
    var basis := EvaluateMemoryBasis(input);
    S.Host(HostLimit(input), |Select(input.workers, AreBusy)|, |Select(input.workers, AreActive)|,
           basis.floorBlocked, basis.remaining)
  }

  // Assigned jobs of a ready configured pool that no busy worker accounts for.
  function Uncovered(input: Input, pool: PoolId): nat {
    if pool in SortedIds(input) && pool in input.pools && input.pools[pool].ready
    then Max(Max(input.pools[pool].assignedJobs, 0) - CountIn(input.workers, pool, AreBusy), 0)
    else 0
  }

  function Reserved(input: Input): map<PoolId, int> {
    map pool | pool in input.pools.Keys :: Uncovered(input, pool)
  }

  function DrainView(input: Input, t: Target): D.DrainPool {
    D.DrainPool(t.maxCapacity, t.Memory(input.config.defaultMemory),
                CountIn(input.workers, t.id, AreBusy), CountIn(input.workers, t.id, AreNonbusy),
                Uncovered(input, t.id),
                if t.id in input.pools then input.pools[t.id].drainCapacity else 0)
  }

  function DrainViews(input: Input, targets: seq<Target>): (pools: seq<D.DrainPool>)
    ensures |pools| == |targets|
    ensures forall i :: 0 <= i < |pools| ==> pools[i] == DrainView(input, targets[i])
  {
    seq(|targets|, i requires 0 <= i < |targets| => DrainView(input, targets[i]))
  }

  function DrainHostView(input: Input): D.DrainHost {
    var basis := EvaluateMemoryBasis(input);
    D.DrainHost(HostLimit(input), |Select(input.workers, AreActive)|, basis.remaining,
                basis.budgetActive || input.resources.MemoryValid(), basis.floorBlocked)
  }

  // The views satisfy what the serving laws ask for.
  lemma ViewsValid(input: Input)
    requires input.Valid() && 0 <= HostLimit(input)
    ensures S.ValidFleet(PoolViews(input, Sorted(input.config.targets)), HostView(input))
  {
    var targets := Sorted(input.config.targets);
    var pools, host := PoolViews(input, targets), HostView(input);
    SortedInOrder(input.config.targets);
    CountsWithin(input.workers, Ids(targets), AreBusy);
    CountsWithin(input.workers, Ids(targets), AreActive);
    assert S.Busies(pools) == Counts(input.workers, Ids(targets), AreBusy);
    forall i | 0 <= i < |targets|
      ensures S.Actives(pools)[i] == CountIn(input.workers, targets[i].id, AreActive)
    {
      ActiveSplits(Select(input.workers, InPool(targets[i].id)));
    }
    assert S.Actives(pools) == Counts(input.workers, Ids(targets), AreActive);
  }
}
