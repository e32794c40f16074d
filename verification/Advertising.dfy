/** The second half of the serving path (plan.go:371-502): start and removal
    decisions, burst inventory, and service slots behind a memory Schmitt
    trigger. */
module Advertising {
  import opened Basics
  import opened Memory
  import opened Serving

  // ----- Per-pool decisions -----------------------------------------------

  datatype Decision = Decision(start: int, drop: int, advertised: int, advertisable: bool, burst: bool)

  function Decide(p: Pool, host: Host, desired: int): Decision {
    var active := p.busy + p.nonbusy;
    var start := Max(desired - active, 0);
    if active > desired then
      var excess := active - desired;
      if excess == 1 && host.limit > 0 && p.maxCapacity > 0 && p.Servable(host)
      then Decision(start, 0, desired, true, true)
      else Decision(start, excess, 0, false, false)
    else if p.Servable(host) then Decision(start, 0, desired, true, false)
    else Decision(start, 0, 0, false, false)
  }

  function Decisions(pools: seq<Pool>, host: Host, desired: seq<int>): (ds: seq<Decision>)
    requires |desired| == |pools|
    ensures |ds| == |pools|
  {
    seq(|pools|, i requires 0 <= i < |pools| => Decide(pools[i], host, desired[i]))
  }

  function Starts(ds: seq<Decision>): (s: seq<int>)
    ensures |s| == |ds|
  {
    seq(|ds|, i requires 0 <= i < |ds| => ds[i].start)
  }

  // ----- Burst inventory --------------------------------------------------

  datatype Offer = Offer(advertised: seq<int>, advertisable: seq<bool>, drop: seq<int>, budget: int)
  {
    predicate Sized(n: nat) {
      |advertised| == |advertisable| == |drop| == n
    }
  }

  function FirstOffer(ds: seq<Decision>, limit: int): (o: Offer)
    ensures o.Sized(|ds|)
  {
    var advertised := seq(|ds|, i requires 0 <= i < |ds| => ds[i].advertised);
    Offer(advertised,
          seq(|ds|, i requires 0 <= i < |ds| => ds[i].advertisable),
          seq(|ds|, i requires 0 <= i < |ds| => ds[i].drop),
          Max(limit - Sum(advertised), 0))
  }

  // Burst candidates below k whose advertised capacity is zero, or is not.
  function Candidates(ds: seq<Decision>, zero: bool, k: nat): (c: seq<nat>)
    requires k <= |ds|
    ensures forall x :: 0 <= x < |c| ==> c[x] < k && ds[c[x]].burst && (ds[c[x]].advertised == 0) == zero
    ensures forall i :: 0 <= i < k && ds[i].burst && (ds[i].advertised == 0) == zero ==> i in c
    ensures forall x, y :: 0 <= x < y < |c| ==> c[x] < c[y]
  {
    if k == 0 then []
    else
      var rest := Candidates(ds, zero, k - 1);
      if ds[k - 1].burst && (ds[k - 1].advertised == 0) == zero then rest + [k - 1] else rest
  }

  // The stable sort by "advertises zero": zero pools first, then priority.
  function BurstOrder(ds: seq<Decision>): (order: seq<nat>)
    ensures forall x :: 0 <= x < |order| ==> order[x] < |ds| && ds[order[x]].burst
    ensures forall i :: 0 <= i < |ds| && ds[i].burst ==> i in order
    ensures forall x, y :: 0 <= x < y < |order| ==> order[x] != order[y]
  {
    Candidates(ds, true, |ds|) + Candidates(ds, false, |ds|)
  }

  function BurstStep(p: Pool, o: Offer, i: nat): (r: Offer)
    requires o.Sized(|o.drop|) && i < |o.drop|
    ensures r.Sized(|o.drop|)
  {
    var bump := if o.advertised[i] < p.maxCapacity && o.budget > 0 then 1 else 0;
    var capacity := o.advertised[i] + bump;
    Offer(o.advertised[i := capacity],
          if capacity == 0 then o.advertisable[i := false] else o.advertisable,
          if capacity == 0 then o.drop[i := o.drop[i] + 1] else o.drop,
          o.budget - bump)
  }

  function Burst(pools: seq<Pool>, order: seq<nat>, o: Offer, k: nat): (r: Offer)
    requires k <= |order| && o.Sized(|pools|)
    requires forall x :: 0 <= x < |order| ==> order[x] < |pools|
    ensures r.Sized(|pools|)
  {
    if k == 0 then o
    else
      var i := order[k - 1];
      BurstStep(pools[i], Burst(pools, order, o, k - 1), i)
  }

  // ----- Service slots ----------------------------------------------------

  datatype Service = Service(advertised: seq<int>, clamped: seq<bool>, slots: int, budget: int, memory: int)
  {
    predicate Sized(n: nat) {
      |advertised| == |clamped| == n
    }
  }

  // Slots a pool may add, keeps from before, and newly grows.
  datatype Share = Share(limit: int, held: int, growth: int)
  {
    function Additional(): int {
      held + growth
    }
  }

  // Hold what was advertised before, then grow past it with a margin to spare.
  function Claim(p: Pool, floorBlocked: bool, limit: int, wanted: int, memory: int): Share {
    var held := Min(Min(limit, wanted), Affordable(memory, p.memory));
    // A pool past its cap has a negative limit: uint64(held) wraps here.
    var afterHeld := Wrap64(memory - Wrap64(held) * p.memory);
    var growth := Min(limit - held, AffordableWithMargin(afterHeld, p.memory, p.margin));
    Share(limit, held, if floorBlocked then 0 else growth)
  }

  function ShareOf(p: Pool, floorBlocked: bool, current: int, slots: int, budget: int, memory: int): Share {
    Claim(p, floorBlocked, Min(Min(p.maxCapacity - current, slots), budget), Max(p.previous - current, 0), memory)
  }

  function Grant(s: Service, i: nat, worker: nat, limit: int, additional: int): (r: Service)
    requires s.Sized(|s.clamped|) && i < |s.clamped|
    ensures r.Sized(|s.clamped|)
  {
    var marked := s.(clamped := s.clamped[i := s.clamped[i] || additional < limit]);
    if additional <= 0 then marked
    else marked.(
      advertised := s.advertised[i := s.advertised[i] + additional],
      slots := s.slots - additional,
      budget := s.budget - additional,
      memory := Wrap64(s.memory - additional * worker))
  }

  function Serve(p: Pool, floorBlocked: bool, s: Service, i: nat): (r: Service)
    requires s.Sized(|s.clamped|) && i < |s.clamped|
    ensures r.Sized(|s.clamped|)
  {
    var share := ShareOf(p, floorBlocked, s.advertised[i], s.slots, s.budget, s.memory);
    Grant(s, i, p.memory, share.limit, share.Additional())
  }

  function ServePass(pools: seq<Pool>, floorBlocked: bool, advertisable: seq<bool>, s: Service, k: nat): (r: Service)
    requires k <= |pools| == |advertisable| && s.Sized(|pools|)
    ensures r.Sized(|pools|)
  {
    if k == 0 then s
    else
      var before := ServePass(pools, floorBlocked, advertisable, s, k - 1);
      if !advertisable[k - 1] || before.slots == 0 then before
      else Serve(pools[k - 1], floorBlocked, before, k - 1)
  }

  // ----- The serving plan -------------------------------------------------

  datatype ServingPlan = ServingPlan(
    desired: seq<int>,
    start: seq<int>,
    drop: seq<int>,        // active workers removed, per pool
    advertised: seq<int>,
    clamped: seq<bool>,
    headroom: int)

  function Bursted(pools: seq<Pool>, host: Host): (o: Offer)
    ensures o.Sized(|pools|)
  {
    var ds := Decisions(pools, host, Allocated(pools, host).desired);
    var order := BurstOrder(ds);
    Burst(pools, order, FirstOffer(ds, host.limit), |order|)
  }

  function FirstService(pools: seq<Pool>, host: Host): (s: Service)
    ensures s.Sized(|pools|)
  {
    var a := Allocated(pools, host);
    var ds := Decisions(pools, host, a.desired);
    var o := Bursted(pools, host);
    Service(o.advertised, a.clamped, Max(host.limit - host.active - Sum(Starts(ds)), 0), o.budget, a.memory)
  }

  function PlanServing(pools: seq<Pool>, host: Host): (plan: ServingPlan)
    ensures |plan.desired| == |plan.start| == |plan.drop| == |plan.advertised| == |plan.clamped| == |pools|
  {
    var a := Allocated(pools, host);
    var ds := Decisions(pools, host, a.desired);
    var o := Bursted(pools, host);
    var first := FirstService(pools, host);
    var s := if host.Debt() then first
             else ServePass(pools, host.floorBlocked, o.advertisable, first, |pools|);
    ServingPlan(a.desired, Starts(ds), o.drop, s.advertised, s.clamped, s.memory)
  }

  // ----- Starts are the funded workers ------------------------------------

  lemma StartsAreFunded(pools: seq<Pool>, host: Host)
    requires ValidFleet(pools, host)
    ensures PlanServing(pools, host).start == Funded(pools, Allocated(pools, host))
    ensures host.floorBlocked ==> forall i :: 0 <= i < |pools| ==> PlanServing(pools, host).start[i] == 0
  {
    hide Allocated, Bursted, FirstService, ServePass, Sum, Weighted;
    AllocatedBalanced(pools, host);
  }

  // ----- Total desired ----------------------------------------------------

  lemma DesiredWithinHost(pools: seq<Pool>, host: Host)
    requires ValidFleet(pools, host)
    ensures Sum(PlanServing(pools, host).desired) <= Max(host.limit, host.busy)
  {
    var a := Allocated(pools, host);
    AllocatedBalanced(pools, host);
    SumAdd(Busies(pools), Taken(pools, a), a.desired);
  }

  // ----- The advertisement budget -----------------------------------------

  // Advertised capacity and what is left of the budget make up the host limit.
  ghost predicate Budgeted(host: Host, o: Offer) {
    && 0 <= o.budget
    && Sum(o.advertised) + o.budget == host.limit
    && (forall i :: 0 <= i < |o.advertised| ==> 0 <= o.advertised[i])
  }

  lemma FirstOfferBudgeted(pools: seq<Pool>, host: Host)
    requires ValidFleet(pools, host)
    ensures var ds := Decisions(pools, host, Allocated(pools, host).desired);
            Budgeted(host, FirstOffer(ds, host.limit))
  {
    var a := Allocated(pools, host);
    var ds := Decisions(pools, host, a.desired);
    var o := FirstOffer(ds, host.limit);
    AllocatedBalanced(pools, host);
    if host.Debt() {
      SumZero(o.advertised);
    } else {
      SumMonotone(o.advertised, a.desired);
      DesiredWithinHost(pools, host);
    }
  }

  lemma {:induction false} BurstBudgeted(pools: seq<Pool>, host: Host, order: seq<nat>, o: Offer, k: nat)
    requires k <= |order| && o.Sized(|pools|) && Budgeted(host, o)
    requires forall x :: 0 <= x < |order| ==> order[x] < |pools|
    ensures Budgeted(host, Burst(pools, order, o, k))
  {
    if k > 0 {
      BurstBudgeted(pools, host, order, o, k - 1);
      var before := Burst(pools, order, o, k - 1);
      var i := order[k - 1];
      SumUpdate(before.advertised, i, BurstStep(pools[i], before, i).advertised[i]);
    }
  }

  lemma BurstedBudgeted(pools: seq<Pool>, host: Host)
    requires ValidFleet(pools, host)
    ensures Budgeted(host, Bursted(pools, host))
  {
    var ds := Decisions(pools, host, Allocated(pools, host).desired);
    FirstOfferBudgeted(pools, host);
    BurstBudgeted(pools, host, BurstOrder(ds), FirstOffer(ds, host.limit), |BurstOrder(ds)|);
  }

  // ----- One service share ------------------------------------------------

  // A share never overdraws a limit it is subject to, and the wrap-around of a
  // negative share leaves no trace: it grows by nothing and is skipped.
  lemma ClaimFits(p: Pool, floorBlocked: bool, limit: int, wanted: nat, memory: int)
    requires 0 <= memory < TWO_64
    ensures var s := Claim(p, floorBlocked, limit, wanted, memory);
            && s.limit == limit && s.held <= limit && 0 <= s.growth && s.Additional() <= limit
            && (0 <= limit ==> 0 <= s.held)
            && (limit < 0 ==> s.held == limit && s.growth == 0)
            && (0 <= limit ==> s.Additional() * p.memory <= memory)
            && (0 < s.growth ==> s.Additional() * p.memory + p.margin <= memory)
            && (p.memory == 0 ==> s.Additional() <= 0)
  {
    var s := Claim(p, floorBlocked, limit, wanted, memory);
    if 0 <= limit {
      HeldFits(p, s.held, memory);
      Distribute(s.held, s.growth, p.memory);
      ScaleMonotone(s.growth, AffordableWithMargin(memory - s.held * p.memory, p.memory, p.margin), p.memory);
    }
  }

  lemma HeldFits(p: Pool, held: int, memory: int)
    requires 0 <= memory < TWO_64 && 0 <= held <= Affordable(memory, p.memory)
    ensures 0 <= held * p.memory <= memory
    ensures Wrap64(memory - Wrap64(held) * p.memory) == memory - held * p.memory
  {
    ScaleMonotone(held, Affordable(memory, p.memory), p.memory);
    ScaleMonotone(0, held, p.memory);
    assert Wrap64(held) == held;
  }

  // n slots fit: held from before and affordable, or affordable with the
  // margin to spare where the host is above its memory floor.
  ghost predicate SlotsFit(p: Pool, floorBlocked: bool, wanted: int, memory: int, n: int) {
    || (n <= wanted && n * p.memory <= memory)
    || (!floorBlocked && n * p.memory + p.margin <= memory)
  }

  /** A share is the largest number of slots within its limit that fits: the
      lower threshold keeps what was advertised, the higher one lets it grow. */
  lemma ClaimIsLargest(p: Pool, floorBlocked: bool, limit: int, wanted: nat, memory: int, more: int)
    requires 0 <= memory < TWO_64 && 0 <= limit <= MAX_INT && 0 < p.memory
    ensures var n := Claim(p, floorBlocked, limit, wanted, memory).Additional();
            && 0 <= n <= limit && (n == 0 || SlotsFit(p, floorBlocked, wanted, memory, n))
            && (n < more <= limit ==> !SlotsFit(p, floorBlocked, wanted, memory, more))
  {
    hide Claim;
    ClaimFits(p, floorBlocked, limit, wanted, memory);
    if Claim(p, floorBlocked, limit, wanted, memory).Additional() < more <= limit {
      MoreDoesNotFit(p, floorBlocked, limit, wanted, memory, more);
    }
    HeldOrGrown(p, floorBlocked, limit, wanted, memory);
  }

  lemma HeldOrGrown(p: Pool, floorBlocked: bool, limit: int, wanted: nat, memory: int)
    requires 0 <= memory < TWO_64 && 0 <= limit
    ensures var s := Claim(p, floorBlocked, limit, wanted, memory);
            s.held <= wanted && (0 < s.growth ==> !floorBlocked)
  {
  }

  lemma MoreDoesNotFit(p: Pool, floorBlocked: bool, limit: int, wanted: nat, memory: int, more: int)
    requires 0 <= memory < TWO_64 && limit <= MAX_INT && 0 < p.memory
    requires 0 <= limit && Claim(p, floorBlocked, limit, wanted, memory).Additional() < more <= limit
    ensures !SlotsFit(p, floorBlocked, wanted, memory, more)
  {
    hide Affordable, AffordableWithMargin;
    var s := Claim(p, floorBlocked, limit, wanted, memory);
    ClaimFits(p, floorBlocked, limit, wanted, memory);
    HeldFits(p, s.held, memory);
    AffordsIffFits(memory, p.memory, more);
    if !floorBlocked {
      var left := memory - s.held * p.memory;
      var growth := AffordableWithMargin(left, p.memory, p.margin);
      ScaleMonotone(growth + 1, more - s.held, p.memory);
      Distribute(more - s.held, s.held, p.memory);
    }
  }

  // ----- The service pass conserves memory, slots and budget --------------

  ghost predicate Serviced(pools: seq<Pool>, host: Host, first: Service, s: Service) {
    && first.Sized(|pools|) && s.Sized(|pools|)
    && 0 <= s.slots && 0 <= s.budget <= MAX_INT && 0 <= s.memory <= first.memory < TWO_64
    && (forall i :: 0 <= i < |pools| ==> 0 <= first.advertised[i] <= s.advertised[i])
    && Sum(s.advertised) + s.budget == host.limit
    && Weighted(Memories(pools), Extra(first.advertised, s.advertised)) + s.memory == first.memory
  }

  function Extra(before: seq<int>, after: seq<int>): (e: seq<int>)
    requires |before| == |after|
    ensures |e| == |before|
  {
    seq(|before|, i requires 0 <= i < |before| => after[i] - before[i])
  }

  lemma GrantEffect(s: Service, i: nat, worker: nat, limit: int, additional: int)
    requires s.Sized(|s.clamped|) && i < |s.clamped| && 0 <= s.memory < TWO_64
    requires 0 < additional ==> additional * worker <= s.memory
    ensures var extra := Max(additional, 0);
            && Grant(s, i, worker, limit, additional).advertised == s.advertised[i := s.advertised[i] + extra]
            && Grant(s, i, worker, limit, additional).slots == s.slots - extra
            && Grant(s, i, worker, limit, additional).budget == s.budget - extra
            && Grant(s, i, worker, limit, additional).memory == s.memory - extra * worker
            && 0 <= extra * worker <= s.memory
  {
    if 0 < additional { ScaleMonotone(0, additional, worker); }
  }

  lemma ServeEffect(p: Pool, floorBlocked: bool, s: Service, i: nat)
    requires s.Sized(|s.clamped|) && i < |s.clamped|
    requires 0 <= s.memory < TWO_64 && 0 <= s.slots && 0 <= s.budget <= MAX_INT
    ensures var r := Serve(p, floorBlocked, s, i);
            var extra := Max(ShareOf(p, floorBlocked, s.advertised[i], s.slots, s.budget, s.memory).Additional(), 0);
            && r.advertised == s.advertised[i := s.advertised[i] + extra]
            && r.slots == s.slots - extra >= 0 && r.budget == s.budget - extra >= 0
            && r.memory == s.memory - extra * p.memory
            && 0 <= extra * p.memory <= s.memory
  {
    hide Claim, Grant;
    var share := ShareOf(p, floorBlocked, s.advertised[i], s.slots, s.budget, s.memory);
    ClaimFits(p, floorBlocked, Min(Min(p.maxCapacity - s.advertised[i], s.slots), s.budget),
              Max(p.previous - s.advertised[i], 0), s.memory);
    GrantEffect(s, i, p.memory, share.limit, share.Additional());
  }

  lemma ServeServiced(pools: seq<Pool>, host: Host, first: Service, s: Service, i: nat)
    requires Serviced(pools, host, first, s) && i < |pools|
    ensures Serviced(pools, host, first, Serve(pools[i], host.floorBlocked, s, i))
  {
    hide Serve, ShareOf;
    var r := Serve(pools[i], host.floorBlocked, s, i);
    ServeEffect(pools[i], host.floorBlocked, s, i);
    SumUpdate(s.advertised, i, r.advertised[i]);
    var before := Extra(first.advertised, s.advertised);
    var after := Extra(first.advertised, r.advertised);
    assert after == before[i := after[i]];
    WeightedUpdate(Memories(pools), before, i, after[i]);
  }

  lemma {:induction false} ServePassServiced(pools: seq<Pool>, host: Host, advertisable: seq<bool>, first: Service,
                                             k: nat)
    requires Serviced(pools, host, first, first) && k <= |pools| == |advertisable|
    ensures Serviced(pools, host, first, ServePass(pools, host.floorBlocked, advertisable, first, k))
  {
    if k > 0 {
      ServePassServiced(pools, host, advertisable, first, k - 1);
      var before := ServePass(pools, host.floorBlocked, advertisable, first, k - 1);
      if advertisable[k - 1] && before.slots != 0 {
        ServeServiced(pools, host, first, before, k - 1);
      }
    }
  }

  lemma FirstServiced(pools: seq<Pool>, host: Host)
    requires ValidFleet(pools, host)
    ensures Serviced(pools, host, FirstService(pools, host), FirstService(pools, host))
  {
    var first := FirstService(pools, host);
    AllocatedBalanced(pools, host);
    BurstedBudgeted(pools, host);
    SumNonNegative(first.advertised);
    WeightedZero(Memories(pools), Extra(first.advertised, first.advertised));
  }

  // Extra slots advertised by the service pass, per pool.
  function ServiceSlots(pools: seq<Pool>, host: Host): (e: seq<int>)
    ensures |e| == |pools|
  {
    Extra(FirstService(pools, host).advertised, PlanServing(pools, host).advertised)
  }

  lemma PlanServiced(pools: seq<Pool>, host: Host)
    requires ValidFleet(pools, host)
    ensures var first := FirstService(pools, host);
            var plan := PlanServing(pools, host);
            && first.memory >= plan.headroom >= 0
            && Sum(plan.advertised) <= host.limit
            && (forall i :: 0 <= i < |pools| ==> 0 <= first.advertised[i] <= plan.advertised[i])
            && Weighted(Memories(pools), ServiceSlots(pools, host)) + plan.headroom == first.memory
  {
    FirstServiced(pools, host);
    ServePassServiced(pools, host, Bursted(pools, host).advertisable, FirstService(pools, host), |pools|);
  }

  // Every serving plan advertises at most the host limit in total.
  lemma AdvertisedWithinHost(pools: seq<Pool>, host: Host)
    requires ValidFleet(pools, host)
    ensures Sum(PlanServing(pools, host).advertised) <= host.limit
    ensures forall i :: 0 <= i < |pools| ==> 0 <= PlanServing(pools, host).advertised[i]
  {
    PlanServiced(pools, host);
  }

  // Memory is conserved: every byte of headroom is left over, spent on a
  // started worker or set aside for an advertised service slot.
  lemma MemoryConserved(pools: seq<Pool>, host: Host)
    requires ValidFleet(pools, host)
    ensures var plan := PlanServing(pools, host);
            && plan.headroom >= 0
            && (forall i :: 0 <= i < |pools| ==> 0 <= plan.start[i] && 0 <= ServiceSlots(pools, host)[i])
            && host.memory == plan.headroom + Weighted(Memories(pools), plan.start)
                              + Weighted(Memories(pools), ServiceSlots(pools, host))
  {
    AllocatedBalanced(pools, host);
    StartsAreFunded(pools, host);
    PlanServiced(pools, host);
  }
}
