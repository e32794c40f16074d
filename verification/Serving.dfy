/** The serving path of BuildPlan (plan.go:270-502) as functions over the
    configured pools in priority order: pool i is the i-th sorted target. */
module Serving {
  import opened Basics
  import opened Memory

  // What the serving path reads about one target.
  datatype Pool = Pool(
    maxCapacity: int,
    warmIdle: int,
    memory: nat,      // effective worker memory
    margin: nat,      // extra headroom that growth must find
    busy: nat,
    nonbusy: nat,     // starting or idle workers
    ready: bool,
    reserved: int,    // assigned jobs, at most maxCapacity
    overCap: bool,    // more jobs assigned than maxCapacity
    previous: int)    // hysteresis baseline
  {
    predicate Valid() {
      reserved <= maxCapacity
    }

    predicate Servable(host: Host) {
      !host.Debt() && ready && !overCap
    }
  }

  datatype Host = Host(
    limit: nat,
    busy: nat,          // busy workers, unknown pools included
    active: nat,        // active workers, unknown pools included
    floorBlocked: bool,
    memory: nat)
  {
    predicate Debt() {
      busy > limit
    }
  }

  ghost predicate ValidFleet(pools: seq<Pool>, host: Host) {
    && host.limit <= MAX_INT
    && host.memory < TWO_64
    && (forall i :: 0 <= i < |pools| ==> pools[i].Valid())
    && Sum(Busies(pools)) <= host.busy
    && Sum(Actives(pools)) <= host.active
  }

  function Busies(pools: seq<Pool>): seq<int> {
    seq(|pools|, i requires 0 <= i < |pools| => pools[i].busy)
  }

  function Actives(pools: seq<Pool>): seq<int> {
    seq(|pools|, i requires 0 <= i < |pools| => pools[i].busy + pools[i].nonbusy)
  }

  function Memories(pools: seq<Pool>): seq<int> {
    seq(|pools|, i requires 0 <= i < |pools| => pools[i].memory)
  }

  // ----- Allocation passes ------------------------------------------------

  datatype Alloc = Alloc(
    desired: seq<int>,
    counted: seq<int>,   // nonbusy workers already claimed
    clamped: seq<bool>,
    remaining: int,
    memory: int)
  {
    predicate Sized(n: nat) {
      |desired| == |counted| == |clamped| == n
    }
  }

  function Initial(pools: seq<Pool>, host: Host): (r: Alloc)
    ensures r.Sized(|pools|)
  {
    Alloc(Busies(pools),
          seq(|pools|, _ => 0),
          seq(|pools|, _ => false),
          Max(host.limit - host.busy, 0),
          host.memory)
  }

  // The allocate closure: claim existing workers, then fund new ones.
  function Allocate(p: Pool, floorBlocked: bool, a: Alloc, i: nat, requested: int): (r: Alloc)
    requires a.Sized(|a.desired|) && i < |a.desired|
    ensures r.Sized(|a.desired|)
  {
    var current := a.desired[i];
    if requested <= current then a
    else
      var need := requested - current;
      var existing := Min(need, Min(p.nonbusy - a.counted[i], a.remaining));
      var left := a.remaining - existing;
      var prospective := Min(need - existing, left);
      var affordable := if floorBlocked then 0 else Affordable(a.memory, p.memory);
      var starts := Min(prospective, affordable);
      Alloc(a.desired[i := current + existing + starts],
            a.counted[i := a.counted[i] + existing],
            a.clamped[i := a.clamped[i] || starts < prospective],
            left - starts,
            Wrap64(a.memory - starts * p.memory))
  }

  // Workers a pass asks for: assigned jobs first, warm idle second.
  function Request(p: Pool, warm: bool): int {
    if warm
    then Max(Max(Min(p.maxCapacity, p.reserved + p.warmIdle), p.reserved), p.busy)
    else Max(p.reserved, p.busy)
  }

  // The state after a pass has visited the first k pools.
  function Pass(pools: seq<Pool>, host: Host, warm: bool, a: Alloc, k: nat): (r: Alloc)
    requires k <= |pools| && a.Sized(|pools|)
    ensures r.Sized(|pools|)
  {
    if k == 0 then a
    else
      var before := Pass(pools, host, warm, a, k - 1);
      var p := pools[k - 1];
      if p.ready then Allocate(p, host.floorBlocked, before, k - 1, Request(p, warm)) else before
  }

  function Assigned(pools: seq<Pool>, host: Host): (r: Alloc)
    ensures r.Sized(|pools|)
  {
    Pass(pools, host, false, Initial(pools, host), |pools|)
  }

  function Allocated(pools: seq<Pool>, host: Host): (r: Alloc)
    ensures r.Sized(|pools|)
  {
    Pass(pools, host, true, Assigned(pools, host), |pools|)
  }

  // Workers beyond the busy ones, and those among them that must be started.
  function Taken(pools: seq<Pool>, a: Alloc): seq<int>
    requires a.Sized(|pools|)
  {
    seq(|pools|, i requires 0 <= i < |pools| => a.desired[i] - pools[i].busy)
  }

  function Funded(pools: seq<Pool>, a: Alloc): seq<int>
    requires a.Sized(|pools|)
  {
    seq(|pools|, i requires 0 <= i < |pools| => a.desired[i] - pools[i].busy - a.counted[i])
  }

  // What every allocation keeps: existing workers are claimed before any is
  // funded, and host slots and memory are conserved.
  ghost predicate Balanced(pools: seq<Pool>, host: Host, a: Alloc) {
    && a.Sized(|pools|)
    && 0 <= a.remaining <= MAX_INT
    && 0 <= a.memory <= host.memory < TWO_64
    && (forall i :: 0 <= i < |pools| ==> 0 <= a.counted[i] <= pools[i].nonbusy)
    && (forall i :: 0 <= i < |pools| ==> pools[i].busy + a.counted[i] <= a.desired[i])
    && (forall i :: 0 <= i < |pools| && pools[i].busy + a.counted[i] < a.desired[i] ==>
                      a.counted[i] == pools[i].nonbusy && !host.floorBlocked)
    && Sum(Taken(pools, a)) + a.remaining == Max(host.limit - host.busy, 0)
    && Weighted(Memories(pools), Funded(pools, a)) + a.memory == host.memory
  }

  lemma InitialBalanced(pools: seq<Pool>, host: Host)
    requires host.limit <= MAX_INT && host.memory < TWO_64
    ensures Balanced(pools, host, Initial(pools, host))
  {
    var a := Initial(pools, host);
    SumZero(Taken(pools, a));
    WeightedZero(Memories(pools), Funded(pools, a));
  }

  lemma StartsFit(memory: int, worker: nat, starts: int)
    requires 0 <= memory < TWO_64 && 0 <= starts && (starts == 0 || starts <= Affordable(memory, worker))
    ensures 0 <= starts * worker <= memory && Wrap64(memory - starts * worker) == memory - starts * worker
  {
    if 0 < starts { ScaleMonotone(starts, Affordable(memory, worker), worker); }
    ScaleMonotone(0, starts, worker);
  }

  lemma NoneLeftOver(memory: nat, worker: nat)
    requires 0 < worker && Affordable(memory, worker) < MAX_INT
    ensures memory - Affordable(memory, worker) * worker < worker
  {
    Distribute(Affordable(memory, worker), 1, worker);
  }

  lemma AllocateTakes(p: Pool, floorBlocked: bool, a: Alloc, i: nat, requested: int)
    requires a.Sized(|a.desired|) && i < |a.desired|
    requires 0 <= a.memory < TWO_64 && 0 <= a.remaining <= MAX_INT && 0 <= a.counted[i] <= p.nonbusy
    ensures var r := Allocate(p, floorBlocked, a, i, requested);
            var existing := r.counted[i] - a.counted[i];
            var starts := r.desired[i] - a.desired[i] - existing;
            && r.desired == a.desired[i := a.desired[i] + existing + starts]
            && r.counted == a.counted[i := a.counted[i] + existing]
            && 0 <= existing && 0 <= starts && r.counted[i] <= p.nonbusy
            && (0 < starts ==> r.counted[i] == p.nonbusy && !floorBlocked)
            && r.remaining == a.remaining - existing - starts >= 0
            && r.memory == a.memory - starts * p.memory
            && 0 <= starts * p.memory <= a.memory
  {
    hide Affordable, Wrap64;
    if a.desired[i] < requested {
      var need := requested - a.desired[i];
      var existing := Min(need, Min(p.nonbusy - a.counted[i], a.remaining));
      var prospective := Min(need - existing, a.remaining - existing);
      StartsFit(a.memory, p.memory, Min(prospective, if floorBlocked then 0 else Affordable(a.memory, p.memory)));
    }
  }

  lemma AllocateSaturates(p: Pool, floorBlocked: bool, a: Alloc, i: nat, requested: int)
    requires a.Sized(|a.desired|) && i < |a.desired|
    requires 0 <= a.memory < TWO_64 && 0 <= a.remaining <= MAX_INT && 0 <= a.counted[i] <= p.nonbusy
    ensures Saturated(p, floorBlocked, Allocate(p, floorBlocked, a, i, requested), i, requested)
  {
    hide Affordable, Wrap64;
    if a.desired[i] < requested {
      var need := requested - a.desired[i];
      var existing := Min(need, Min(p.nonbusy - a.counted[i], a.remaining));
      var prospective := Min(need - existing, a.remaining - existing);
      var starts := Min(prospective, if floorBlocked then 0 else Affordable(a.memory, p.memory));
      StartsFit(a.memory, p.memory, starts);
      if starts < prospective && !floorBlocked && 0 < p.memory { NoneLeftOver(a.memory, p.memory); }
    }
  }

  // What an allocation does, with no unsigned underflow: existing workers are
  // claimed first, and the memory taken for new ones was there.
  lemma AllocateEffect(p: Pool, floorBlocked: bool, a: Alloc, i: nat, requested: int)
    requires a.Sized(|a.desired|) && i < |a.desired|
    requires 0 <= a.memory < TWO_64 && 0 <= a.remaining <= MAX_INT && 0 <= a.counted[i] <= p.nonbusy
    ensures var r := Allocate(p, floorBlocked, a, i, requested);
            var existing := r.counted[i] - a.counted[i];
            var starts := r.desired[i] - a.desired[i] - existing;
            && r.desired == a.desired[i := a.desired[i] + existing + starts]
            && r.counted == a.counted[i := a.counted[i] + existing]
            && 0 <= existing && 0 <= starts && r.counted[i] <= p.nonbusy
            && (0 < starts ==> r.counted[i] == p.nonbusy && !floorBlocked)
            && r.remaining == a.remaining - existing - starts >= 0
            && r.memory == a.memory - starts * p.memory
            && 0 <= starts * p.memory <= a.memory
            && Saturated(p, floorBlocked, r, i, requested)
  {
    hide Allocate, Saturated;
    AllocateTakes(p, floorBlocked, a, i, requested);
    AllocateSaturates(p, floorBlocked, a, i, requested);
  }

  lemma AllocateTotals(pools: seq<Pool>, host: Host, a: Alloc, i: nat, requested: int)
    requires Balanced(pools, host, a) && i < |pools|
    ensures var r := Allocate(pools[i], host.floorBlocked, a, i, requested);
            && Sum(Taken(pools, r)) + r.remaining == Sum(Taken(pools, a)) + a.remaining
            && Weighted(Memories(pools), Funded(pools, r)) + r.memory
                 == Weighted(Memories(pools), Funded(pools, a)) + a.memory
  {
    hide Allocate, Sum, Weighted, Saturated;
    var r := Allocate(pools[i], host.floorBlocked, a, i, requested);
    AllocateEffect(pools[i], host.floorBlocked, a, i, requested);
    var taken, funded := Taken(pools, a), Funded(pools, a);
    assert Taken(pools, r) == taken[i := r.desired[i] - pools[i].busy];
    assert Funded(pools, r) == funded[i := r.desired[i] - pools[i].busy - r.counted[i]];
    SumUpdate(taken, i, r.desired[i] - pools[i].busy);
    WeightedUpdate(Memories(pools), funded, i, r.desired[i] - pools[i].busy - r.counted[i]);
    Distribute(funded[i], r.desired[i] - pools[i].busy - r.counted[i] - funded[i], pools[i].memory);
  }

  lemma AllocateBalanced(pools: seq<Pool>, host: Host, a: Alloc, i: nat, requested: int)
    requires Balanced(pools, host, a) && i < |pools|
    ensures Balanced(pools, host, Allocate(pools[i], host.floorBlocked, a, i, requested))
  {
    hide Allocate, Sum, Weighted, Taken, Funded, Memories, Saturated;
    AllocateEffect(pools[i], host.floorBlocked, a, i, requested);
    AllocateTotals(pools, host, a, i, requested);
  }

  lemma {:induction false} PassBalanced(pools: seq<Pool>, host: Host, warm: bool, a: Alloc, k: nat)
    requires a.Sized(|pools|) && Balanced(pools, host, a) && k <= |pools|
    ensures Balanced(pools, host, Pass(pools, host, warm, a, k))
  {
    hide Allocate, Balanced, Request;
    if k > 0 {
      PassBalanced(pools, host, warm, a, k - 1);
      if pools[k - 1].ready {
        AllocateBalanced(pools, host, Pass(pools, host, warm, a, k - 1), k - 1, Request(pools[k - 1], warm));
      }
    }
  }

  lemma AllocatedBalanced(pools: seq<Pool>, host: Host)
    requires host.limit <= MAX_INT && host.memory < TWO_64
    ensures Balanced(pools, host, Assigned(pools, host))
    ensures Balanced(pools, host, Allocated(pools, host))
  {
    InitialBalanced(pools, host);
    PassBalanced(pools, host, false, Initial(pools, host), |pools|);
    PassBalanced(pools, host, true, Assigned(pools, host), |pools|);
  }

  // ----- Assignments beat warm idle ---------------------------------------

  // A later request for at most r workers changes nothing but the clamp mark.
  ghost predicate Saturated(p: Pool, floorBlocked: bool, a: Alloc, i: nat, r: int)
    requires a.Sized(|a.desired|) && i < |a.desired|
  {
    || r <= a.desired[i]
    || a.remaining == 0
    || (a.counted[i] == p.nonbusy && (floorBlocked || p.memory == 0 || a.memory < p.memory))
  }

  // Everything an allocation consumes only shrinks, everything it grants only grows.
  ghost predicate Below(a: Alloc, b: Alloc) {
    && a.Sized(|a.desired|) && b.Sized(|a.desired|)
    && b.remaining <= a.remaining && b.memory <= a.memory
    && (forall i :: 0 <= i < |a.desired| ==> a.desired[i] <= b.desired[i])
    && (forall i :: 0 <= i < |a.desired| ==> a.counted[i] <= b.counted[i])
  }

  ghost predicate SameWorkers(a: Alloc, b: Alloc) {
    a.(clamped := b.clamped) == b
  }

  lemma AllocateBelow(pools: seq<Pool>, host: Host, a: Alloc, i: nat, requested: int)
    requires Balanced(pools, host, a) && i < |pools|
    ensures var r := Allocate(pools[i], host.floorBlocked, a, i, requested);
            Below(a, r) && Saturated(pools[i], host.floorBlocked, r, i, requested)
  {
    hide Allocate;
    AllocateEffect(pools[i], host.floorBlocked, a, i, requested);
  }

  lemma BelowReflexive(a: Alloc)
    requires a.Sized(|a.desired|)
    ensures Below(a, a)
  {
  }

  lemma BelowTransitive(a: Alloc, b: Alloc, c: Alloc)
    requires Below(a, b) && Below(b, c)
    ensures Below(a, c)
  {
  }

  lemma {:induction false} PassBelow(pools: seq<Pool>, host: Host, warm: bool, a: Alloc, j: nat, k: nat)
    requires a.Sized(|pools|) && Balanced(pools, host, a) && j <= k <= |pools|
    ensures Below(Pass(pools, host, warm, a, j), Pass(pools, host, warm, a, k))
    decreases k
  {
    hide Allocate, Balanced, Below, Request, Saturated;
    if j == k {
      BelowReflexive(Pass(pools, host, warm, a, k));
    } else {
      PassBelow(pools, host, warm, a, j, k - 1);
      PassBalanced(pools, host, warm, a, k - 1);
      if pools[k - 1].ready {
        var before := Pass(pools, host, warm, a, k - 1);
        AllocateBelow(pools, host, before, k - 1, Request(pools[k - 1], warm));
        BelowTransitive(Pass(pools, host, warm, a, j), before, Pass(pools, host, warm, a, k));
      }
    }
  }

  lemma SaturatedStays(pools: seq<Pool>, host: Host, a: Alloc, b: Alloc, i: nat, r: int)
    requires Balanced(pools, host, a) && Balanced(pools, host, b) && Below(a, b) && i < |pools|
    requires Saturated(pools[i], host.floorBlocked, a, i, r)
    ensures Saturated(pools[i], host.floorBlocked, b, i, r)
    ensures SameWorkers(b, Allocate(pools[i], host.floorBlocked, b, i, r))
  {
    hide Sum, Weighted;
    var p := pools[i];
    var c := Allocate(p, host.floorBlocked, b, i, r);
    if b.desired[i] < r {
      if b.remaining > 0 && !host.floorBlocked && 0 < p.memory {
        assert Affordable(b.memory, p.memory) == 0 by {
          ScaleMonotone(1, Max(1, Affordable(b.memory, p.memory)), p.memory);
        }
      }
      assert c.desired == b.desired && c.counted == b.counted;
    }
  }

  // After the first pass every ready pool's assignment is met or cannot be.
  lemma AssignedSaturates(pools: seq<Pool>, host: Host, i: nat)
    requires host.limit <= MAX_INT && host.memory < TWO_64
    requires i < |pools| && pools[i].ready
    ensures Saturated(pools[i], host.floorBlocked, Assigned(pools, host), i, Request(pools[i], false))
  {
    hide Allocate, Balanced, Saturated, Below, Request, Initial;
    var a := Initial(pools, host);
    InitialBalanced(pools, host);
    PassBalanced(pools, host, false, a, i);
    AllocateBelow(pools, host, Pass(pools, host, false, a, i), i, Request(pools[i], false));
    PassBalanced(pools, host, false, a, i + 1);
    PassBalanced(pools, host, false, a, |pools|);
    PassBelow(pools, host, false, a, i + 1, |pools|);
    SaturatedStays(pools, host, Pass(pools, host, false, a, i + 1), Assigned(pools, host), i,
                   Request(pools[i], false));
  }

  function WithoutWarmIdle(pools: seq<Pool>): seq<Pool> {
    seq(|pools|, i requires 0 <= i < |pools| => pools[i].(warmIdle := 0))
  }

  lemma AllocateAgrees(p: Pool, q: Pool, floorBlocked: bool, a: Alloc, i: nat, requested: int)
    requires p.memory == q.memory && p.nonbusy == q.nonbusy
    requires a.Sized(|a.desired|) && i < |a.desired|
    ensures Allocate(p, floorBlocked, a, i, requested) == Allocate(q, floorBlocked, a, i, requested)
  {
  }

  // A pass reads only readiness, the request, idle workers and worker memory.
  lemma {:induction false} PassAgrees(pools: seq<Pool>, others: seq<Pool>, host: Host, warm: bool, a: Alloc, k: nat)
    requires a.Sized(|pools|) && k <= |pools| == |others|
    requires forall i :: 0 <= i < |pools| ==>
                           && pools[i].memory == others[i].memory && pools[i].nonbusy == others[i].nonbusy
                           && pools[i].ready == others[i].ready
                           && Request(pools[i], warm) == Request(others[i], warm)
    ensures Pass(others, host, warm, a, k) == Pass(pools, host, warm, a, k)
  {
    if k > 0 {
      PassAgrees(pools, others, host, warm, a, k - 1);
      var before := Pass(pools, host, warm, a, k - 1);
      AllocateAgrees(pools[k - 1], others[k - 1], host.floorBlocked, before, k - 1, Request(pools[k - 1], warm));
    }
  }

  // With no warm idle anywhere, the second pass is idle.
  lemma {:induction false} ColdPassIdle(pools: seq<Pool>, host: Host, k: nat)
    requires host.limit <= MAX_INT && host.memory < TWO_64
    requires forall i :: 0 <= i < |pools| ==> pools[i].Valid() && pools[i].warmIdle == 0
    requires k <= |pools|
    ensures SameWorkers(Assigned(pools, host), Pass(pools, host, true, Assigned(pools, host), k))
  {
    hide Allocate, Saturated, Sum, Weighted, Assigned;
    if k > 0 {
      ColdPassIdle(pools, host, k - 1);
      var p := pools[k - 1];
      if p.ready {
        AllocatedBalanced(pools, host);
        var before := Pass(pools, host, true, Assigned(pools, host), k - 1);
        PassBalanced(pools, host, true, Assigned(pools, host), k - 1);
        AssignedSaturates(pools, host, k - 1);
        assert Request(p, true) == Request(p, false);
        SaturatedStays(pools, host, Assigned(pools, host), before, k - 1, Request(p, true));
      }
    }
  }

  // No pool's warm-idle preference takes a worker from an assigned job.
  lemma AssignmentsBeatWarmIdle(pools: seq<Pool>, host: Host, i: nat)
    requires ValidFleet(pools, host) && i < |pools|
    ensures Allocated(WithoutWarmIdle(pools), host).desired[i] <= Allocated(pools, host).desired[i]
    ensures Allocated(WithoutWarmIdle(pools), host).desired[i] == Assigned(pools, host).desired[i]
  {
    var cold := WithoutWarmIdle(pools);
    assert Initial(cold, host) == Initial(pools, host) by {
      assert Busies(cold) == Busies(pools);
    }
    PassAgrees(pools, cold, host, false, Initial(pools, host), |pools|);
    assert Assigned(cold, host) == Assigned(pools, host);
    ColdPassIdle(cold, host, |cold|);
    AllocatedBalanced(pools, host);
    PassBelow(pools, host, true, Assigned(pools, host), 0, |pools|);
  }
}
