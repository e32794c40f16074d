/** BuildPlan's serving loops as the controller runs them, each proved to
    compute the state the specification gives (plan.go:319-501). */
module ServingLoops {
  import opened Basics
  import opened Memory
  import opened Serving
  import opened Advertising

  // The allocate closure (plan.go:319-344).
  method AllocatePool(p: Pool, floorBlocked: bool, a: Alloc, i: nat, requested: int) returns (r: Alloc)
    requires a.Sized(|a.desired|) && i < |a.desired|
    ensures r == Allocate(p, floorBlocked, a, i, requested)
  {
    hide Affordable, Wrap64;
    r := a;
    if requested <= a.desired[i] { return; }
    var need := requested - a.desired[i];
    var existing := Min(need, Min(p.nonbusy - a.counted[i], a.remaining));
    r := r.(counted := a.counted[i := a.counted[i] + existing], remaining := a.remaining - existing);
    var prospective := Min(need - existing, r.remaining);
    var affordable := Affordable(a.memory, p.memory);
    if floorBlocked { affordable := 0; }
    var starts := Min(prospective, affordable);
    if starts < prospective { r := r.(clamped := a.clamped[i := true]); }
    assert r.clamped == a.clamped[i := a.clamped[i] || starts < prospective];
    r := r.(desired := a.desired[i := a.desired[i] + existing + starts],
            remaining := r.remaining - starts,
            memory := Wrap64(a.memory - starts * p.memory));
  }

  // One pass over the ready pools in priority order (plan.go:346-369).
  method AllocatePools(pools: seq<Pool>, host: Host, warm: bool, a: Alloc) returns (r: Alloc)
    requires a.Sized(|pools|)
    ensures r == Pass(pools, host, warm, a, |pools|)
  {
    hide Allocate, Request;
    r := a;
    var i := 0;
    while i < |pools|
      invariant 0 <= i <= |pools|
      invariant r == Pass(pools, host, warm, a, i)
    {
      if pools[i].ready { r := AllocatePool(pools[i], host.floorBlocked, r, i, Request(pools[i], warm)); }
      i := i + 1;
    }
  }

  // One burst candidate: advertise its retained worker, or let it go
  // (plan.go:437-452).
  method OfferBurst(p: Pool, o: Offer, i: nat) returns (r: Offer)
    requires o.Sized(|o.drop|) && i < |o.drop|
    ensures r == BurstStep(p, o, i)
  {
    r := o;
    var capacity := o.advertised[i];
    if capacity < p.maxCapacity && o.budget > 0 {
      r := r.(advertised := o.advertised[i := capacity + 1], budget := o.budget - 1);
      capacity := capacity + 1;
    }
    if capacity == 0 {
      r := r.(advertisable := o.advertisable[i := false], drop := o.drop[i := o.drop[i] + 1]);
    }
    assert r.advertised == o.advertised[i := capacity];
  }

  // Burst inventory shares what is left of the budget (plan.go:425-452).
  method OfferBursts(pools: seq<Pool>, ds: seq<Decision>, limit: int) returns (r: Offer)
    requires |ds| == |pools|
    ensures r == Burst(pools, BurstOrder(ds), FirstOffer(ds, limit), |BurstOrder(ds)|)
  {
    hide BurstStep, FirstOffer, BurstOrder;
    var order := BurstOrder(ds);
    r := FirstOffer(ds, limit);
    var k := 0;
    while k < |order|
      invariant 0 <= k <= |order|
      invariant r == Burst(pools, order, FirstOffer(ds, limit), k)
    {
      r := OfferBurst(pools[order[k]], r, order[k]);
      k := k + 1;
    }
  }

  // One pool's service slots (plan.go:466-499).
  method ServePool(p: Pool, floorBlocked: bool, s: Service, i: nat) returns (r: Service)
    requires s.Sized(|s.clamped|) && i < |s.clamped|
    ensures r == Serve(p, floorBlocked, s, i)
  {
    hide Affordable, AffordableWithMargin, Wrap64;
    r := s;
    var current := s.advertised[i];
    var limit := Min(Min(p.maxCapacity - current, s.slots), s.budget);
    var held := Min(limit, Max(p.previous - current, 0));
    held := Min(held, Affordable(s.memory, p.memory));
    var afterHeld := Wrap64(s.memory - Wrap64(held) * p.memory);
    var growth := Min(limit - held, AffordableWithMargin(afterHeld, p.memory, p.margin));
    if floorBlocked { growth := 0; }
    assert Share(limit, held, growth) == ShareOf(p, floorBlocked, current, s.slots, s.budget, s.memory);
    var additional := held + growth;
    if additional < limit { r := r.(clamped := s.clamped[i := true]); }
    assert r.clamped == s.clamped[i := s.clamped[i] || additional < limit];
    if additional > 0 {
      r := r.(advertised := s.advertised[i := current + additional],
              slots := s.slots - additional,
              budget := s.budget - additional,
              memory := Wrap64(s.memory - additional * p.memory));
    }
  }

  // Service slots in priority order (plan.go:462-500).
  method ServePools(pools: seq<Pool>, floorBlocked: bool, advertisable: seq<bool>, s: Service) returns (r: Service)
    requires |advertisable| == |pools| && s.Sized(|pools|)
    ensures r == ServePass(pools, floorBlocked, advertisable, s, |pools|)
  {
    hide Serve;
    r := s;
    var i := 0;
    while i < |pools|
      invariant 0 <= i <= |pools|
      invariant r == ServePass(pools, floorBlocked, advertisable, s, i)
    {
      if advertisable[i] && r.slots != 0 {
        r := ServePool(pools[i], floorBlocked, r, i);
      }
      i := i + 1;
    }
  }

  // Starts, removals and first capacity of every pool (plan.go:379-423).
  method DecidePools(pools: seq<Pool>, host: Host, desired: seq<int>) returns (ds: seq<Decision>, starting: int)
    requires |desired| == |pools|
    ensures ds == Decisions(pools, host, desired)
    ensures starting == Sum(Starts(ds))
  {
    ds, starting := [], 0;
    var i := 0;
    while i < |pools|
      invariant 0 <= i <= |pools| && |ds| == i
      invariant forall j :: 0 <= j < i ==> ds[j] == Decide(pools[j], host, desired[j])
      invariant starting == Sum(Starts(ds))
    {
      var p := pools[i];
      var active := p.busy + p.nonbusy;
      var d := Decision(0, 0, 0, false, false);
      if active < desired[i] { d := d.(start := desired[i] - active); }
      if active > desired[i] {
        var excess := active - desired[i];
        if excess == 1 && host.limit > 0 && p.maxCapacity > 0 && p.Servable(host) {
          d := d.(advertised := desired[i], advertisable := true, burst := true);
        } else {
          d := d.(drop := excess);
        }
      } else if p.Servable(host) {
        d := d.(advertised := desired[i], advertisable := true);
      }
      assert Starts(ds + [d])[..i] == Starts(ds);
      ds, starting, i := ds + [d], starting + d.start, i + 1;
    }
  }

  // The serving path end to end: what it computes is the plan the laws are about.
  method ServeFleet(pools: seq<Pool>, host: Host) returns (plan: ServingPlan)
    requires ValidFleet(pools, host)
    ensures plan == PlanServing(pools, host)
    ensures Sum(plan.advertised) <= host.limit
    ensures Sum(plan.desired) <= Max(host.limit, host.busy)
  {
    hide Pass, Decisions, Burst, ServePass, FirstOffer, ValidFleet, Sum, Initial, BurstOrder;
    var a := AllocatePools(pools, host, false, Initial(pools, host));
    a := AllocatePools(pools, host, true, a);
    var ds, starting := DecidePools(pools, host, a.desired);
    var o := OfferBursts(pools, ds, host.limit);
    var s := Service(o.advertised, a.clamped, Max(host.limit - host.active - starting, 0), o.budget, a.memory);
    if !host.Debt() {
      s := ServePools(pools, host.floorBlocked, o.advertisable, s);
    }
    plan := ServingPlan(a.desired, Starts(ds), o.drop, s.advertised, s.clamped, s.memory);
    AdvertisedWithinHost(pools, host);
    DesiredWithinHost(pools, host);
  }
}
