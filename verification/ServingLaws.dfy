/** What a serving plan achieves: the fleet converges to it, and repeating it
    changes nothing. */
module ServingLaws {
  import opened Basics
  import opened Memory
  import opened Serving
  import opened Advertising

  // ----- Convergence ------------------------------------------------------

  // Pool i after the burst pass: a candidate already visited ends up
  // advertised, or loses its one excess worker; any other is as decided.
  ghost predicate SettledAt(d: Decision, o: Offer, i: nat, visited: bool)
    requires o.Sized(|o.drop|) && i < |o.drop|
  {
    if visited then
      && d.advertised <= o.advertised[i] <= d.advertised + 1
      && (o.advertisable[i] <==> o.advertised[i] != 0)
      && o.drop[i] == (if o.advertised[i] == 0 then 1 else 0)
    else
      o.advertised[i] == d.advertised && o.advertisable[i] == d.advertisable && o.drop[i] == d.drop
  }

  lemma {:induction false} BurstSettles(pools: seq<Pool>, ds: seq<Decision>, order: seq<nat>, limit: int, k: nat,
                                        i: nat)
    requires |ds| == |pools| && k <= |order| && i < |ds|
    requires forall x :: 0 <= x < |order| ==> order[x] < |ds| && ds[order[x]].burst
    requires forall x, y :: 0 <= x < y < |order| ==> order[x] != order[y]
    requires ds[i].burst ==> ds[i].advertisable && ds[i].drop == 0 && 0 <= ds[i].advertised
    ensures SettledAt(ds[i], Burst(pools, order, FirstOffer(ds, limit), k), i, i in order[..k])
  {
    if k > 0 {
      BurstSettles(pools, ds, order, limit, k - 1, i);
      assert order[..k] == order[..k - 1] + [order[k - 1]];
    }
  }

  lemma BurstedSettles(pools: seq<Pool>, host: Host, i: nat)
    requires ValidFleet(pools, host) && i < |pools|
    ensures var d := Decide(pools[i], host, Allocated(pools, host).desired[i]);
            SettledAt(d, Bursted(pools, host), i, d.burst)
  {
    var ds := Decisions(pools, host, Allocated(pools, host).desired);
    var order := BurstOrder(ds);
    AllocatedBalanced(pools, host);
    BurstSettles(pools, ds, order, host.limit, |order|, i);
    assert order[..|order|] == order;
  }

  // Active workers, less those removed, plus those started, are the desired
  // ones, with at most one more where the pool still advertises a slot.
  lemma Converges(pools: seq<Pool>, host: Host, i: nat)
    requires ValidFleet(pools, host) && i < |pools|
    ensures var plan := PlanServing(pools, host);
            var after := pools[i].busy + pools[i].nonbusy - plan.drop[i] + plan.start[i];
            && 0 <= plan.drop[i] <= pools[i].nonbusy
            && (plan.start[i] == 0 || plan.drop[i] == 0)
            && pools[i].busy <= plan.desired[i]
            && (after == plan.desired[i] || (after == plan.desired[i] + 1 && 1 <= plan.advertised[i]))
  {
    BurstedSettles(pools, host, i);
    assert pools[i].busy <= Allocated(pools, host).desired[i] by { AllocatedBalanced(pools, host); }
    assert Bursted(pools, host).advertised[i] <= PlanServing(pools, host).advertised[i] by {
      PlanServiced(pools, host);
    }
  }

  // ----- The Schmitt trigger ----------------------------------------------

  // The same pools with the hysteresis baseline set to given capacities.
  function Rebased(pools: seq<Pool>, baseline: seq<int>): (r: seq<Pool>)
    requires |baseline| == |pools|
    ensures |r| == |pools|
  {
    seq(|pools|, i requires 0 <= i < |pools| => pools[i].(previous := baseline[i]))
  }

  lemma RebasedAllocates(pools: seq<Pool>, host: Host, baseline: seq<int>)
    requires |baseline| == |pools|
    ensures Allocated(Rebased(pools, baseline), host) == Allocated(pools, host)
  {
    var rebased := Rebased(pools, baseline);
    assert Busies(rebased) == Busies(pools);
    PassAgrees(pools, rebased, host, false, Initial(pools, host), |pools|);
    PassAgrees(pools, rebased, host, true, Assigned(pools, host), |pools|);
  }

  lemma {:induction false} RebasedBursts(pools: seq<Pool>, order: seq<nat>, o: Offer, baseline: seq<int>, k: nat)
    requires k <= |order| && o.Sized(|pools|) && |baseline| == |pools|
    requires forall x :: 0 <= x < |order| ==> order[x] < |pools|
    ensures Burst(Rebased(pools, baseline), order, o, k) == Burst(pools, order, o, k)
  {
    if k > 0 { RebasedBursts(pools, order, o, baseline, k - 1); }
  }

  lemma RebasedOffers(pools: seq<Pool>, host: Host, baseline: seq<int>)
    requires |baseline| == |pools|
    ensures Bursted(Rebased(pools, baseline), host) == Bursted(pools, host)
    ensures FirstService(Rebased(pools, baseline), host) == FirstService(pools, host)
    ensures Decisions(Rebased(pools, baseline), host, Allocated(pools, host).desired)
              == Decisions(pools, host, Allocated(pools, host).desired)
  {
    var rebased := Rebased(pools, baseline);
    var a := Allocated(pools, host);
    RebasedAllocates(pools, host, baseline);
    var ds := Decisions(pools, host, a.desired);
    assert Decisions(rebased, host, a.desired) == ds;
    RebasedBursts(pools, BurstOrder(ds), FirstOffer(ds, host.limit), baseline, |BurstOrder(ds)|);
  }

  // A grant whose cost fits is affordable as a whole.
  lemma HoldsGrant(p: Pool, grant: nat, memory: int)
    requires 0 <= memory < TWO_64 && grant <= MAX_INT
    requires grant * p.memory <= memory && (p.memory == 0 ==> grant == 0)
    ensures grant <= Affordable(memory, p.memory)
    ensures Wrap64(memory - Wrap64(grant) * p.memory) == memory - grant * p.memory
  {
    if 0 < p.memory { AffordsIffFits(memory, p.memory, grant); }
    HeldFits(p, grant, memory);
  }

  lemma NoFurtherGrowth(p: Pool, memory: int, growth: int)
    requires 0 < p.memory && growth == AffordableWithMargin(memory, p.memory, p.margin) < MAX_INT
    ensures AffordableWithMargin(memory - growth * p.memory, p.memory, p.margin) == 0
  {
    Distribute(growth, 1, p.memory);
    var again := AffordableWithMargin(memory - growth * p.memory, p.memory, p.margin);
    if 0 < again {
      ScaleMonotone(1, again, p.memory);
    }
  }

  lemma NoFreeWorkers(p: Pool, memory: int)
    requires p.memory == 0
    ensures AffordableWithMargin(memory, p.memory, p.margin) == 0
  {
  }

  lemma MarginMonotone(p: Pool, less: int, more: int)
    requires less <= more && AffordableWithMargin(more, p.memory, p.margin) == 0
    ensures AffordableWithMargin(less, p.memory, p.margin) == 0
  {
    var slots := AffordableWithMargin(less, p.memory, p.margin);
    if 0 < slots && 0 < p.memory {
      ScaleMonotone(1, slots, p.memory);
    }
  }

  // A share short of its limit leaves less than one more worker and the margin.
  lemma ClaimExhausts(p: Pool, limit: nat, wanted: nat, memory: int)
    requires 0 <= memory < TWO_64 && limit <= MAX_INT
    requires Claim(p, false, limit, wanted, memory).Additional() < limit
    ensures var grant := Claim(p, false, limit, wanted, memory).Additional();
            AffordableWithMargin(memory - grant * p.memory, p.memory, p.margin) == 0
  {
    hide Affordable, AffordableWithMargin;
    var first := Claim(p, false, limit, wanted, memory);
    ClaimFits(p, false, limit, wanted, memory);
    HeldFits(p, first.held, memory);
    if 0 < p.memory {
      NoFurtherGrowth(p, memory - first.held * p.memory, first.growth);
      Distribute(first.held, first.growth, p.memory);
    } else {
      NoFreeWorkers(p, memory);
    }
  }

  // Growth stops where one more worker plus the margin no longer fits, so
  // claiming the whole grant again, with no less headroom than it leaves over,
  // holds exactly what was granted.
  lemma ClaimSurvives(p: Pool, floorBlocked: bool, limit: nat, wanted: nat, memory: int, dip: nat)
    requires dip <= memory < TWO_64 && limit <= MAX_INT
    ensures var first := Claim(p, floorBlocked, limit, wanted, memory);
            first.Additional() * p.memory + dip <= memory ==>
              Claim(p, floorBlocked, limit, first.Additional(), memory - dip) == Share(limit, first.Additional(), 0)
  {
    hide Affordable, AffordableWithMargin;
    var first := Claim(p, floorBlocked, limit, wanted, memory);
    var grant := first.Additional();
    ClaimFits(p, floorBlocked, limit, wanted, memory);
    if grant * p.memory + dip <= memory {
      HoldsGrant(p, grant, memory - dip);
      if grant < limit && !floorBlocked {
        ClaimExhausts(p, limit, wanted, memory);
        MarginMonotone(p, memory - dip - grant * p.memory, memory - grant * p.memory);
      }
    }
  }

  lemma ClaimRepeats(p: Pool, floorBlocked: bool, limit: nat, wanted: nat, memory: int)
    requires 0 <= memory < TWO_64 && limit <= MAX_INT
    ensures var first := Claim(p, floorBlocked, limit, wanted, memory);
            Claim(p, floorBlocked, limit, first.Additional(), memory) == Share(limit, first.Additional(), 0)
  {
    hide Claim;
    ClaimFits(p, floorBlocked, limit, wanted, memory);
    ClaimSurvives(p, floorBlocked, limit, wanted, memory, 0);
  }

  lemma ClaimAgrees(p: Pool, q: Pool, floorBlocked: bool, limit: int, wanted: int, memory: int)
    requires p.memory == q.memory && p.margin == q.margin
    ensures Claim(p, floorBlocked, limit, wanted, memory) == Claim(q, floorBlocked, limit, wanted, memory)
  {
  }

  // Serving pool j leaves every other pool's capacity alone.
  lemma {:induction false} ServePassFrame(pools: seq<Pool>, floorBlocked: bool, advertisable: seq<bool>, s: Service,
                                          j: nat, k: nat)
    requires j <= k <= |pools| == |advertisable| && s.Sized(|pools|)
    ensures forall i :: 0 <= i < j ==>
      ServePass(pools, floorBlocked, advertisable, s, k).advertised[i]
        == ServePass(pools, floorBlocked, advertisable, s, j).advertised[i]
    decreases k
  {
    if j < k {
      hide ShareOf;
      ServePassFrame(pools, floorBlocked, advertisable, s, j, k - 1);
    }
  }

  // The capacity the pass leaves pool i at.
  ghost predicate Reached(pools: seq<Pool>, floorBlocked: bool, advertisable: seq<bool>, first: Service,
                          capacity: int, i: nat)
    requires i < |pools| == |advertisable| && first.Sized(|pools|)
  {
    capacity == ServePass(pools, floorBlocked, advertisable, first, i + 1).advertised[i]
  }

  lemma ServePassReaches(pools: seq<Pool>, floorBlocked: bool, advertisable: seq<bool>, first: Service)
    requires |pools| == |advertisable| && first.Sized(|pools|)
    ensures forall i :: 0 <= i < |pools| ==>
      Reached(pools, floorBlocked, advertisable, first,
              ServePass(pools, floorBlocked, advertisable, first, |pools|).advertised[i], i)
  {
    forall i | 0 <= i < |pools|
      ensures Reached(pools, floorBlocked, advertisable, first,
                      ServePass(pools, floorBlocked, advertisable, first, |pools|).advertised[i], i)
    {
      ServePassFrame(pools, floorBlocked, advertisable, first, i + 1, |pools|);
    }
  }

  // ----- Slots outlive a dip ----------------------------------------------

  // With its limits unchanged, a pool that grew keeps exactly its share when
  // the headroom it sees drops by at most the margin.
  lemma GrownClaimSurvives(p: Pool, floorBlocked: bool, limit: nat, wanted: nat, memory: int, dip: nat)
    requires dip <= memory < TWO_64 && limit <= MAX_INT && dip <= p.margin
    ensures var first := Claim(p, floorBlocked, limit, wanted, memory);
            0 < first.growth ==>
              && first.Additional() * p.memory + dip <= memory
              && Claim(p, floorBlocked, limit, first.Additional(), memory - dip) == Share(limit, first.Additional(), 0)
  {
    hide Claim;
    ClaimFits(p, floorBlocked, limit, wanted, memory);
    ClaimSurvives(p, floorBlocked, limit, wanted, memory, dip);
  }

  // A pool granted nothing is granted nothing with less headroom.
  lemma IdleClaimDips(p: Pool, floorBlocked: bool, limit: int, wanted: nat, memory: int, dip: nat)
    requires dip <= memory < TWO_64
    requires Claim(p, floorBlocked, limit, wanted, memory).Additional() <= 0
    ensures var first := Claim(p, floorBlocked, limit, wanted, memory);
            var dipped := Claim(p, floorBlocked, limit, 0, memory - dip);
            dipped.Additional() == first.Additional() && dipped.limit == first.limit == limit
  {
    hide Claim;
    ClaimFits(p, floorBlocked, limit, wanted, memory);
    ClaimFits(p, floorBlocked, limit, 0, memory - dip);
    if 0 < limit { IdleStaysIdle(p, floorBlocked, limit, wanted, memory, dip); }
  }

  lemma IdleStaysIdle(p: Pool, floorBlocked: bool, limit: int, wanted: nat, memory: int, dip: nat)
    requires dip <= memory < TWO_64 && 0 < limit
    requires Claim(p, floorBlocked, limit, wanted, memory).Additional() == 0
    ensures Claim(p, floorBlocked, limit, 0, memory - dip).Additional() == 0
  {
    hide Affordable, AffordableWithMargin;
    ClaimFits(p, floorBlocked, limit, wanted, memory);
    HeldFits(p, 0, memory);
    HeldFits(p, 0, memory - dip);
    if !floorBlocked { MarginMonotone(p, memory - dip, memory); }
  }

  lemma GrantDips(s: Service, i: nat, worker: nat, limit: int, additional: int, dip: nat)
    requires s.Sized(|s.clamped|) && i < |s.clamped| && dip <= s.memory < TWO_64
    requires 0 < additional ==> additional * worker + dip <= s.memory
    ensures var r := Grant(s, i, worker, limit, additional);
            Grant(s.(memory := s.memory - dip), i, worker, limit, additional) == r.(memory := r.memory - dip)
  {
    if 0 < additional { ScaleMonotone(0, additional, worker); }
  }

  // A pool's share from its own capacity after a dip within what it leaves over.
  lemma ShareDips(p: Pool, floorBlocked: bool, current: int, slots: int, budget: int, memory: int, dip: nat)
    requires dip <= memory < TWO_64 && 0 <= slots && 0 <= budget <= MAX_INT
    ensures var share := ShareOf(p, floorBlocked, current, slots, budget, memory);
            var extra := Max(share.Additional(), 0);
            var q := p.(previous := current + extra);
            var dipped := ShareOf(q, floorBlocked, current, slots, budget, memory - dip);
            extra * p.memory + dip <= memory ==>
              dipped.Additional() == share.Additional() && dipped.limit == share.limit
  {
    hide Claim;
    var limit := Min(Min(p.maxCapacity - current, slots), budget);
    var wanted := Max(p.previous - current, 0);
    var grant := Claim(p, floorBlocked, limit, wanted, memory).Additional();
    ClaimFits(p, floorBlocked, limit, wanted, memory);
    if 0 < grant {
      ClaimSurvives(p, floorBlocked, limit, wanted, memory, dip);
    } else {
      IdleClaimDips(p, floorBlocked, limit, wanted, memory, dip);
    }
    ClaimAgrees(p, p.(previous := current + Max(grant, 0)), floorBlocked, limit, Max(grant, 0), memory - dip);
  }

  // Serving it gives the same grant.
  lemma ServeDips(p: Pool, floorBlocked: bool, s: Service, i: nat, dip: nat)
    requires s.Sized(|s.clamped|) && i < |s.clamped|
    requires 0 <= s.memory < TWO_64 && 0 <= s.slots && 0 <= s.budget <= MAX_INT
    ensures var r := Serve(p, floorBlocked, s, i);
            && r.memory <= s.memory
            && (dip <= r.memory ==>
                  Serve(p.(previous := r.advertised[i]), floorBlocked, s.(memory := s.memory - dip), i)
                    == r.(memory := r.memory - dip))
  {
    hide ShareOf, Grant;
    ServeEffect(p, floorBlocked, s, i);
    if dip <= Serve(p, floorBlocked, s, i).memory {
      var share := ShareOf(p, floorBlocked, s.advertised[i], s.slots, s.budget, s.memory);
      ShareDips(p, floorBlocked, s.advertised[i], s.slots, s.budget, s.memory, dip);
      GrantDips(s, i, p.memory, share.limit, share.Additional(), dip);
    }
  }

  lemma ServePassMargins(pools: seq<Pool>, host: Host, advertisable: seq<bool>, first: Service, k: nat)
    requires Serviced(pools, host, first, first) && k <= |pools| == |advertisable|
    ensures var s := ServePass(pools, host.floorBlocked, advertisable, first, k);
            0 <= s.memory < TWO_64 && 0 <= s.slots && 0 <= s.budget <= MAX_INT
  {
    ServePassServiced(pools, host, advertisable, first, k);
  }

  lemma {:induction false} DippedPass(pools: seq<Pool>, host: Host, advertisable: seq<bool>, first: Service,
                                      baseline: seq<int>, dip: nat, k: nat)
    requires first.Sized(|pools|) && Serviced(pools, host, first, first)
    requires k <= |pools| == |advertisable| == |baseline|
    requires dip <= ServePass(pools, host.floorBlocked, advertisable, first, k).memory
    requires forall i :: 0 <= i < |pools| ==>
               Reached(pools, host.floorBlocked, advertisable, first, baseline[i], i)
    ensures var there := ServePass(pools, host.floorBlocked, advertisable, first, k);
            ServePass(Rebased(pools, baseline), host.floorBlocked, advertisable,
                      first.(memory := first.memory - dip), k)
              == there.(memory := there.memory - dip)
  {
    hide Serve, Serviced;
    if k > 0 {
      var i := k - 1;
      var before := ServePass(pools, host.floorBlocked, advertisable, first, i);
      ServePassMargins(pools, host, advertisable, first, i);
      if advertisable[i] && before.slots != 0 {
        ServeDips(pools[i], host.floorBlocked, before, i, dip);
        assert Reached(pools, host.floorBlocked, advertisable, first, baseline[i], i);
        assert baseline[i] == Serve(pools[i], host.floorBlocked, before, i).advertised[i];
      }
      DippedPass(pools, host, advertisable, first, baseline, dip, k - 1);
    }
  }

  // All pools together: a headroom dip within what the first k pools leave over
  // withdraws nothing from them, and the dip is all that is lost; they keep
  // their capacity whatever happens after them.
  lemma PassSurvivesDip(pools: seq<Pool>, host: Host, advertisable: seq<bool>, first: Service, dip: nat, k: nat)
    requires first.Sized(|pools|) && Serviced(pools, host, first, first) && k <= |pools| == |advertisable|
    requires dip <= ServePass(pools, host.floorBlocked, advertisable, first, k).memory
    ensures var all := ServePass(pools, host.floorBlocked, advertisable, first, |pools|);
            var there := ServePass(pools, host.floorBlocked, advertisable, first, k);
            var rebased, dipped := Rebased(pools, all.advertised), first.(memory := first.memory - dip);
            && ServePass(rebased, host.floorBlocked, advertisable, dipped, k) == there.(memory := there.memory - dip)
            && forall i :: 0 <= i < k ==>
                 ServePass(rebased, host.floorBlocked, advertisable, dipped, |pools|).advertised[i] == all.advertised[i]
  {
    hide Serve, ShareOf, Serviced;
    var all := ServePass(pools, host.floorBlocked, advertisable, first, |pools|);
    ServePassReaches(pools, host.floorBlocked, advertisable, first);
    DippedPass(pools, host, advertisable, first, all.advertised, dip, k);
    ServePassFrame(pools, host.floorBlocked, advertisable, first, k, |pools|);
    ServePassFrame(Rebased(pools, all.advertised), host.floorBlocked, advertisable,
                   first.(memory := first.memory - dip), k, |pools|);
  }

  // The last of the first k pools gained a slot by growth.
  ghost predicate GrewAt(pools: seq<Pool>, floorBlocked: bool, advertisable: seq<bool>, first: Service, k: nat)
    requires 0 < k <= |pools| == |advertisable| && first.Sized(|pools|)
  {
    var s := ServePass(pools, floorBlocked, advertisable, first, k - 1);
    && advertisable[k - 1] && s.slots != 0
    && 0 < ShareOf(pools[k - 1], floorBlocked, s.advertised[k - 1], s.slots, s.budget, s.memory).growth
  }

  // A pool that grew leaves its margin over.
  lemma GrownLeavesMargin(p: Pool, floorBlocked: bool, s: Service, i: nat)
    requires s.Sized(|s.clamped|) && i < |s.clamped|
    requires 0 <= s.memory < TWO_64 && 0 <= s.slots && 0 <= s.budget <= MAX_INT
    requires 0 < ShareOf(p, floorBlocked, s.advertised[i], s.slots, s.budget, s.memory).growth
    ensures p.margin <= Serve(p, floorBlocked, s, i).memory
  {
    hide Serve, ShareOf;
    ServeEffect(p, floorBlocked, s, i);
    GrownShareFits(p, floorBlocked, s.advertised[i], s.slots, s.budget, s.memory);
  }

  lemma GrownShareFits(p: Pool, floorBlocked: bool, current: int, slots: int, budget: int, memory: int)
    requires 0 <= memory < TWO_64 && 0 < ShareOf(p, floorBlocked, current, slots, budget, memory).growth
    ensures var extra := ShareOf(p, floorBlocked, current, slots, budget, memory).Additional();
            0 < extra && extra * p.memory + p.margin <= memory
  {
    hide Claim;
    ClaimFits(p, floorBlocked, Min(Min(p.maxCapacity - current, slots), budget), Max(p.previous - current, 0), memory);
  }

  // So what it and the pools before it hold survives any dip of at most its
  // margin.
  lemma GrownPassSurvives(pools: seq<Pool>, host: Host, advertisable: seq<bool>, first: Service, dip: nat, k: nat)
    requires first.Sized(|pools|) && Serviced(pools, host, first, first) && 0 < k <= |pools| == |advertisable|
    requires GrewAt(pools, host.floorBlocked, advertisable, first, k) && dip <= pools[k - 1].margin
    ensures dip <= ServePass(pools, host.floorBlocked, advertisable, first, k).memory
    ensures var all := ServePass(pools, host.floorBlocked, advertisable, first, |pools|);
            var rebased, dipped := Rebased(pools, all.advertised), first.(memory := first.memory - dip);
            forall i :: 0 <= i < k ==>
              ServePass(rebased, host.floorBlocked, advertisable, dipped, |pools|).advertised[i] == all.advertised[i]
  {
    hide Serviced, Serve, ShareOf, Rebased;
    ServePassMargins(pools, host, advertisable, first, k - 1);
    GrownLeavesMargin(pools[k - 1], host.floorBlocked,
                      ServePass(pools, host.floorBlocked, advertisable, first, k - 1), k - 1);
    PassSurvivesDip(pools, host, advertisable, first, dip, k);
  }

  // With no dip at all: planning again from the plan's own capacity gives the
  // plan back whole.
  lemma SchmittFixedPoint(pools: seq<Pool>, host: Host)
    requires ValidFleet(pools, host)
    ensures PlanServing(Rebased(pools, PlanServing(pools, host).advertised), host) == PlanServing(pools, host)
  {
    hide Allocated, Bursted, FirstService, ServePass, Decisions, Serviced, Rebased, ValidFleet;
    var plan := PlanServing(pools, host);
    RebasedAllocates(pools, host, plan.advertised);
    RebasedOffers(pools, host, plan.advertised);
    if !host.Debt() {
      var advertisable, first := Bursted(pools, host).advertisable, FirstService(pools, host);
      FirstServiced(pools, host);
      ServePassMargins(pools, host, advertisable, first, |pools|);
      PassSurvivesDip(pools, host, advertisable, first, 0, |pools|);
    }
  }
}
