/** That the planner makes the plans of the runs in which one slot is exposed
    twice (plan.go:272-502). */
module ExposurePlans {
  import opened Basics
  import A = Advertising
  import S = Serving

  // The allocator makes the plans of both runs. For an idle host, the slot goes
  // to the first pool; once the second has a busy worker, with the pending
  // capacity of the first as its hysteresis baseline, to the second; and so it
  // does while the first is out of reach. The forgetting Step plans zero
  // (ForgettingPlansZero).
  lemma CounterexamplePlans()
    ensures var a := S.Pool(1, 0, 1, 0, 0, 0, true, 0, false, 0);
            var host := S.Host(1, 0, 0, false, 8);
            && A.PlanServing([a, a], host).advertised == [1, 0]
            && A.PlanServing([a.(ready := false), a], host).advertised == [0, 1]
            && A.PlanServing([a.(previous := 1), a.(busy := 1)], host.(busy := 1, active := 1)).advertised == [0, 1]
  {
    var a := S.Pool(1, 0, 1, 0, 0, 0, true, 0, false, 0);
    var host := S.Host(1, 0, 0, false, 8);
    IdleHostPlan(a, host);
    UnreachedHostPlan(a, host);
    BusyHostPlan(a, host.(busy := 1, active := 1));
  }

  lemma {:induction false} NoCandidates(ds: seq<A.Decision>, zero: bool, k: nat)
    requires k <= |ds| && forall i :: 0 <= i < |ds| ==> !ds[i].burst
    ensures A.Candidates(ds, zero, k) == []
  {
    if k > 0 { NoCandidates(ds, zero, k - 1); }
  }

  lemma NoBursts(pools: seq<S.Pool>, host: S.Host, desired: seq<int>)
    requires |desired| == |pools| && S.Allocated(pools, host).desired == desired
    requires forall i :: 0 <= i < |pools| ==> !A.Decisions(pools, host, desired)[i].burst
    ensures A.Bursted(pools, host) == A.FirstOffer(A.Decisions(pools, host, desired), host.limit)
  {
    hide A.FirstOffer, S.Allocated, A.Decisions;
    var ds := A.Decisions(pools, host, desired);
    NoCandidates(ds, true, |ds|);
    NoCandidates(ds, false, |ds|);
  }

  lemma PairAllocated(pools: seq<S.Pool>, host: S.Host, alloc: S.Alloc)
    requires |pools| == 2 && alloc == S.Initial(pools, host)
    requires forall i :: 0 <= i < 2 ==> S.Request(pools[i], false) <= alloc.desired[i]
    requires forall i :: 0 <= i < 2 ==> S.Request(pools[i], true) <= alloc.desired[i]
    ensures S.Allocated(pools, host) == alloc
  {
    assert S.Pass(pools, host, false, alloc, 1) == alloc;
    assert S.Pass(pools, host, true, alloc, 1) == alloc;
  }

  lemma PairOffer(pools: seq<S.Pool>, host: S.Host, x: int, y: int)
    requires |pools| == 2 && host.limit == 1 && 0 <= x && 0 <= y && x + y <= 1
    requires A.Decisions(pools, host, [x, y]) == [A.Decision(0, 0, x, true, false), A.Decision(0, 0, y, true, false)]
    ensures A.FirstOffer(A.Decisions(pools, host, [x, y]), 1) == A.Offer([x, y], [true, true], [0, 0], 1 - x - y)
    ensures Sum(A.Starts(A.Decisions(pools, host, [x, y]))) == 0
  {
    hide A.Decisions;
    var ds := A.Decisions(pools, host, [x, y]);
    assert [x] + [y] == [x, y];
    SumAppend([x], [y]);
    SumZero(A.Starts(ds));
    assert A.FirstOffer(ds, 1).advertised == [x, y];
  }

  // An idle pool takes the one slot.
  lemma IdleServe(a: S.Pool, first: A.Service, i: nat)
    requires a == S.Pool(1, 0, 1, 0, 0, 0, true, 0, false, 0)
    requires first == A.Service([0, 0], [false, false], 1, 1, 8) && i < 2
    ensures A.Serve(a, false, first, i).advertised == [0, 0][i := 1] && A.Serve(a, false, first, i).slots == 0
  {
    hide *;
    OneSlot(first);
    IdleShare(a);
    A.ServeEffect(a, false, first, i);
  }

  lemma OneSlot(first: A.Service)
    requires first == A.Service([0, 0], [false, false], 1, 1, 8)
    ensures first.Sized(2) && first.memory < TWO_64 && first.budget <= MAX_INT
    ensures Max(A.Share(1, 0, 1).Additional(), 0) == 1
  {
  }

  lemma IdleShare(a: S.Pool)
    requires a == S.Pool(1, 0, 1, 0, 0, 0, true, 0, false, 0)
    ensures A.ShareOf(a, false, 0, 1, 1, 8) == A.Share(1, 0, 1)
  {
  }

  // Two pools that both stay advertisable at what they hold.
  lemma PairFirst(pools: seq<S.Pool>, host: S.Host, x: int, y: int, left: int)
    requires |pools| == 2 && host.limit == 1 && 0 <= x && 0 <= y && x + y <= 1
    requires S.Allocated(pools, host) == S.Alloc([x, y], [0, 0], [false, false], left, 8)
    requires A.Decisions(pools, host, [x, y]) == [A.Decision(0, 0, x, true, false), A.Decision(0, 0, y, true, false)]
    ensures A.Bursted(pools, host).advertisable == [true, true]
    ensures A.FirstService(pools, host)
         == A.Service([x, y], [false, false], Max(1 - host.active, 0), 1 - x - y, 8)
  {
    NoBursts(pools, host, [x, y]);
    PairOffer(pools, host, x, y);
  }

  lemma IdleHostPlan(a: S.Pool, host: S.Host)
    requires a == S.Pool(1, 0, 1, 0, 0, 0, true, 0, false, 0) && host == S.Host(1, 0, 0, false, 8)
    ensures A.PlanServing([a, a], host).advertised == [1, 0]
  {
    hide S.Allocated, A.Bursted, A.FirstService, A.ServePass;
    var pools := [a, a];
    assert S.Busies(pools) == [0, 0];
    PairAllocated(pools, host, S.Alloc([0, 0], [0, 0], [false, false], 1, 8));
    assert A.Decisions(pools, host, [0, 0]) == [A.Decision(0, 0, 0, true, false), A.Decision(0, 0, 0, true, false)];
    PairFirst(pools, host, 0, 0, 1);
    IdlePass(pools, A.Service([0, 0], [false, false], 1, 1, 8));
    hide A.Decisions;
  }

  lemma IdlePass(pools: seq<S.Pool>, first: A.Service)
    requires |pools| == 2 && pools[0] == S.Pool(1, 0, 1, 0, 0, 0, true, 0, false, 0)
    requires first == A.Service([0, 0], [false, false], 1, 1, 8)
    ensures A.ServePass(pools, false, [true, true], first, 2).advertised == [1, 0]
  {
    hide A.Serve;
    IdleServe(pools[0], first, 0);
    assert A.ServePass(pools, false, [true, true], first, 1) == A.Serve(pools[0], false, first, 0);
  }

  lemma UnreachedHostPlan(a: S.Pool, host: S.Host)
    requires a == S.Pool(1, 0, 1, 0, 0, 0, true, 0, false, 0) && host == S.Host(1, 0, 0, false, 8)
    ensures A.PlanServing([a.(ready := false), a], host).advertised == [0, 1]
  {
    hide S.Allocated, A.Bursted, A.FirstService, A.ServePass;
    var pools := [a.(ready := false), a];
    assert S.Busies(pools) == [0, 0];
    PairAllocated(pools, host, S.Alloc([0, 0], [0, 0], [false, false], 1, 8));
    assert A.Decisions(pools, host, [0, 0]) == [A.Decision(0, 0, 0, false, false), A.Decision(0, 0, 0, true, false)];
    UnreachedFirst(pools, host);
    UnreachedPass(pools, A.Service([0, 0], [false, false], 1, 1, 8));
    hide A.Decisions;
  }

  lemma UnreachedFirst(pools: seq<S.Pool>, host: S.Host)
    requires |pools| == 2 && host == S.Host(1, 0, 0, false, 8)
    requires S.Allocated(pools, host) == S.Alloc([0, 0], [0, 0], [false, false], 1, 8)
    requires A.Decisions(pools, host, [0, 0])
          == [A.Decision(0, 0, 0, false, false), A.Decision(0, 0, 0, true, false)]
    ensures A.Bursted(pools, host).advertisable == [false, true]
    ensures A.FirstService(pools, host) == A.Service([0, 0], [false, false], 1, 1, 8)
  {
    hide S.Allocated, A.Decisions, A.Bursted, A.FirstOffer, A.Starts;
    NoBursts(pools, host, [0, 0]);
    UnreachedOffer(A.Decisions(pools, host, [0, 0]));
  }

  lemma UnreachedOffer(ds: seq<A.Decision>)
    requires ds == [A.Decision(0, 0, 0, false, false), A.Decision(0, 0, 0, true, false)]
    ensures A.FirstOffer(ds, 1) == A.Offer([0, 0], [false, true], [0, 0], 1)
    ensures Sum(A.Starts(ds)) == 0
  {
    SumZero(A.FirstOffer(ds, 1).advertised);
    SumZero(A.Starts(ds));
  }

  lemma UnreachedPass(pools: seq<S.Pool>, first: A.Service)
    requires |pools| == 2 && pools[1] == S.Pool(1, 0, 1, 0, 0, 0, true, 0, false, 0)
    requires first == A.Service([0, 0], [false, false], 1, 1, 8)
    ensures A.ServePass(pools, false, [false, true], first, 2).advertised == [0, 1]
  {
    hide A.Serve;
    IdleServe(pools[1], first, 1);
    assert A.ServePass(pools, false, [false, true], first, 1) == first;
  }

  lemma BusyHostPlan(a: S.Pool, host: S.Host)
    requires a == S.Pool(1, 0, 1, 0, 0, 0, true, 0, false, 0) && host == S.Host(1, 1, 1, false, 8)
    ensures A.PlanServing([a.(previous := 1), a.(busy := 1)], host).advertised == [0, 1]
  {
    hide S.Allocated, A.Bursted, A.FirstService, A.ServePass;
    var pools := [a.(previous := 1), a.(busy := 1)];
    assert S.Busies(pools) == [0, 1];
    PairAllocated(pools, host, S.Alloc([0, 1], [0, 0], [false, false], 0, 8));
    assert A.Decisions(pools, host, [0, 1]) == [A.Decision(0, 0, 0, true, false), A.Decision(0, 0, 1, true, false)];
    PairFirst(pools, host, 0, 1, 0);
    BusyPass(pools, A.Service([0, 1], [false, false], 0, 0, 8));
    hide A.Decisions;
  }

  lemma BusyPass(pools: seq<S.Pool>, first: A.Service)
    requires |pools| == 2 && first == A.Service([0, 1], [false, false], 0, 0, 8)
    ensures A.ServePass(pools, false, [true, true], first, 2) == first
  {
    hide A.Serve;
    assert A.ServePass(pools, false, [true, true], first, 1) == first;
  }
}
