/** Planning while capacity is held at zero (plan.go:518-619): cover the jobs
    already assigned, shed everything else. */
module Drain {
  import opened Basics
  import opened FleetModel
  import opened Memory

  datatype DrainPool = DrainPool(
    maxCapacity: int,
    memory: nat,
    busy: nat,
    nonbusy: nat,
    uncovered: nat,      // assigned jobs no busy worker accounts for
    acknowledged: int)   // last nonzero acknowledged capacity
  {
    function Serviceable(): int {
      Min(uncovered, Min(acknowledged, maxCapacity))
    }
  }

  datatype DrainHost = DrainHost(limit: int, active: nat, memory: nat, memoryValid: bool, floorBlocked: bool)

  // ----- Starts -----------------------------------------------------------

  datatype Progress = Progress(start: seq<int>, remaining: int, memory: int)

  function StartFor(p: DrainPool, host: DrainHost, remaining: int, memory: int): int {
    var start := Min(Max(0, p.Serviceable() - p.nonbusy), remaining);
    var funded := if host.memoryValid then Min(start, Affordable(memory, p.memory)) else start;
    if host.floorBlocked then 0 else funded
  }

  function Advance(p: DrainPool, host: DrainHost, s: Progress): Progress {
    var start := StartFor(p, host, s.remaining, s.memory);
    if start > 0
    then Progress(s.start + [start], s.remaining - start,
                  if host.memoryValid then Wrap64(s.memory - start * p.memory) else s.memory)
    else Progress(s.start + [0], s.remaining, s.memory)
  }

  // After the first k pools in priority order.
  function DrainPass(pools: seq<DrainPool>, host: DrainHost, k: nat): (s: Progress)
    requires k <= |pools|
    ensures |s.start| == k
  {
    if k == 0 then Progress([], Max(host.limit - host.active, 0), host.memory)
    else Advance(pools[k - 1], host, DrainPass(pools, host, k - 1))
  }

  function DrainStarts(pools: seq<DrainPool>, host: DrainHost): (starts: seq<int>)
    ensures |starts| == |pools|
  {
    DrainPass(pools, host, |pools|).start
  }

  function DrainDesired(p: DrainPool, start: int): int {
    p.busy + Min(p.uncovered, p.nonbusy + start)
  }

  function DrainDesires(pools: seq<DrainPool>, starts: seq<int>): (desired: seq<int>)
    requires |starts| == |pools|
    ensures |desired| == |pools|
  {
    seq(|pools|, i requires 0 <= i < |pools| => DrainDesired(pools[i], starts[i]))
  }

  function DrainMemories(pools: seq<DrainPool>): (m: seq<int>)
    ensures |m| == |pools|
  {
    seq(|pools|, i requires 0 <= i < |pools| => pools[i].memory)
  }

  ghost predicate Conserves(pools: seq<DrainPool>, host: DrainHost, s: Progress) {
    && |s.start| <= |pools|
    && 0 <= s.remaining && 0 <= s.memory <= host.memory
    && (forall i :: 0 <= i < |s.start| ==> 0 <= s.start[i])
    && Sum(s.start) + s.remaining == Max(host.limit - host.active, 0)
    && (host.memoryValid ==> Weighted(DrainMemories(pools)[..|s.start|], s.start) + s.memory == host.memory)
  }

  lemma StartFits(p: DrainPool, host: DrainHost, remaining: int, memory: int)
    requires 0 <= remaining && 0 <= memory < TWO_64
    ensures var start := StartFor(p, host, remaining, memory);
            && 0 <= start <= remaining
            && (host.memoryValid ==> 0 <= start * p.memory <= memory)
            && (host.memoryValid ==> Wrap64(memory - start * p.memory) == memory - start * p.memory)
  {
    var start := StartFor(p, host, remaining, memory);
    ScaleMonotone(0, start, p.memory);
    if host.memoryValid { ScaleMonotone(start, Affordable(memory, p.memory), p.memory); }
  }

  lemma AdvanceConserves(pools: seq<DrainPool>, host: DrainHost, s: Progress)
    requires Conserves(pools, host, s) && |s.start| < |pools| && host.memory < TWO_64
    ensures Conserves(pools, host, Advance(pools[|s.start|], host, s))
  {
    hide StartFor;
    var k := |s.start|;
    var p := pools[k];
    var r := Advance(p, host, s);
    StartFits(p, host, s.remaining, s.memory);
    assert r.start[..k] == s.start;
    assert DrainMemories(pools)[..k + 1][..k] == DrainMemories(pools)[..k];
  }

  lemma {:induction false} DrainConserves(pools: seq<DrainPool>, host: DrainHost, k: nat)
    requires k <= |pools| && host.memory < TWO_64
    ensures Conserves(pools, host, DrainPass(pools, host, k))
  {
    if k > 0 {
      hide Advance, Conserves;
      DrainConserves(pools, host, k - 1);
      AdvanceConserves(pools, host, DrainPass(pools, host, k - 1));
    }
  }

  // Active workers plus starts never pass the host limit or what already runs,
  // and starts fit the memory basis whenever it is valid.
  lemma DrainStartsFit(pools: seq<DrainPool>, host: DrainHost)
    requires host.memory < TWO_64
    ensures host.active + Sum(DrainStarts(pools, host)) <= Max(host.limit, host.active)
    ensures host.memoryValid ==> Weighted(DrainMemories(pools), DrainStarts(pools, host)) <= host.memory
    ensures forall i :: 0 <= i < |pools| ==> 0 <= DrainStarts(pools, host)[i]
  {
    DrainConserves(pools, host, |pools|);
    assert DrainMemories(pools)[..|pools|] == DrainMemories(pools);
  }

  lemma {:induction false} DrainStartAt(pools: seq<DrainPool>, host: DrainHost, i: nat, k: nat)
    requires i < k <= |pools| && host.memory < TWO_64
    ensures var there := DrainPass(pools, host, i);
            DrainPass(pools, host, k).start[i] == StartFor(pools[i], host, there.remaining, there.memory)
  {
    hide StartFor;
    DrainConserves(pools, host, i);
    StartFits(pools[i], host, DrainPass(pools, host, i).remaining, DrainPass(pools, host, i).memory);
    if i < k - 1 { DrainStartAt(pools, host, i, k - 1); }
  }

  // A pool short of its serviceable assignments could not start one more.
  lemma StartMaximal(p: DrainPool, host: DrainHost, remaining: int, memory: int)
    requires 0 <= remaining <= MAX_INT && 0 <= memory < TWO_64
    ensures var start := StartFor(p, host, remaining, memory);
            && 0 <= start && (start > 0 ==> p.nonbusy + start <= p.Serviceable())
            && (p.nonbusy + start < p.Serviceable() ==>
                  || host.floorBlocked || start == remaining
                  || (host.memoryValid && (p.memory == 0 || memory < (start + 1) * p.memory)))
  {
    StartFits(p, host, remaining, memory);
  }

  // Starts cover assignments the idle workers leave open, never beyond the
  // last acknowledged capacity; desired is busy plus the covered assignments,
  // and any further worker was unserviceable, past the host limit, below the
  // memory floor or unaffordable when its pool was reached.
  lemma DrainCovers(pools: seq<DrainPool>, host: DrainHost, i: nat)
    requires i < |pools| && host.memory < TWO_64 && host.limit <= MAX_INT
    ensures var p := pools[i];
            var start := DrainStarts(pools, host)[i];
            var there := DrainPass(pools, host, i);
            && (start > 0 ==> p.nonbusy + start <= p.Serviceable())
            && p.busy <= DrainDesired(p, start) <= p.busy + p.uncovered
            && (DrainDesired(p, start) == p.busy + p.uncovered <==> p.uncovered <= p.nonbusy + start)
            && (p.nonbusy + start < p.Serviceable() ==>
                  || host.floorBlocked || start == there.remaining
                  || (host.memoryValid && (p.memory == 0 || there.memory < (start + 1) * p.memory)))
  {
    hide StartFor, DrainPass, Sum, Weighted;
    var there := DrainPass(pools, host, i);
    DrainConserves(pools, host, i);
    SumNonNegative(there.start);
    DrainStartAt(pools, host, i, |pools|);
    StartMaximal(pools[i], host, there.remaining, there.memory);
  }

  // One pool of the drain loop (plan.go:563-583).
  method DrainOnePool(p: DrainPool, host: DrainHost, s: Progress) returns (r: Progress, count: int)
    requires 0 <= s.remaining && 0 <= s.memory < TWO_64
    ensures r == Advance(p, host, s) && r.start == s.start + [count]
  {
    hide Affordable;
    var remaining, memory := s.remaining, s.memory;
    count := Min(Max(0, Min(p.uncovered, Min(p.acknowledged, p.maxCapacity)) - p.nonbusy), remaining);
    if host.memoryValid { count := Min(count, Affordable(memory, p.memory)); }
    if host.floorBlocked { count := 0; }
    StartFits(p, host, s.remaining, s.memory);
    if count > 0 {
      remaining := remaining - count;
      if host.memoryValid { memory := Wrap64(memory - count * p.memory); }
    }
    r := Progress(s.start + [count], remaining, memory);
  }

  // The drain loop (plan.go:551-588).
  method DrainPools(pools: seq<DrainPool>, host: DrainHost) returns (start: seq<int>, desired: seq<int>)
    requires host.memory < TWO_64
    ensures start == DrainStarts(pools, host)
    ensures desired == DrainDesires(pools, start)
    ensures host.active + Sum(start) <= Max(host.limit, host.active)
  {
    hide Advance, Conserves, Sum, Weighted, DrainDesired;
    desired := [];
    var s := Progress([], Max(host.limit - host.active, 0), host.memory);
    var i := 0;
    while i < |pools|
      invariant 0 <= i <= |pools| && |desired| == i
      invariant s == DrainPass(pools, host, i)
      invariant forall j :: 0 <= j < i ==> desired[j] == DrainDesired(pools[j], s.start[j])
    {
      var count;
      DrainPassBounds(pools, host, i);
      s, count := DrainOnePool(pools[i], host, s);
      desired := desired + [DrainDesired(pools[i], count)];
      i := i + 1;
    }
    start := s.start;
    DrainStartsFit(pools, host);
  }

  lemma DrainPassBounds(pools: seq<DrainPool>, host: DrainHost, k: nat)
    requires k <= |pools| && host.memory < TWO_64
    ensures var s := DrainPass(pools, host, k);
            0 <= s.remaining && 0 <= s.memory < TWO_64
  {
    DrainConserves(pools, host, k);
  }

  // ----- Removals ---------------------------------------------------------

  // Workers shed from one pool, and how many more may still be: the gone ones
  // all, the nonbusy ones up to count.
  function Shed(ws: seq<Worker>, count: int): (seq<Worker>, int) {
    if ws == [] then ([], count)
    else
      var w := ws[|ws| - 1];
      var (removed, left) := Shed(ws[..|ws| - 1], count);
      if w.Gone() then (removed + [w], left)
      else if left > 0 && w.Nonbusy() then (removed + [w], left - 1)
      else (removed, left)
  }

  // keep names the nonbusy workers each pool's uncovered assignments hold on to.
  function ShedFrom(ws: seq<Worker>, keep: map<PoolId, int>, pool: PoolId): seq<Worker> {
    Shed(Select(ws, InPool(pool)), CountIn(ws, pool, AreNonbusy) - Get(keep, pool)).0
  }

  // Pools come in whatever order the map of workers yields them.
  function SafeRemovals(order: seq<PoolId>, ws: seq<Worker>, known: set<PoolId>, keep: map<PoolId, int>): seq<Worker> {
    if order == [] then []
    else
      var pool := order[|order| - 1];
      var rest := SafeRemovals(order[..|order| - 1], ws, known, keep);
      if pool in known then rest + ShedFrom(ws, keep, pool) else rest
  }

  lemma {:induction false} ShedCounts(ws: seq<Worker>, count: int)
    ensures var (removed, left) := Shed(ws, count);
            && |Select(removed, AreNonbusy)| == Min(Max(count, 0), |Select(ws, AreNonbusy)|)
            && |Select(removed, AreNonbusy)| == count - left
            && Select(removed, AreGone) == Select(ws, AreGone)
            && Select(removed, AreBusy) == []
            && (forall i :: 0 <= i < |removed| ==> removed[i] in ws)
  {
    if ws != [] {
      var w := ws[|ws| - 1];
      ShedCounts(ws[..|ws| - 1], count);
      var before := Shed(ws[..|ws| - 1], count).0;
      assert (before + [w])[..|before|] == before;
    }
  }

  lemma ShedFromPool(ws: seq<Worker>, keep: map<PoolId, int>, pool: PoolId, other: PoolId)
    ensures Select(ShedFrom(ws, keep, pool), InPool(other)) == if pool == other then ShedFrom(ws, keep, pool) else []
  {
    var shed := ShedFrom(ws, keep, pool);
    ShedCounts(Select(ws, InPool(pool)), CountIn(ws, pool, AreNonbusy) - Get(keep, pool));
    SelectMembers(ws, InPool(pool));
    assert forall i :: 0 <= i < |shed| ==> shed[i].pool == pool;
    if pool == other { SelectAll(shed, InPool(other)); } else { SelectNone(shed, InPool(other)); }
  }

  // A known pool's removals are what it sheds, wherever the order puts it.
  lemma {:induction false} RemovalsOf(order: seq<PoolId>, ws: seq<Worker>, known: set<PoolId>, keep: map<PoolId, int>,
                                      pool: PoolId)
    requires Distinct(order)
    ensures Select(SafeRemovals(order, ws, known, keep), InPool(pool))
         == if pool in order && pool in known then ShedFrom(ws, keep, pool) else []
  {
    if order != [] {
      hide Select, ShedFrom, Distinct;
      var n := |order| - 1;
      DistinctLast(order, pool);
      RemovalsOf(order[..n], ws, known, keep, pool);
      SelectAppend(SafeRemovals(order[..n], ws, known, keep), ShedFrom(ws, keep, order[n]), InPool(pool));
      ShedFromPool(ws, keep, order[n], pool);
    }
  }

  // Whatever the order, a configured pool keeps exactly as many nonbusy
  // workers as its uncovered assignments need, loses every gone worker and
  // never a busy one.
  lemma DrainKeeps(order: seq<PoolId>, ws: seq<Worker>, known: set<PoolId>, keep: map<PoolId, int>, pool: PoolId)
    requires Distinct(order) && pool in order && pool in known && 0 <= Get(keep, pool)
    ensures var removed := SafeRemovals(order, ws, known, keep);
            && CountIn(ws, pool, AreNonbusy) - CountIn(removed, pool, AreNonbusy)
                 == Min(CountIn(ws, pool, AreNonbusy), Get(keep, pool))
            && CountIn(removed, pool, AreGone) == CountIn(ws, pool, AreGone)
            && CountIn(removed, pool, AreBusy) == 0
  {
    hide Select, Shed, SafeRemovals;
    RemovalsOf(order, ws, known, keep, pool);
    ShedCounts(Select(ws, InPool(pool)), CountIn(ws, pool, AreNonbusy) - Get(keep, pool));
  }

  // Everyone on the list is in the inventory, and nobody on it is busy.
  lemma {:induction false} RemovalsNotBusy(order: seq<PoolId>, ws: seq<Worker>, known: set<PoolId>,
                                           keep: map<PoolId, int>)
    ensures forall w :: w in SafeRemovals(order, ws, known, keep) ==> w in ws && !w.state.Busy?
  {
    if order != [] {
      hide ShedFrom;
      RemovalsNotBusy(order[..|order| - 1], ws, known, keep);
      ShedFromMembers(ws, keep, order[|order| - 1]);
    }
  }

  lemma ShedFromMembers(ws: seq<Worker>, keep: map<PoolId, int>, pool: PoolId)
    ensures forall w :: w in ShedFrom(ws, keep, pool) ==> w in ws && !w.state.Busy?
  {
    var shed := ShedFrom(ws, keep, pool);
    ShedCounts(Select(ws, InPool(pool)), CountIn(ws, pool, AreNonbusy) - Get(keep, pool));
    SelectMembers(ws, InPool(pool));
    SelectMembers(shed, AreBusy);
  }

  // appendSafeRemovals (plan.go:592-619).
  method AppendSafeRemovals(order: seq<PoolId>, ws: seq<Worker>, known: set<PoolId>, keep: map<PoolId, int>)
    returns (removed: seq<Worker>)
    ensures removed == SafeRemovals(order, ws, known, keep)
  {
    hide Select;
    removed := [];
    var k := 0;
    while k < |order|
      invariant 0 <= k <= |order|
      invariant removed == SafeRemovals(order[..k], ws, known, keep)
    {
      var pool := order[k];
      assert order[..k + 1][..k] == order[..k];
      if pool in known {
        var mine := Select(ws, InPool(pool));
        var count := |Select(mine, AreNonbusy)| - Get(keep, pool);
        ghost var first := count;
        ghost var before := removed;
        var i := 0;
        while i < |mine|
          invariant 0 <= i <= |mine|
          invariant count == Shed(mine[..i], first).1
          invariant removed == before + Shed(mine[..i], first).0
        {
          assert mine[..i + 1][..i] == mine[..i];
          if mine[i].Gone() {
            removed := removed + [mine[i]];
          } else if count > 0 && mine[i].Nonbusy() {
            removed := removed + [mine[i]];
            count := count - 1;
          }
          i := i + 1;
        }
        assert mine[..i] == mine;
      }
      k := k + 1;
    }
    assert order[..k] == order;
  }
}
