/** Draining to a stop (shutdown.go:49-115): when a fleet counts as drained,
    and how many Steps an undisturbed drain takes. */
module Shutdown {
  import opened FleetModel
  import opened PollRecords
  import opened Retirement

  // ----- Drained ----------------------------------------------------------

  predicate Drained(r: PoolRecord) {
    r.acknowledged && r.maxCapacity == 0 && r.assignedJobs == 0 && r.drainCapacity == 0 && r.confirmations >= 2
  }

  function PoolIds(pools: seq<(PoolId, PoolRecord)>): (ids: seq<PoolId>)
    ensures |ids| == |pools|
    ensures forall i :: 0 <= i < |ids| ==> ids[i] == pools[i].0
  {
    seq(|pools|, i requires 0 <= i < |pools| => pools[i].0)
  }

  lemma {:induction false} DistinctSize<T(!new)>(s: seq<T>)
    requires Distinct(s)
    ensures |set x | x in s| == |s|
  {
    if s != [] {
      var n := |s| - 1;
      DistinctSize(s[..n]);
      assert s == s[..n] + [s[n]];
      assert (set x | x in s) == (set x | x in s[..n]) + {s[n]};
    }
  }

  // As many distinct configured pools as there are targets are all of them.
  lemma CoversTargets(ids: seq<PoolId>, targets: seq<PoolId>)
    requires Distinct(ids) && Distinct(targets) && |ids| == |targets|
    requires forall id :: id in ids ==> id in targets
    ensures forall id :: id in targets ==> id in ids
  {
    DistinctSize(ids);
    DistinctSize(targets);
    var have, want := set id | id in ids, set id | id in targets;
    assert have <= want;
    SubsetOfSize(have, want);
    forall id | id in targets
      ensures id in ids
    {
      assert id in have;
    }
  }

  lemma SubsetOfSize<T>(a: set<T>, b: set<T>)
    requires a <= b && |a| == |b|
    ensures a == b
  {
    if x :| x in b && x !in a {
      assert a <= b - {x};
      SubsetSize(a, b - {x});
    }
  }

  lemma {:induction false} SubsetSize<T>(a: set<T>, b: set<T>)
    requires a <= b
    ensures |a| <= |b|
  {
    if x :| x in a {
      SubsetSize(a - {x}, b - {x});
    }
  }

  // Every target has its one record, each twice confirmed at zero with nothing
  // assigned, and no worker is active.
  ghost predicate FleetDrained(pools: seq<(PoolId, PoolRecord)>, targets: seq<PoolId>, workers: seq<Worker>) {
    && Distinct(PoolIds(pools)) && (forall id :: id in PoolIds(pools) <==> id in targets)
    && (forall i :: 0 <= i < |pools| ==> Drained(pools[i].1))
    && (forall w :: w in workers ==> !w.Active())
  }

  method ShutdownDrained(pools: seq<(PoolId, PoolRecord)>, targets: seq<PoolId>, workers: seq<Worker>)
    returns (drained: bool)
    requires Distinct(targets)
    ensures drained <==> FleetDrained(pools, targets, workers)
  {
    if |pools| != |targets| {
      SameMembersSameSize(PoolIds(pools), targets);
      return false;
    }
    var expected := set id | id in targets;
    var seen: set<PoolId> := {};
    var i := 0;
    while i < |pools|
      invariant 0 <= i <= |pools|
      invariant seen == set j | 0 <= j < i :: pools[j].0
      invariant forall j :: 0 <= j < i ==> pools[j].0 in targets && Drained(pools[j].1)
      invariant forall j, k :: 0 <= j < k < i ==> pools[j].0 != pools[k].0
    {
      var (id, r) := pools[i];
      if id !in expected {
        assert PoolIds(pools)[i] == id;
        return false;
      }
      if id in seen {
        var j :| 0 <= j < i && pools[j].0 == id;
        assert PoolIds(pools)[j] == PoolIds(pools)[i];
        return false;
      }
      seen := seen + {id};
      if !r.acknowledged || r.maxCapacity != 0 || r.assignedJobs != 0 || r.drainCapacity != 0 || r.confirmations < 2 {
        assert !Drained(pools[i].1);
        return false;
      }
      i := i + 1;
    }
    CoversTargets(PoolIds(pools), targets);
    i := 0;
    while i < |workers|
      invariant 0 <= i <= |workers|
      invariant forall j :: 0 <= j < i ==> !workers[j].Active()
    {
      if workers[i].Active() { return false; }
      i := i + 1;
    }
    return true;
  }

  lemma SameMembersSameSize(ids: seq<PoolId>, targets: seq<PoolId>)
    requires Distinct(targets)
    ensures Distinct(ids) && (forall id :: id in ids <==> id in targets) ==> |ids| == |targets|
  {
    if Distinct(ids) && (forall id :: id in ids <==> id in targets) {
      DistinctSize(ids);
      DistinctSize(targets);
      assert (set id | id in ids) == (set id | id in targets);
    }
  }

  // ----- Retirement empties the fleet -------------------------------------

  ghost predicate DistinctWorkers(ws: seq<Worker>) {
    forall i, j :: 0 <= i < j < |ws| ==> ws[i].id != ws[j].id
  }

  function WorkerIds(ws: seq<Worker>): set<string> {
    set w | w in ws :: w.id
  }

  function Without(ws: seq<Worker>, gone: set<string>): (r: seq<Worker>)
    ensures forall w :: w in r <==> w in ws && w.id !in gone
  {
    if ws == [] then []
    else
      assert ws == ws[..|ws| - 1] + [ws[|ws| - 1]];
      var rest := Without(ws[..|ws| - 1], gone);
      if ws[|ws| - 1].id in gone then rest else rest + [ws[|ws| - 1]]
  }

  lemma NoWorkers()
    ensures WorkerIds([]) == {}
  {
  }

  lemma WorkerIdsAppend(ws: seq<Worker>, w: Worker)
    ensures WorkerIds(ws + [w]) == WorkerIds(ws) + {w.id}
  {
  }

  lemma DistinctLastWorker(ws: seq<Worker>)
    requires DistinctWorkers(ws) && ws != []
    ensures DistinctWorkers(ws[..|ws| - 1])
    ensures ws[|ws| - 1].id !in WorkerIds(ws[..|ws| - 1])
    ensures WorkerIds(ws) == WorkerIds(ws[..|ws| - 1]) + {ws[|ws| - 1].id}
  {
    WorkerIdsAppend(ws[..|ws| - 1], ws[|ws| - 1]);
    assert ws == ws[..|ws| - 1] + [ws[|ws| - 1]];
  }

  lemma {:induction false} WithoutCounts(ws: seq<Worker>, gone: set<string>)
    requires DistinctWorkers(ws) && gone <= WorkerIds(ws)
    ensures |Without(ws, gone)| == |ws| - |gone|
  {
    if ws == [] {
      assert gone == {};
    } else {
      hide WorkerIds, DistinctWorkers;
      var w, rest := ws[|ws| - 1], ws[..|ws| - 1];
      DistinctLastWorker(ws);
      if w.id in gone {
        WithoutCounts(rest, gone - {w.id});
        WithoutSame(rest, gone, w.id);
      } else {
        WithoutCounts(rest, gone);
      }
    }
  }

  lemma {:induction false} WithoutDistinct(ws: seq<Worker>, gone: set<string>)
    requires DistinctWorkers(ws)
    ensures DistinctWorkers(Without(ws, gone))
  {
    if ws != [] {
      var rest := ws[..|ws| - 1];
      WithoutDistinct(rest, gone);
      forall i | 0 <= i < |Without(rest, gone)|
        ensures Without(rest, gone)[i].id != ws[|ws| - 1].id
      {
        assert Without(rest, gone)[i] in rest;
      }
    }
  }

  lemma {:induction false} WithoutSame(ws: seq<Worker>, gone: set<string>, id: string)
    requires id !in WorkerIds(ws)
    ensures Without(ws, gone) == Without(ws, gone - {id})
  {
    if ws != [] {
      assert ws[|ws| - 1] in ws;
      assert forall w :: w in ws[..|ws| - 1] ==> w in ws;
      WithoutSame(ws[..|ws| - 1], gone, id);
    }
  }

  lemma ConsiderTakes(c: Context, s: Progress, w: Worker)
    requires c.refuses == c.stays == {} && c.MayDeregister(w)
    ensures Consider(c, s, w)
         == if w.id in s.seen then s
            else if |s.deregistered| < c.cap
                 then Progress(s.seen + {w.id}, s.deregistered + [w], s.removed + [w])
                 else s.(seen := s.seen + {w.id})
  {
  }

  // When every listed worker may go and none refuses, the loop takes distinct
  // workers until none is left or the cap is spent.
  lemma {:induction false} RetiresUpToCap(c: Context, list: seq<Worker>)
    requires c.refuses == c.stays == {} && forall w :: w in list ==> c.MayDeregister(w)
    ensures var done := Retired(c, list);
            && done.removed == done.deregistered && done.seen == WorkerIds(list)
            && WorkerIds(done.removed) <= done.seen
            && |WorkerIds(done.removed)| == |done.removed| <= c.cap
            && (|done.removed| < c.cap ==> WorkerIds(done.removed) == done.seen)
  {
    hide WorkerIds, Consider, Context.MayDeregister;
    if list == [] {
      NoWorkers();
    } else {
      var n := |list| - 1;
      var w, before := list[n], Retired(c, list[..n]);
      assert list == list[..n] + [w];
      RetiresUpToCap(c, list[..n]);
      WorkerIdsAppend(list[..n], w);
      WorkerIdsAppend(before.removed, w);
      ConsiderTakes(c, before, w);
    }
  }
}
