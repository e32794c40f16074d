/** The next Step under the pending capacity at hand (reconciler.go:546-561,
    poll_cadence.go:107-142): exactly when no plan and no outcome of its polls
    exposes more than its host limit or what is exposed already. */
module PendingExposure {
  import opened Basics
  import opened FleetModel
  import opened Planner
  import opened CapacityTransfer
  import opened ExposureRuns

  // Every next Step that finds this capacity pending.
  ghost predicate SafeWith(ids: seq<PoolId>, s: Listeners, pending: Capacity) {
    forall next: Step | Planned(ids, next) && next.pending == pending ::
      Total(ids, Take(s, next).exposed) <= Max(Total(ids, s.exposed), next.limit)
  }

  // What pending capacity lets through.
  function Capped(capacity: int, pending: Capacity, id: PoolId): int {
    if id in pending then Min(capacity, pending[id]) else capacity
  }

  // Pending capacity leaves the pool's listener room to rise.
  predicate Rises(s: Listeners, pending: Capacity, id: PoolId) {
    id in pending ==> Get(s.exposed, id) < pending[id]
  }

  // The smallest plan that raises j and lowers no pool's record.
  function Tight(ids: seq<PoolId>, s: Listeners, j: PoolId): Capacity {
    map id | id in ids :: if id == j then Max(Get(s.recorded, id), Get(s.exposed, id) + 1) else Get(s.recorded, id)
  }

  // The most it can expose: each pool stays where it is or rises to the plan, as
  // far as pending capacity lets it.
  function Highest(ids: seq<PoolId>, s: Listeners, pending: Capacity, planned: Capacity): Capacity {
    map id | id in ids :: Max(Get(s.exposed, id), Capped(Get(planned, id), pending, id))
  }

  // A pool that can rise is not below its record beside another that holds
  // capacity, and what listeners hold beyond the record is made up for by what
  // pending capacity keeps the others from.
  ghost predicate Guarded(ids: seq<PoolId>, s: Listeners, pending: Capacity) {
    forall j :: j in ids && Rises(s, pending, j) ==> GuardedAt(ids, s, pending, j)
  }

  ghost predicate GuardedAt(ids: seq<PoolId>, s: Listeners, pending: Capacity, j: PoolId) {
    && (Get(s.recorded, j) <= Get(s.exposed, j) || Alone(ids, s, j))
    && Total(ids, Highest(ids, s, pending, Tight(ids, s, j))) <= Total(ids, Tight(ids, s, j))
  }

  ghost predicate Alone(ids: seq<PoolId>, s: Listeners, j: PoolId) {
    forall id :: id in ids && id != j ==> Get(s.exposed, id) == 0
  }

  // ----- Guarded Steps are safe -------------------------------------------

  lemma TotalExchange(ids: seq<PoolId>, a: Capacity, b: Capacity, c: Capacity, d: Capacity)
    requires forall id :: id in ids ==> Get(a, id) + Get(b, id) <= Get(c, id) + Get(d, id)
    ensures Total(ids, a) + Total(ids, b) <= Total(ids, c) + Total(ids, d)
  {
    SumExchange(At(ids, a), At(ids, b), At(ids, c), At(ids, d));
  }

  lemma {:induction false} SumExchange(a: seq<int>, b: seq<int>, c: seq<int>, d: seq<int>)
    requires |a| == |b| == |c| == |d|
    requires forall i :: 0 <= i < |a| ==> a[i] + b[i] <= c[i] + d[i]
    ensures Sum(a) + Sum(b) <= Sum(c) + Sum(d)
  {
    if a != [] {
      var n := |a| - 1;
      SumExchange(a[..n], b[..n], c[..n], d[..n]);
    }
  }

  // A pool that rose: nothing held it back.
  lemma RiseExplained(ids: seq<PoolId>, s: Listeners, next: Step, j: PoolId)
    requires NonNegative(ids, s) && Planned(ids, next) && !next.forgets && j in ids
    requires Get(s.exposed, j) < Get(Take(s, next).exposed, j)
    ensures Rises(s, next.pending, j) && Get(s.exposed, j) < next.planned[j]
    ensures HasDecrease(s.recorded, next.planned) ==> Get(s.exposed, j) < Get(s.recorded, j)
  {
  }

  // A plan that lowers nobody, against the smallest such plan.
  lemma TightBelow(ids: seq<PoolId>, s: Listeners, next: Step, j: PoolId, id: PoolId)
    requires NonNegative(ids, s) && Planned(ids, next) && !next.forgets && !HasDecrease(s.recorded, next.planned)
    requires j in ids && id in ids && Get(s.exposed, j) < next.planned[j]
    ensures var tight := Tight(ids, s, j);
            Get(Take(s, next).exposed, id) + Get(tight, id)
              <= Get(Highest(ids, s, next.pending, tight), id) + Get(next.planned, id)
  {
    hide Take;
    assert id in next.planned && next.planned[id] >= Get(s.recorded, id);
    RaisedAtMost(ids, s, next, id);
  }

  lemma RaisedAtMost(ids: seq<PoolId>, s: Listeners, next: Step, id: PoolId)
    requires Planned(ids, next) && NonNegative(ids, s) && !next.forgets && id in ids
    ensures Get(Take(s, next).exposed, id) <= Max(Get(s.exposed, id), Capped(next.planned[id], next.pending, id))
  {
    hide HasDecrease;
  }

  lemma GuardedStepSafe(ids: seq<PoolId>, s: Listeners, next: Step)
    requires NonNegative(ids, s) && Planned(ids, next) && Guarded(ids, s, next.pending)
    ensures Total(ids, Take(s, next).exposed) <= Max(Total(ids, s.exposed), next.limit)
  {
    hide Total, Take, Tight, Highest, Rises;
    var after := Take(s, next).exposed;
    if next.forgets {
      ForgettingStepSafe(ids, s, next);
    } else if j :| j in ids && Get(s.exposed, j) < Get(after, j) {
      RiseExplained(ids, s, next, j);
      if HasDecrease(s.recorded, next.planned) {
        AloneRises(ids, s, next, j);
      } else {
        forall id | id in ids
          ensures Get(after, id) + Get(Tight(ids, s, j), id)
               <= Get(Highest(ids, s, next.pending, Tight(ids, s, j)), id) + Get(next.planned, id)
        {
          TightBelow(ids, s, next, j, id);
        }
        TotalExchange(ids, after, Tight(ids, s, j), Highest(ids, s, next.pending, Tight(ids, s, j)), next.planned);
      }
    } else {
      TotalMonotone(ids, after, s.exposed);
    }
  }

  // The only pool with capacity, raised within the plan.
  lemma AloneRises(ids: seq<PoolId>, s: Listeners, next: Step, j: PoolId)
    requires NonNegative(ids, s) && Planned(ids, next) && !next.forgets && j in ids && Alone(ids, s, j)
    requires Get(s.exposed, j) < next.planned[j]
    ensures Total(ids, Take(s, next).exposed) <= next.limit
  {
    hide Total, Take;
    forall id | id in ids ensures Get(Take(s, next).exposed, id) <= Get(next.planned, id) {
      StepAt(ids, s, next, id);
      assert id in next.planned;
    }
    TotalMonotone(ids, Take(s, next).exposed, next.planned);
  }

  // ----- Unguarded Steps are not ------------------------------------------

  // The smallest plan raising j, with every poll that raises its listener
  // succeeding.
  lemma OverdrawnStepUnsafe(ids: seq<PoolId>, s: Listeners, pending: Capacity, j: PoolId) returns (next: Step)
    requires Distinct(ids) && NonNegative(ids, s) && j in ids && Rises(s, pending, j)
    requires forall id :: id in pending ==> 0 <= pending[id]
    requires Total(ids, Highest(ids, s, pending, Tight(ids, s, j))) > Total(ids, Tight(ids, s, j))
    ensures Planned(ids, next) && next.pending == pending
    ensures Total(ids, Take(s, next).exposed) > Max(Total(ids, s.exposed), next.limit)
  {
    hide Total, Take;
    var planned := Tight(ids, s, j);
    var highest := Highest(ids, s, pending, planned);
    var acked := set id | id in ids && Get(s.exposed, id) <= Capped(planned[id], pending, id);
    next := Step(planned, Total(ids, planned), pending, false, acked, false, Closed);
    forall id | id in ids ensures Get(Take(s, next).exposed, id) == Get(highest, id) {
      ReachesHighest(ids, s, next, j, id);
    }
    SameTotal(ids, Take(s, next).exposed, highest);
    TotalUpdate(ids, s.exposed, j, highest[j]);
    TotalMonotone(ids, s.exposed[j := highest[j]], highest);
  }

  lemma ReachesHighest(ids: seq<PoolId>, s: Listeners, next: Step, j: PoolId, id: PoolId)
    requires NonNegative(ids, s) && Planned(ids, next) && !next.forgets && !next.refreshFailed
    requires j in ids && id in ids && next.planned == Tight(ids, s, j)
    requires id in next.acked <==> Get(s.exposed, id) <= Capped(next.planned[id], next.pending, id)
    ensures Get(Take(s, next).exposed, id) == Get(Highest(ids, s, next.pending, next.planned), id)
  {
    assert !HasDecrease(s.recorded, next.planned);
  }

  // Raising j by one while the withdrawal of all others goes unacknowledged.
  lemma BesideStepUnsafe(ids: seq<PoolId>, s: Listeners, pending: Capacity, j: PoolId, other: PoolId)
    returns (next: Step)
    requires Distinct(ids) && NonNegative(ids, s) && j in ids && Rises(s, pending, j)
    requires forall id :: id in pending ==> 0 <= pending[id]
    requires Get(s.exposed, j) < Get(s.recorded, j)
    requires other in ids && other != j && Get(s.exposed, other) != 0
    ensures Planned(ids, next) && next.pending == pending
    ensures Total(ids, Take(s, next).exposed) > Max(Total(ids, s.exposed), next.limit)
  {
    hide Total, Take;
    var zeros := map id | id in ids :: 0;
    var planned := zeros[j := Get(s.exposed, j) + 1];
    NothingTotal(ids);
    TotalUpdate(ids, zeros, j, planned[j]);
    next := Step(planned, planned[j], pending, false, {j}, false, Closed);
    var held := zeros[j := Get(s.exposed, j)];
    TotalUpdate(ids, zeros, j, held[j]);
    TotalUpdate(ids, held, other, Get(s.exposed, other));
    TotalMonotone(ids, held[other := Get(s.exposed, other)], s.exposed);
    RaisesOne(ids, s, next, j);
    TotalUpdate(ids, s.exposed, j, planned[j]);
    SameTotal(ids, Take(s, next).exposed, s.exposed[j := planned[j]]);
  }

  lemma NothingTotal(ids: seq<PoolId>)
    ensures Total(ids, map id | id in ids :: 0) == 0
  {
    SumZero(At(ids, map id | id in ids :: 0));
  }

  lemma RaisesOne(ids: seq<PoolId>, s: Listeners, next: Step, j: PoolId)
    requires NonNegative(ids, s) && Planned(ids, next) && !next.forgets && !next.refreshFailed
    requires j in ids && next.acked == {j} && Rises(s, next.pending, j)
    requires next.planned[j] == Get(s.exposed, j) + 1 <= Get(s.recorded, j)
    ensures forall id :: id in ids ==>
              Get(Take(s, next).exposed, id) == if id == j then next.planned[j] else Get(s.exposed, id)
  {
  }

  /** Under the pending capacity at hand, the next Step is bound by its host limit
      or what is exposed now, for every plan and every poll outcome, if and only
      if the listeners are guarded. */
  lemma PendingSafeExactly(ids: seq<PoolId>, s: Listeners, pending: Capacity)
    requires Distinct(ids) && NonNegative(ids, s)
    requires forall id :: id in pending ==> 0 <= pending[id]
    ensures SafeWith(ids, s, pending) <==> Guarded(ids, s, pending)
  {
    hide Total, Take, Planned, Rises, Tight, Highest, NonNegative;
    if Guarded(ids, s, pending) {
      forall next: Step | Planned(ids, next) && next.pending == pending
        ensures Total(ids, Take(s, next).exposed) <= Max(Total(ids, s.exposed), next.limit)
      {
        GuardedStepSafe(ids, s, next);
      }
    } else {
      var j :| j in ids && Rises(s, pending, j) && !GuardedAt(ids, s, pending, j);
      if Get(s.recorded, j) <= Get(s.exposed, j) || Alone(ids, s, j) {
        var next := OverdrawnStepUnsafe(ids, s, pending, j);
      } else {
        var other :| other in ids && other != j && Get(s.exposed, other) != 0;
        var next := BesideStepUnsafe(ids, s, pending, j, other);
      }
    }
  }

  /** So it is at every point of every run, for whatever is pending there. */
  lemma RunPendingExactly(ids: seq<PoolId>, start: Listeners, steps: seq<Step>, k: nat, pending: Capacity)
    requires Distinct(ids) && NonNegative(ids, start) && PlannedRun(ids, steps) && k <= |steps|
    requires forall id :: id in pending ==> 0 <= pending[id]
    ensures SafeWith(ids, After(start, steps, k), pending) <==> Guarded(ids, After(start, steps, k), pending)
  {
    hide NonNegative, SafeWith, Guarded;
    RunNonNegative(ids, start, steps, k);
    PendingSafeExactly(ids, After(start, steps, k), pending);
  }

  /** A restart clears the pending capacity, and no capacity left pending is
      worse: the Step after a restart is safe if and only if every next Step is. */
  lemma RestartIsWorst(ids: seq<PoolId>, s: Listeners)
    requires Distinct(ids) && NonNegative(ids, s)
    ensures SafeWith(ids, s, map[]) <==> SafeNext(ids, s)
  {
    hide Total, Take, Planned, Tolerable, NonNegative;
    NextSafeExactly(ids, s);
    if SafeNext(ids, s) {
    } else if culprit :| culprit in ids && Get(s.recorded, culprit) < Get(s.exposed, culprit) {
      var next := UncoveredNextUnsafe(ids, s, culprit);
    } else {
      var a, b := Intolerable(ids, s);
      var next := InexactStepUnsafe(ids, s, a, b);
    }
  }

  lemma Intolerable(ids: seq<PoolId>, s: Listeners) returns (a: PoolId, b: PoolId)
    requires !Tolerable(ids, s) && forall id :: id in ids ==> Get(s.exposed, id) <= Get(s.recorded, id)
    ensures a in ids && b in ids && a != b && Get(s.recorded, a) != Get(s.exposed, a) && Get(s.exposed, b) != 0
  {
    a, b :| a in ids && b in ids && a != b && Get(s.recorded, a) != Get(s.exposed, a) && Get(s.exposed, b) != 0;
  }
}
