/** Moving advertised capacity between listeners that are polled concurrently
    (capacity_transition.go:7-29, reconciler.go:546-561, poll_cadence.go:288-306).
    GitHub holds a listener to its last acknowledged capacity until its next
    poll succeeds: that is its exposure. */
module CapacityTransfer {
  import opened Basics
  import opened FleetModel
  import opened Planner
  import PlanInputs

  type Capacity = map<PoolId, int>

  // ----- Sequencing -------------------------------------------------------

  predicate HasDecrease(current: Capacity, planned: Capacity) {
    exists id | id in planned :: planned[id] < Get(current, id)
  }

  function Sequenced(current: Capacity, planned: Capacity): (sent: Capacity)
    ensures sent.Keys == planned.Keys
  {
    map id | id in planned ::
      var capacity := Max(planned[id], 0);
      if HasDecrease(current, planned) then Min(capacity, Get(current, id)) else capacity
  }

  // Go visits a map in no particular order: the loops draw keys at random.
  method SequenceCapacityTransfer(recorded: seq<(PoolId, int)>, planned: Capacity) returns (sent: Capacity)
    requires forall i, j :: 0 <= i < j < |recorded| ==> recorded[i].0 != recorded[j].0
    ensures sent == Sequenced(Recorded(recorded), planned)
  {
    var current: Capacity := map[];
    var i := 0;
    while i < |recorded|
      invariant 0 <= i <= |recorded|
      invariant current == Recorded(recorded[..i])
    {
      assert recorded[..i + 1][..i] == recorded[..i];
      current := current[recorded[i].0 := Max(recorded[i].1, 0)];
      i := i + 1;
    }
    assert recorded[..i] == recorded;

    var hasDecrease, left := false, planned.Keys;
    while left != {} && !hasDecrease
      invariant left <= planned.Keys
      invariant hasDecrease ==> HasDecrease(current, planned)
      invariant !hasDecrease ==> forall id :: id in planned && id !in left ==> planned[id] >= Get(current, id)
      decreases left
    {
      var id :| id in left;
      left := left - {id};
      if planned[id] < Get(current, id) { hasDecrease := true; }
    }
    assert hasDecrease == HasDecrease(current, planned);

    sent := map[];
    left := planned.Keys;
    while left != {}
      invariant left <= planned.Keys && sent.Keys == planned.Keys - left
      invariant forall id :: id in sent ==> sent[id] == Sequenced(current, planned)[id]
      decreases left
    {
      var id :| id in left;
      left := left - {id};
      var capacity := Max(planned[id], 0);
      if hasDecrease && capacity > Get(current, id) { capacity := Get(current, id); }
      sent := sent[id := capacity];
    }
  }

  function Recorded(pools: seq<(PoolId, int)>): Capacity {
    if pools == [] then map[]
    else Recorded(pools[..|pools| - 1])[pools[|pools| - 1].0 := Max(pools[|pools| - 1].1, 0)]
  }

  // What one Step sends: sequenced, clamped to the capacity a superseded poll
  // left pending, and zero after a failed worker refresh.
  function Sent(recorded: Capacity, planned: Capacity, pending: Capacity, refreshFailed: bool): (sent: Capacity)
    ensures sent.Keys == planned.Keys
  {
    var sequenced := Sequenced(recorded, planned);
    map id | id in planned ::
      if refreshFailed then 0
      else if id in pending then Min(sequenced[id], pending[id])
      else sequenced[id]
  }

  // ----- Exposure ---------------------------------------------------------

  // Polls that succeed move their listener to what they sent.
  function Exposed(before: Capacity, sent: Capacity, acked: set<PoolId>): Capacity {
    map id | id in before.Keys + sent.Keys :: if id in acked && id in sent then sent[id] else Get(before, id)
  }

  ghost predicate PlannedWithin(ids: seq<PoolId>, planned: Capacity, limit: int) {
    && planned.Keys == (set id | id in ids)
    && (forall id :: id in ids ==> 0 <= planned[id])
    && Total(ids, planned) <= limit
  }

  // Every plan the planner makes qualifies, under its own host limit.
  lemma PlansAreWithin(input: PlanInputs.Input)
    requires input.Valid()
    ensures PlannedWithin(PlanInputs.SortedIds(input), BuildPlan(input).advertised, Max(PlanInputs.HostLimit(input), 0))
  {
    PlanWithinHost(input);
  }

  lemma TotalMonotone(ids: seq<PoolId>, a: Capacity, b: Capacity)
    requires forall id :: id in ids ==> Get(a, id) <= Get(b, id)
    ensures Total(ids, a) <= Total(ids, b)
  {
    SumMonotone(At(ids, a), At(ids, b));
  }

  // A record at least as large as every exposure, itself within the limit:
  // no outcome of the concurrent polls passes the limit.
  lemma CoveredStepSafe(ids: seq<PoolId>, exposed: Capacity, recorded: Capacity, planned: Capacity, pending: Capacity,
                        refreshFailed: bool, acked: set<PoolId>, limit: int)
    requires PlannedWithin(ids, planned, limit) && Total(ids, recorded) <= limit
    requires forall id :: id in ids ==> 0 <= Get(exposed, id) <= Get(recorded, id)
    ensures Total(ids, Exposed(exposed, Sent(recorded, planned, pending, refreshFailed), acked)) <= limit
  {
    var after := Exposed(exposed, Sent(recorded, planned, pending, refreshFailed), acked);
    if HasDecrease(recorded, planned) {
      TotalMonotone(ids, after, recorded);
    } else {
      forall id | id in ids
        ensures Get(after, id) <= Get(planned, id)
      {
        assert id in planned && planned[id] >= Get(recorded, id);
      }
      TotalMonotone(ids, after, planned);
    }
  }

  // An exact record: no outcome passes the limit or what was exposed before,
  // even when the limit has just been lowered.
  lemma ExactStepSafe(ids: seq<PoolId>, exposed: Capacity, recorded: Capacity, planned: Capacity, pending: Capacity,
                      refreshFailed: bool, acked: set<PoolId>, limit: int)
    requires PlannedWithin(ids, planned, limit)
    requires forall id :: id in ids ==> 0 <= Get(exposed, id) == Get(recorded, id)
    ensures Total(ids, Exposed(exposed, Sent(recorded, planned, pending, refreshFailed), acked))
         <= Max(Total(ids, exposed), limit)
  {
    var after := Exposed(exposed, Sent(recorded, planned, pending, refreshFailed), acked);
    if HasDecrease(recorded, planned) {
      TotalMonotone(ids, after, exposed);
    } else {
      forall id | id in ids
        ensures Get(after, id) <= Get(planned, id)
      {
        assert id in planned && planned[id] >= Get(recorded, id);
      }
      TotalMonotone(ids, after, planned);
    }
  }

  // ----- Exactly when a step is safe --------------------------------------

  ghost predicate SafeForEveryOutcome(ids: seq<PoolId>, exposed: Capacity, recorded: Capacity, pending: Capacity,
                                      limit: int) {
    forall planned: Capacity, acked: set<PoolId> | PlannedWithin(ids, planned, limit) ::
      Total(ids, Exposed(exposed, Sent(recorded, planned, pending, false), acked)) <= limit
  }

  // Pending capacity cuts no pool below both its record and its exposure, and
  // beside any pool that holds more than its record another is not pending.
  ghost predicate LeavesRoom(ids: seq<PoolId>, exposed: Capacity, recorded: Capacity, pending: Capacity) {
    && (forall id :: id in ids && id in pending ==> Get(recorded, id) <= Max(Get(exposed, id), pending[id]))
    && (forall id :: id in ids && Get(recorded, id) < Get(exposed, id) ==> HasFree(ids, pending, id))
  }

  ghost predicate HasFree(ids: seq<PoolId>, pending: Capacity, beside: PoolId) {
    exists id :: id in ids && id != beside && id !in pending
  }

  lemma TotalUpdate(ids: seq<PoolId>, m: Capacity, id: PoolId, v: int)
    requires Distinct(ids) && id in ids
    ensures Total(ids, m[id := v]) == Total(ids, m) - Get(m, id) + v
  {
    var i :| 0 <= i < |ids| && ids[i] == id;
    assert At(ids, m[id := v]) == At(ids, m)[i := v];
    SumUpdate(At(ids, m), i, v);
  }

  // If some listener holds more than its record shows, this plan exposes more
  // than the limit when the culprit's poll fails and every poll that raises its
  // listener succeeds.
  lemma UncoveredStepUnsafe(ids: seq<PoolId>, exposed: Capacity, recorded: Capacity, pending: Capacity, limit: int,
                            culprit: PoolId, other: PoolId)
    returns (planned: Capacity, acked: set<PoolId>)
    requires Distinct(ids) && culprit in ids && other in ids && culprit != other && other !in pending
    requires forall id :: id in ids ==> 0 <= Get(recorded, id)
    requires forall id :: id in ids && id in pending ==> Get(recorded, id) <= Max(Get(exposed, id), pending[id])
    requires Total(ids, recorded) <= limit && Get(recorded, culprit) < Get(exposed, culprit)
    ensures PlannedWithin(ids, planned, limit)
    ensures Total(ids, Exposed(exposed, Sent(recorded, planned, pending, false), acked)) > limit
  {
    hide Sum, Sent, Exposed;
    var base := map id | id in ids :: Get(recorded, id);
    assert At(ids, base) == At(ids, recorded);
    planned := base[other := Get(recorded, other) + limit - Total(ids, recorded)];
    TotalUpdate(ids, base, other, planned[other]);
    var sent := Sent(recorded, planned, pending, false);
    acked := set id | id in ids && id != culprit && Get(exposed, id) <= Get(sent, id);
    forall id | id in ids && id != culprit ensures planned[id] <= Max(Get(exposed, id), Get(sent, id)) {
      SentReaches(exposed, recorded, planned, pending, id);
    }
    RaisedTotal(ids, exposed, planned, sent, acked, culprit);
    TotalUpdate(ids, planned, culprit, Get(exposed, culprit));
  }

  // A plan that lowers nobody reaches what it planned, as far as nothing pending
  // keeps it below the exposure.
  lemma SentReaches(exposed: Capacity, recorded: Capacity, planned: Capacity, pending: Capacity, id: PoolId)
    requires id in planned && 0 <= planned[id] && (id in pending ==> planned[id] <= Max(Get(exposed, id), pending[id]))
    requires !HasDecrease(recorded, planned)
    ensures planned[id] <= Max(Get(exposed, id), Get(Sent(recorded, planned, pending, false), id))
  {
  }

  // If every poll that raises its listener succeeds, the total is at least that
  // of a plan reached everywhere but at the culprit.
  lemma RaisedTotal(ids: seq<PoolId>, exposed: Capacity, planned: Capacity, sent: Capacity, acked: set<PoolId>,
                    culprit: PoolId)
    requires planned.Keys == sent.Keys == (set id | id in ids)
    requires forall id :: id in ids && id != culprit ==> planned[id] <= Max(Get(exposed, id), sent[id])
    requires forall id :: id in acked <==> id in ids && id != culprit && Get(exposed, id) <= sent[id]
    ensures Total(ids, planned[culprit := Get(exposed, culprit)]) <= Total(ids, Exposed(exposed, sent, acked))
  {
    hide Total;
    TotalMonotone(ids, planned[culprit := Get(exposed, culprit)], Exposed(exposed, sent, acked));
  }

  // With a record within the limit and pending capacity that leaves room, a step
  // is safe for every plan and every poll outcome exactly when no listener holds
  // more than the record shows.
  lemma SafeIffRecordCovers(ids: seq<PoolId>, exposed: Capacity, recorded: Capacity, pending: Capacity, limit: int)
    requires Distinct(ids) && Total(ids, recorded) <= limit && LeavesRoom(ids, exposed, recorded, pending)
    requires forall id :: id in ids ==> 0 <= Get(recorded, id) && 0 <= Get(exposed, id)
    ensures SafeForEveryOutcome(ids, exposed, recorded, pending, limit)
       <==> forall id :: id in ids ==> Get(exposed, id) <= Get(recorded, id)
  {
    hide Total, Sent, Exposed;
    if forall id :: id in ids ==> Get(exposed, id) <= Get(recorded, id) {
      forall planned: Capacity, acked: set<PoolId> | PlannedWithin(ids, planned, limit)
        ensures Total(ids, Exposed(exposed, Sent(recorded, planned, pending, false), acked)) <= limit
      {
        CoveredStepSafe(ids, exposed, recorded, planned, pending, false, acked, limit);
      }
    } else {
      var culprit :| culprit in ids && Get(recorded, culprit) < Get(exposed, culprit);
      assert HasFree(ids, pending, culprit);
      var other :| other in ids && other != culprit && other !in pending;
      var planned, acked := UncoveredStepUnsafe(ids, exposed, recorded, pending, limit, culprit, other);
    }
  }

  // ----- Withdrawal under memory pressure ---------------------------------

  // The affordable remainder of the advertised capacity, pools in any order.
  method MemoryAffordableCapacity(order: seq<PoolId>, advertised: Capacity, slots: int) returns (kept: Capacity)
    requires Distinct(order) && advertised.Keys == set id | id in order
    requires forall id :: id in order ==> 0 <= advertised[id]
    ensures kept.Keys == advertised.Keys
    ensures forall id :: id in order ==> 0 <= kept[id] <= advertised[id]
    ensures Total(order, kept) == Min(Total(order, advertised), Max(slots, 0))
  {
    hide Total;
    kept := map[];
    var remaining := slots;
    var k := 0;
    EmptyTotal(kept);
    EmptyTotal(advertised);
    while k < |order|
      invariant 0 <= k <= |order|
      invariant kept.Keys == set id | id in order[..k]
      invariant forall id :: id in kept ==> 0 <= kept[id] <= advertised[id]
      invariant Total(order[..k], kept) == Min(Total(order[..k], advertised), Max(slots, 0))
      invariant Max(remaining, 0) == Max(slots, 0) - Total(order[..k], kept)
    {
      var id := order[k];
      var share;
      if remaining <= 0 {
        share := 0;
      } else if advertised[id] > remaining {
        share := remaining;
        remaining := 0;
      } else {
        share := advertised[id];
        remaining := remaining - advertised[id];
      }
      PrefixTotal(order, advertised, k);
      ExtendTotal(order, kept, k, share);
      kept := kept[id := share];
      k := k + 1;
    }
    assert order[..k] == order;
  }

  lemma PrefixTotal(order: seq<PoolId>, m: Capacity, k: nat)
    requires k < |order|
    ensures Total(order[..k + 1], m) == Total(order[..k], m) + Get(m, order[k])
  {
    assert At(order[..k + 1], m)[..k] == At(order[..k], m);
  }

  lemma EmptyTotal(m: Capacity)
    ensures Total([], m) == 0
  {
  }

  // Settling the next pool in order leaves the earlier ones' total alone.
  lemma ExtendTotal(order: seq<PoolId>, m: Capacity, k: nat, v: int)
    requires Distinct(order) && k < |order|
    ensures Total(order[..k + 1], m[order[k] := v]) == Total(order[..k], m) + v
    ensures forall id :: id in order[..k + 1] <==> id in order[..k] || id == order[k]
    ensures order[k] !in order[..k]
  {
    PrefixTotal(order, m[order[k] := v], k);
    assert At(order[..k], m[order[k] := v]) == At(order[..k], m);
    assert order[..k + 1] == order[..k] + [order[k]];
  }
}
