/** What a Step durably records about each pool's listener: the checkpoint it
    writes before polling (poll_cadence.go:38-98) and the observation it writes
    once the polls are in (reconciler.go:627-659 and 924-943). */
module PollRecords {
  import opened Basics
  import opened FleetModel

  datatype Identity = Identity(scaleSetId: int, listenerId: string)

  datatype PoolRecord = PoolRecord(
    identity: Identity,
    assignedJobs: int,
    maxCapacity: int,
    acknowledged: bool,
    confirmations: int,
    drainCapacity: int)
  {
    // The record counts an acknowledged zero-capacity poll.
    predicate Confirmed() {
      acknowledged && maxCapacity == 0 && confirmations > 0
    }
  }

  const ABSENT := PoolRecord(Identity(0, ""), 0, 0, false, 0, 0)

  type Records = map<PoolId, PoolRecord>

  function RecordOf(records: Records, id: PoolId): PoolRecord {
    if id in records then records[id] else ABSENT
  }

  // A pool as the Step sees it: its ensured identity and last statistics.
  datatype Snapshot = Snapshot(identity: Identity, assignedJobs: int, drainCapacity: int, ready: bool)

  const UNKNOWN := Snapshot(Identity(0, ""), 0, 0, false)

  function SnapshotOf(pools: map<PoolId, Snapshot>, id: PoolId): Snapshot {
    if id in pools then pools[id] else UNKNOWN
  }

  // ----- The checkpoint ---------------------------------------------------

  // It claims nothing about the capacity in flight: a record stays
  // acknowledged only if this poll repeats the acknowledged capacity.
  function CheckpointOf(prior: PoolRecord, pool: Snapshot, advertised: int): PoolRecord {
    var acknowledged := prior.acknowledged && prior.maxCapacity == advertised && prior.identity == pool.identity;
    PoolRecord(pool.identity, pool.assignedJobs, prior.maxCapacity, acknowledged,
               if acknowledged && prior.maxCapacity == 0 then prior.confirmations else 0,
               pool.drainCapacity)
  }

  function Checkpoint(ids: seq<PoolId>, previous: Records, pools: map<PoolId, Snapshot>,
                      advertised: map<PoolId, int>): Records {
    map id | id in ids :: CheckpointOf(RecordOf(previous, id), SnapshotOf(pools, id), Get(advertised, id))
  }

  method PollCheckpoint(ids: seq<PoolId>, previous: Records, pools: map<PoolId, Snapshot>, advertised: map<PoolId, int>)
    returns (records: Records)
    ensures records == Checkpoint(ids, previous, pools, advertised)
    // Only a repeated zero keeps its confirmations, and none are gained.
    ensures forall id :: id in ids && records[id].Confirmed() ==>
              && RecordOf(previous, id).Confirmed() && Get(advertised, id) == 0
              && records[id].confirmations == RecordOf(previous, id).confirmations
  {
    records := map[];
    var i := 0;
    while i < |ids|
      invariant 0 <= i <= |ids|
      invariant records == Checkpoint(ids[..i], previous, pools, advertised)
    {
      var prior, pool := RecordOf(previous, ids[i]), SnapshotOf(pools, ids[i]);
      var acknowledged := prior.acknowledged && prior.maxCapacity == Get(advertised, ids[i])
        && prior.identity.scaleSetId == pool.identity.scaleSetId
        && prior.identity.listenerId == pool.identity.listenerId;
      var confirmations := 0;
      if acknowledged && prior.maxCapacity == 0 { confirmations := prior.confirmations; }
      var next := PoolRecord(pool.identity, pool.assignedJobs, prior.maxCapacity, acknowledged, confirmations,
                             pool.drainCapacity);
      assert next == CheckpointOf(prior, pool, Get(advertised, ids[i]));
      assert ids[..i + 1] == ids[..i] + [ids[i]];
      records := records[ids[i] := next];
      i := i + 1;
    }
    assert ids[..i] == ids;
  }

  // ----- Poll results -----------------------------------------------------

  datatype Poll = Failed | Polled(assignedJobs: int, identity: Identity)

  // Zero capacity and zero jobs, counted up to two across consecutive records.
  function ConfirmationsOf(prior: PoolRecord, advertised: int, assignedJobs: int): int {
    if advertised != 0 || assignedJobs != 0 then 0
    else if prior.Confirmed() && prior.assignedJobs == 0 then Min(2, prior.confirmations + 1)
    else 1
  }

  function PolledSnapshot(pool: Snapshot, advertised: int, poll: Poll): Snapshot {
    match poll
    case Failed => pool.(ready := false)
    case Polled(jobs, identity) =>
      Snapshot(identity, jobs,
               if advertised > 0 then advertised else if jobs == 0 then 0 else pool.drainCapacity,
               pool.ready)
  }

  // The closing observation of a pool.
  function ObservationOf(prior: PoolRecord, pool: Snapshot, advertised: int, poll: Option<Poll>): PoolRecord {
    if poll.None? then
      PoolRecord(pool.identity, pool.assignedJobs, prior.maxCapacity, false, 0, pool.drainCapacity)
    else
      var after := PolledSnapshot(pool, advertised, poll.value);
      if poll.value.Failed? then
        PoolRecord(after.identity, after.assignedJobs, prior.maxCapacity, false, 0, after.drainCapacity)
      else
        PoolRecord(after.identity, after.assignedJobs, advertised, true,
                   ConfirmationsOf(prior, advertised, poll.value.assignedJobs), after.drainCapacity)
  }

  function PollOf(polls: map<PoolId, Poll>, id: PoolId): Option<Poll> {
    if id in polls then Some(polls[id]) else None
  }

  function Observation(ids: seq<PoolId>, previous: Records, pools: map<PoolId, Snapshot>, advertised: map<PoolId, int>,
                       polls: map<PoolId, Poll>): Records
  {
    map id | id in ids ::
      ObservationOf(RecordOf(previous, id), SnapshotOf(pools, id), Get(advertised, id), PollOf(polls, id))
  }

  // The poll-result loop (reconciler.go:627-659): results arrive in any order.
  method HandlePolls(order: seq<PoolId>, previous: Records, advertised: map<PoolId, int>, polls: map<PoolId, Poll>)
    returns (acknowledged: map<PoolId, int>, confirmations: map<PoolId, int>)
    requires forall id :: id in order <==> id in polls
    ensures acknowledged.Keys == (set id | id in polls && polls[id].Polled?)
    ensures forall id :: id in acknowledged ==> acknowledged[id] == Get(advertised, id)
    ensures forall id :: id in polls && polls[id].Polled? ==>
              Get(confirmations, id)
                == ConfirmationsOf(RecordOf(previous, id), Get(advertised, id), polls[id].assignedJobs)
    ensures confirmations.Keys <= acknowledged.Keys
  {
    acknowledged, confirmations := map[], map[];
    var i := 0;
    while i < |order|
      invariant 0 <= i <= |order|
      invariant acknowledged.Keys == set id | id in order[..i] && polls[id].Polled?
      invariant forall id :: id in acknowledged ==> acknowledged[id] == Get(advertised, id)
      invariant forall id :: id in order[..i] && polls[id].Polled? ==>
                  Get(confirmations, id)
                    == ConfirmationsOf(RecordOf(previous, id), Get(advertised, id), polls[id].assignedJobs)
      invariant confirmations.Keys <= acknowledged.Keys
    {
      var id := order[i];
      assert order[..i + 1] == order[..i] + [id];
      if polls[id].Polled? {
        var sent := Get(advertised, id);
        acknowledged := acknowledged[id := sent];
        if sent == 0 && polls[id].assignedJobs == 0 {
          var count := 1;
          var prior := RecordOf(previous, id);
          if prior.acknowledged && prior.maxCapacity == 0 && prior.assignedJobs == 0 && prior.confirmations > 0 {
            count := Min(2, prior.confirmations + 1);
          }
          confirmations := confirmations[id := count];
        }
      }
      i := i + 1;
    }
    assert order[..i] == order;
  }
}
