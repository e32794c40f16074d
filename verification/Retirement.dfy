/** The retirement loop (reconciler.go:764-858) and the rounds of polls that
    lead up to a deregistration. */
module Retirement {
  import opened Basics
  import opened FleetModel
  import opened PollRecords

  // ----- One retirement loop ----------------------------------------------

  // What the loop consults. The planned capacity has been aligned with the
  // acknowledgements, so for an acknowledged pool required is what it sent.
  datatype Context = Context(
    required: map<PoolId, int>,
    jobStateKnown: bool,
    acknowledged: map<PoolId, int>,
    assignedJobs: map<PoolId, int>,
    confirmations: map<PoolId, int>,
    cap: nat,
    refuses: set<string>,      // workers whose deregistration fails
    stays: set<string>)        // workers whose removal fails or finds them at work
  {
    // The listener acknowledged what the plan now requires of the pool.
    predicate Current(pool: PoolId) {
      pool in acknowledged && acknowledged[pool] == Get(required, pool)
    }

    // Two zero-capacity, zero-job polls in a row.
    predicate Quiet(pool: PoolId) {
      Get(required, pool) == 0 && Get(assignedJobs, pool) == 0 && Get(confirmations, pool) >= 2
    }

    predicate MayDeregister(w: Worker) {
      && w.Nonbusy() && w.pool in required && jobStateKnown && Current(w.pool) && Quiet(w.pool) && w.runnerId > 0
    }

    // An exited worker needs no deregistration, only a settled pool if its
    // pool is configured; an unregistered one is simply removed.
    predicate MayDiscard(w: Worker) {
      w.state.Unregistered? || (w.state.Exited? && (w.pool in required ==> Current(w.pool)))
    }
  }

  datatype Progress = Progress(seen: set<string>, deregistered: seq<Worker>, removed: seq<Worker>)

  function Gone(c: Context, removed: seq<Worker>, w: Worker): seq<Worker> {
    if w.id in c.stays then removed else removed + [w]
  }

  function Consider(c: Context, s: Progress, w: Worker): Progress {
    if w.id in s.seen then s
    else
      var seen := s.(seen := s.seen + {w.id});
      if c.MayDiscard(w) then seen.(removed := Gone(c, s.removed, w))
      else if c.MayDeregister(w) && |s.deregistered| < c.cap then
        seen.(deregistered := s.deregistered + [w],
              removed := if w.id in c.refuses then s.removed else Gone(c, s.removed, w))
      else seen
  }

  function Retired(c: Context, list: seq<Worker>): Progress {
    if list == [] then Progress({}, [], [])
    else Consider(c, Retired(c, list[..|list| - 1]), list[|list| - 1])
  }

  // Rotation only changes who is tried first.
  function Rotated(list: seq<Worker>, cursor: nat): (r: seq<Worker>)
    ensures |r| == |list|
    ensures forall w :: w in r <==> w in list
  {
    if list == [] then []
    else
      var start := cursor % |list|;
      assert list == list[..start] + list[start..];
      list[start..] + list[..start]
  }

  method RetireWorkers(c: Context, remove: seq<Worker>, cursor: nat)
    returns (deregistered: seq<Worker>, removed: seq<Worker>, next: nat)
    ensures var done := Retired(c, Rotated(remove, cursor));
            deregistered == done.deregistered && removed == done.removed
    ensures |deregistered| <= c.cap && next == cursor + |deregistered|
    ensures forall w :: w in deregistered ==> w in remove && c.MayDeregister(w)
  {
    var order := Rotated(remove, cursor);
    var seen: set<string> := {};
    deregistered, removed := [], [];
    var i := 0;
    while i < |order|
      invariant 0 <= i <= |order|
      invariant Progress(seen, deregistered, removed) == Retired(c, order[..i])
    {
      assert order[..i + 1][..i] == order[..i];
      var w := order[i];
      i := i + 1;
      if w.id in seen { continue; }
      seen := seen + {w.id};
      if w.state.Busy? { continue; }
      if w.state.Unregistered? {
        if w.id !in c.stays { removed := removed + [w]; }
        continue;
      }
      var required, configured := Get(c.required, w.pool), w.pool in c.required;
      if !w.state.Exited? && !configured { continue; }
      if !w.state.Exited? && !c.jobStateKnown { continue; }
      if configured && w.pool !in c.acknowledged { continue; }
      if configured && c.acknowledged[w.pool] != required { continue; }
      if !w.state.Exited? && configured && required != 0 { continue; }
      if !w.state.Exited? && (Get(c.assignedJobs, w.pool) != 0 || Get(c.confirmations, w.pool) < 2) { continue; }
      if !w.state.Exited? {
        if w.runnerId <= 0 { continue; }
        if |deregistered| >= c.cap { continue; }
        deregistered := deregistered + [w];
        if w.id in c.refuses { continue; }
      }
      if w.id !in c.stays { removed := removed + [w]; }
    }
    assert order[..i] == order;
    next := cursor + |deregistered|;
    RetiredOnlyIf(c, order);
  }

  lemma {:induction false} RetiredOnlyIf(c: Context, list: seq<Worker>)
    ensures |Retired(c, list).deregistered| <= c.cap
    ensures forall w :: w in Retired(c, list).deregistered ==> w in list && c.MayDeregister(w)
  {
    if list != [] {
      var n := |list| - 1;
      RetiredOnlyIf(c, list[..n]);
      assert list == list[..n] + [list[n]];
    }
  }

  // ----- Rounds -----------------------------------------------------------

  // How a Step ends: with a closing observation, superseded after its
  // checkpoints, cancelled with one more checkpoint, or abandoned before any.
  datatype Ending = Completed | Superseded | Cancelled | Abandoned

  datatype Round = Round(
    forgets: bool,                          // the observation could not be loaded
    pools: map<PoolId, Snapshot>,           // after ensuring every listener
    advertised: map<PoolId, int>,           // sent with the polls
    cadence: seq<map<PoolId, int>>,         // capacities re-checkpointed while polling
    polls: map<PoolId, Poll>,               // of the ready pools
    ending: Ending)
  {
    predicate AnyReady() {
      exists id | id in pools :: pools[id].ready
    }

    // Only ready pools are polled, and only after a checkpoint.
    ghost predicate Valid() {
      && (forall id :: id in polls ==> id in pools && pools[id].ready)
      && (ending.Abandoned? ==> polls == map[])
    }

    // Retirement follows the polls and precedes the closing observation, which
    // a superseding change may still prevent.
    predicate Retires() {
      ending.Completed? || ending.Superseded?
    }

    function Loaded(saved: Records): Records {
      if forgets then map[] else saved
    }

    function AfterPolls(): map<PoolId, Snapshot> {
      map id | id in pools ::
        if id in polls then PolledSnapshot(pools[id], Get(advertised, id), polls[id]) else pools[id]
    }
  }

  function Cadence(ids: seq<PoolId>, r: Round, records: Records, k: nat): Records
    requires k <= |r.cadence|
  {
    if k == 0 then Checkpoint(ids, records, r.pools, r.advertised)
    else Checkpoint(ids, Cadence(ids, r, records, k - 1), r.pools, r.cadence[k - 1])
  }

  // The record a round leaves behind, every save succeeding.
  function Saved(ids: seq<PoolId>, r: Round, before: Records): Records {
    var loaded := r.Loaded(before);
    match r.ending
    case Completed => Observation(ids, loaded, r.pools, r.advertised, r.polls)
    case Superseded => if r.AnyReady() then Cadence(ids, r, loaded, |r.cadence|) else before
    case Cancelled => Checkpoint(ids, loaded, r.AfterPolls(), r.advertised)
    case Abandoned => before
  }

  function History(ids: seq<PoolId>, rounds: seq<Round>, k: nat): Records
    requires k <= |rounds|
  {
    if k == 0 then map[] else Saved(ids, rounds[k - 1], History(ids, rounds, k - 1))
  }

  // Round m polled the pool at zero and was told of no jobs.
  ghost predicate QuietPoll(rounds: seq<Round>, m: nat, id: PoolId) {
    && m < |rounds| && id in rounds[m].polls
    && Get(rounds[m].advertised, id) == 0
    && rounds[m].polls[id].Polled? && rounds[m].polls[id].assignedJobs == 0
  }

  // And recorded it.
  ghost predicate QuietRound(rounds: seq<Round>, m: nat, id: PoolId) {
    QuietPoll(rounds, m, id) && rounds[m].ending.Completed?
  }

  // No poll of the pool in rounds m to k - 1, failed or cancelled ones
  // included, advertised capacity.
  ghost predicate HeldAtZero(rounds: seq<Round>, m: nat, k: nat, id: PoolId) {
    k <= |rounds| && forall j :: m <= j < k && id in rounds[j].polls ==> Get(rounds[j].advertised, id) == 0
  }

  lemma {:induction false} CadenceConfirms(ids: seq<PoolId>, r: Round, records: Records, k: nat, id: PoolId)
    requires k <= |r.cadence| && id in ids && Cadence(ids, r, records, k)[id].Confirmed()
    ensures RecordOf(records, id).Confirmed() && Get(r.advertised, id) == 0
  {
    if k > 0 { CadenceConfirms(ids, r, records, k - 1, id); }
  }

  // A round confirms a pool itself, or repeats a confirmation at zero.
  lemma SavedConfirms(ids: seq<PoolId>, r: Round, before: Records, id: PoolId)
    requires r.Valid() && id in ids && RecordOf(Saved(ids, r, before), id).Confirmed()
    ensures || QuietRound([r], 0, id)
            || (RecordOf(before, id).Confirmed() && (id in r.polls ==> Get(r.advertised, id) == 0))
  {
    var loaded := r.Loaded(before);
    match r.ending
    case Completed =>
    case Cancelled =>
    case Abandoned =>
    case Superseded =>
      if r.AnyReady() { CadenceConfirms(ids, r, loaded, |r.cadence|, id); }
  }

  lemma NothingConfirmed(id: PoolId)
    ensures !RecordOf(map[], id).Confirmed()
  {
  }

  // A record's confirmation always goes back to a quiet round, with the pool
  // held at zero ever since, whatever was cancelled or forgotten in between.
  lemma {:induction false} ConfirmationExplained(ids: seq<PoolId>, rounds: seq<Round>, k: nat, id: PoolId)
    requires k <= |rounds| && id in ids && forall j :: 0 <= j < |rounds| ==> rounds[j].Valid()
    requires RecordOf(History(ids, rounds, k), id).Confirmed()
    ensures exists m :: 0 <= m < k && QuietRound(rounds, m, id) && HeldAtZero(rounds, m, k, id)
  {
    hide Saved, RecordOf;
    if k == 0 {
      NothingConfirmed(id);
    } else {
      var r, before := rounds[k - 1], History(ids, rounds, k - 1);
      SavedConfirms(ids, r, before, id);
      if QuietRound([r], 0, id) {
        assert QuietRound(rounds, k - 1, id) && HeldAtZero(rounds, k - 1, k, id);
      } else {
        ConfirmationExplained(ids, rounds, k - 1, id);
        var m :| 0 <= m < k - 1 && QuietRound(rounds, m, id) && HeldAtZero(rounds, m, k - 1, id);
        assert HeldAtZero(rounds, m, k, id);
      }
    }
  }

  // The context a round hands to the retirement loop.
  ghost predicate FromRound(c: Context, ids: seq<PoolId>, r: Round, before: Records) {
    && (forall id :: id in c.required ==> id in ids)
    && c.acknowledged.Keys == (set id | id in r.polls && r.polls[id].Polled?)
    && (forall id :: id in c.acknowledged ==>
          && c.acknowledged[id] == Get(r.advertised, id)
          && Get(c.assignedJobs, id) == r.polls[id].assignedJobs
          && Get(c.confirmations, id)
               == ConfirmationsOf(RecordOf(r.Loaded(before), id), Get(r.advertised, id), r.polls[id].assignedJobs))
  }

  // In every run, a runner is deregistered only if it is not busy and its pool
  // was quiet in this round and in an earlier recorded one, with no poll in
  // between advertising anything.
  lemma DeregistersOnlyWhenQuiet(ids: seq<PoolId>, rounds: seq<Round>, n: nat, c: Context, list: seq<Worker>, w: Worker)
    requires forall j :: 0 <= j < |rounds| ==> rounds[j].Valid()
    requires n < |rounds| && rounds[n].Retires()
    requires FromRound(c, ids, rounds[n], History(ids, rounds, n))
    requires w in Retired(c, list).deregistered
    ensures !w.state.Busy? && w in list && w.runnerId > 0
    ensures QuietPoll(rounds, n, w.pool)
    ensures exists m :: 0 <= m < n && QuietRound(rounds, m, w.pool) && HeldAtZero(rounds, m, n + 1, w.pool)
  {
    hide History, Retired;
    RetiredOnlyIf(c, list);
    var before := History(ids, rounds, n);
    assert w.pool in c.acknowledged;
    assert RecordOf(rounds[n].Loaded(before), w.pool).Confirmed();
    ConfirmationExplained(ids, rounds, n, w.pool);
    var m :| 0 <= m < n && QuietRound(rounds, m, w.pool) && HeldAtZero(rounds, m, n, w.pool);
    assert HeldAtZero(rounds, m, n + 1, w.pool);
  }
}
