/** An undisturbed shutdown drain, Step by Step (shutdown.go:49-74,
    reconciler.go:764-858): polls, plan and retirement together. */
module BoundedDrain {
  import opened Basics
  import opened FleetModel
  import opened PollRecords
  import opened PlanInputs
  import opened Planner
  import opened Retirement
  import opened Shutdown
  import opened Departures
  import RC = RestartChain
  import D = Drain

  datatype Fleet = Fleet(records: Records, workers: seq<Worker>)

  // Idle workers of configured pools, each with a runner to deregister.
  ghost predicate Retirable(ids: seq<PoolId>, ws: seq<Worker>) {
    DistinctWorkers(ws) && forall w :: w in ws ==> w.Nonbusy() && w.pool in ids && w.runnerId > 0
  }

  // Everything one Step of the drain was given and chose.
  datatype DrainStep = DrainStep(input: Input, round: Round, context: Context, list: seq<Worker>)

  // The Step plans for a host switched off with no jobs assigned, and its
  // removal list is the plan's, in any order and however rotated.
  ghost predicate ListsPlan(ids: seq<PoolId>, s: Fleet, step: DrainStep) {
    && step.input.Valid() && SortedIds(step.input) == ids
    && step.input.mode.Disabled? && step.input.workers == s.workers
    && (forall id :: id in step.input.pools ==> step.input.pools[id].assignedJobs == 0)
    && (forall w :: w in step.list <==> w in BuildPlan(step.input).remove)
  }

  // Every poll sends zero and is told of no jobs, and every call succeeds.
  ghost predicate QuietPolls(ids: seq<PoolId>, cap: nat, s: Fleet, step: DrainStep) {
    && step.round.Valid() && step.round.ending.Completed? && !step.round.forgets
    && (forall id :: id in ids ==> id in step.round.polls && step.round.polls[id].Polled?
                                   && step.round.polls[id].assignedJobs == 0
                                   && Get(step.round.advertised, id) == 0)
    && FromRound(step.context, ids, step.round, s.records)
    && step.context.jobStateKnown && step.context.cap == cap && step.context.refuses == step.context.stays == {}
    && step.context.required.Keys == (set id | id in ids)
    && (forall id :: id in ids ==> step.context.required[id] == 0)
  }

  // A Step in which every adapter call succeeds and GitHub reports no jobs.
  ghost predicate Undisturbed(ids: seq<PoolId>, cap: nat, s: Fleet, step: DrainStep) {
    ListsPlan(ids, s, step) && QuietPolls(ids, cap, s, step)
  }

  // Everyone is listed, and nobody else.
  ghost predicate ListsFleet(s: Fleet, step: DrainStep) {
    forall w :: w in step.list <==> w in s.workers
  }

  // The Step's outcome: its closing record, and the fleet without the removed.
  function Outcome(ids: seq<PoolId>, s: Fleet, step: DrainStep): Fleet {
    Fleet(Saved(ids, step.round, s.records),
          Without(s.workers, WorkerIds(Retired(step.context, step.list).removed)))
  }

  // ----- The plan lists everyone ------------------------------------------

  lemma {:induction false} ShedAll(ws: seq<Worker>, count: int)
    requires |Select(ws, AreNonbusy)| <= count
    ensures forall w :: w in ws && w.Nonbusy() ==> w in D.Shed(ws, count).0
  {
    if ws != [] {
      var n := |ws| - 1;
      assert ws == ws[..n] + [ws[n]];
      ShedAll(ws[..n], count);
      D.ShedCounts(ws[..n], count);
    }
  }

  lemma {:induction false} ListsPool(order: seq<PoolId>, ws: seq<Worker>, known: set<PoolId>, keep: map<PoolId, int>,
                                     w: Worker)
    requires w.pool in order && w.pool in known && w in D.ShedFrom(ws, keep, w.pool)
    ensures w in D.SafeRemovals(order, ws, known, keep)
  {
    var n := |order| - 1;
    assert order == order[..n] + [order[n]];
    if order[n] != w.pool { ListsPool(order[..n], ws, known, keep, w); }
  }

  // With nothing assigned, the drain plan lists every idle configured worker.
  lemma DrainListsAll(input: Input, w: Worker)
    requires input.Valid() && input.mode.Disabled?
    requires forall id :: id in input.pools ==> input.pools[id].assignedJobs == 0
    requires w in input.workers && w.Nonbusy() && w.pool in SortedIds(input)
    ensures w in BuildPlan(input).remove
  {
    hide Sorted, Select, D.SafeRemovals, D.DrainStarts, ToMap, Orphans, Sum, D.Shed;
    var ws, mine := input.workers, Select(input.workers, InPool(w.pool));
    SelectMembers(ws, InPool(w.pool));
    ShedAll(mine, CountIn(ws, w.pool, AreNonbusy));
    assert Get(Reserved(input), w.pool) == 0;
    ListsPool(input.order, ws, KnownPools(input), Reserved(input), w);
  }

  // Nothing else is listed: the fleet holds only idle configured workers.
  lemma DrainListsOnly(input: Input, w: Worker)
    requires input.mode.Disabled? && w in BuildPlan(input).remove
    ensures w in input.workers
  {
    hide Sorted, Select, D.SafeRemovals, D.DrainStarts, ToMap, Orphans, Sum, D.Shed;
    D.RemovalsNotBusy(input.order, input.workers, KnownPools(input), Reserved(input));
  }

  // ----- One Step ---------------------------------------------------------

  // All pools acknowledged at zero with nothing assigned, confirmed n times.
  ghost predicate Settled(ids: seq<PoolId>, records: Records, n: int) {
    forall id :: id in ids ==>
      && id in records && records[id].Confirmed() && records[id].assignedJobs == 0 && records[id].drainCapacity == 0
      && n <= records[id].confirmations
  }

  lemma StepSettles(ids: seq<PoolId>, cap: nat, s: Fleet, step: DrainStep)
    requires QuietPolls(ids, cap, s, step)
    ensures Settled(ids, Outcome(ids, s, step).records, 1)
    ensures Settled(ids, s.records, 1) ==> Settled(ids, Outcome(ids, s, step).records, 2)
  {
    hide FromRound, Without;
  }

  lemma StepShrinks(ids: seq<PoolId>, s: Fleet, step: DrainStep)
    requires Retirable(ids, s.workers)
    ensures var after := Outcome(ids, s, step);
            Retirable(ids, after.workers) && |after.workers| <= |s.workers|
  {
    hide Retired, Saved;
    var gone := WorkerIds(Retired(step.context, step.list).removed);
    WithoutDistinct(s.workers, gone);
    WithoutShrinks(s.workers, gone);
  }

  lemma {:induction false} WithoutShrinks(ws: seq<Worker>, gone: set<string>)
    ensures |Without(ws, gone)| <= |ws|
  {
    if ws != [] { WithoutShrinks(ws[..|ws| - 1], gone); }
  }

  lemma ListIsFleet(ids: seq<PoolId>, s: Fleet, step: DrainStep)
    requires ListsPlan(ids, s, step) && Retirable(ids, s.workers)
    ensures ListsFleet(s, step)
  {
    hide BuildPlan, SortedIds;
    forall w | w in s.workers
      ensures w in step.list
    {
      DrainListsAll(step.input, w);
    }
    forall w | w in step.list
      ensures w in s.workers
    {
      DrainListsOnly(step.input, w);
    }
  }

  lemma AllMayGo(ids: seq<PoolId>, cap: nat, s: Fleet, step: DrainStep, w: Worker)
    requires QuietPolls(ids, cap, s, step) && Settled(ids, s.records, 1)
    requires w.Nonbusy() && w.pool in ids && w.runnerId > 0
    ensures step.context.MayDeregister(w)
  {
    assert w.pool in step.context.acknowledged;
  }

  // Once settled, a Step retires the cap's worth of workers or all of them.
  lemma StepRetires(ids: seq<PoolId>, cap: nat, s: Fleet, step: DrainStep)
    requires QuietPolls(ids, cap, s, step) && ListsFleet(s, step)
    requires Retirable(ids, s.workers) && Settled(ids, s.records, 1)
    ensures |Outcome(ids, s, step).workers| <= Max(|s.workers| - cap, 0)
  {
    forall w | w in step.list
      ensures step.context.MayDeregister(w)
    {
      AllMayGo(ids, cap, s, step, w);
    }
    assert step.context.cap == cap && step.context.refuses == step.context.stays == {};
    hide QuietPolls, Settled;
    RetiresUpToCap(step.context, step.list);
    var gone := WorkerIds(Retired(step.context, step.list).removed);
    assert WorkerIds(step.list) == WorkerIds(s.workers);
    WithoutCounts(s.workers, gone);
    if |gone| < cap {
      FleetSize(s.workers);
    }
  }

  lemma {:induction false} FleetSize(ws: seq<Worker>)
    requires DistinctWorkers(ws)
    ensures |WorkerIds(ws)| == |ws|
  {
    if ws != [] {
      DistinctLastWorker(ws);
      FleetSize(ws[..|ws| - 1]);
    }
  }

  // ----- The whole drain --------------------------------------------------

  function Run(ids: seq<PoolId>, start: Fleet, steps: seq<DrainStep>, k: nat): Fleet
    requires k <= |steps|
  {
    if k == 0 then start else Outcome(ids, Run(ids, start, steps, k - 1), steps[k - 1])
  }

  ghost predicate UndisturbedAt(ids: seq<PoolId>, cap: nat, start: Fleet, steps: seq<DrainStep>, k: nat)
    requires k < |steps|
  {
    Undisturbed(ids, cap, Run(ids, start, steps, k), steps[k])
  }

  ghost predicate UndisturbedRun(ids: seq<PoolId>, cap: nat, start: Fleet, steps: seq<DrainStep>) {
    forall k :: 0 <= k < |steps| ==> UndisturbedAt(ids, cap, start, steps, k)
  }

  // Where k Steps have brought the fleet.
  ghost predicate Progressed(ids: seq<PoolId>, cap: nat, start: Fleet, s: Fleet, k: nat) {
    && Retirable(ids, s.workers)
    && |s.workers| <= (if k < 2 then |start.workers| else Max(|start.workers| - (k - 1) * cap, 0))
    && (1 <= k ==> Settled(ids, s.records, Min(k, 2)))
  }

  lemma StepProgress(ids: seq<PoolId>, cap: nat, start: Fleet, s: Fleet, step: DrainStep, k: nat)
    requires Progressed(ids, cap, start, s, k) && QuietPolls(ids, cap, s, step) && ListsFleet(s, step)
    ensures Progressed(ids, cap, start, Outcome(ids, s, step), k + 1)
  {
    hide QuietPolls, ListsFleet, Retirable, Settled, Outcome;
    StepSettles(ids, cap, s, step);
    StepShrinks(ids, s, step);
    if k >= 1 {
      SettledWeaker(ids, s.records, Min(k, 2));
      StepRetires(ids, cap, s, step);
      Distribute(k - 1, 1, cap);
    }
  }

  lemma RunStarts(ids: seq<PoolId>, cap: nat, start: Fleet)
    requires Retirable(ids, start.workers)
    ensures Progressed(ids, cap, start, start, 0)
  {
  }

  lemma {:induction false} RunProgress(ids: seq<PoolId>, cap: nat, start: Fleet, steps: seq<DrainStep>, k: nat)
    requires UndisturbedRun(ids, cap, start, steps) && Retirable(ids, start.workers) && k <= |steps|
    ensures Progressed(ids, cap, start, Run(ids, start, steps, k), k)
  {
    hide ListsPlan, QuietPolls, ListsFleet, Retirable, Outcome, Progressed;
    if k == 0 {
      RunStarts(ids, cap, start);
    } else {
      RunProgress(ids, cap, start, steps, k - 1);
      var s := Run(ids, start, steps, k - 1);
      assert UndisturbedAt(ids, cap, start, steps, k - 1);
      ProgressedRetirable(ids, cap, start, s, k - 1);
      ListIsFleet(ids, s, steps[k - 1]);
      StepProgress(ids, cap, start, s, steps[k - 1], k - 1);
    }
  }

  lemma SettledWeaker(ids: seq<PoolId>, records: Records, n: int)
    requires 1 <= n && Settled(ids, records, n)
    ensures Settled(ids, records, 1)
  {
  }

  // Steps that suffice for w workers: two confirmations, then the cap per Step.
  function Enough(workers: nat, cap: nat): nat
    requires cap > 0
  {
    Max(2, 1 + (workers + cap - 1) / cap)
  }

  // The fleet is drained within max(2, 1 + ceil(W / cap)) Steps.
  lemma DrainsInTime(ids: seq<PoolId>, cap: nat, start: Fleet, steps: seq<DrainStep>)
    requires cap > 0 && UndisturbedRun(ids, cap, start, steps) && Retirable(ids, start.workers)
    requires |steps| == Enough(|start.workers|, cap)
    ensures var end := Run(ids, start, steps, |steps|);
            && end.workers == []
            && forall id :: id in ids ==> id in end.records && Drained(end.records[id])
  {
    hide UndisturbedRun, Retirable, Run;
    RunProgress(ids, cap, start, steps, |steps|);
    CeilingCovers(|start.workers|, cap, |steps| - 1);
  }

  lemma CeilingCovers(workers: nat, cap: nat, rounds: int)
    requires cap > 0 && (workers + cap - 1) / cap <= rounds
    ensures workers <= rounds * cap
  {
    var q, r := (workers + cap - 1) / cap, (workers + cap - 1) % cap;
    assert workers + cap - 1 == q * cap + r;
    assert q * cap <= rounds * cap;
  }

  // ----- The shutdown loop ends -------------------------------------------

  // The observation a Step leaves behind, as the loop reads it.
  function Observed(ids: seq<PoolId>, s: Fleet): (pools: seq<(PoolId, PoolRecord)>)
    ensures |pools| == |ids|
    ensures forall i :: 0 <= i < |ids| ==> pools[i] == (ids[i], RecordOf(s.records, ids[i]))
  {
    seq(|ids|, i requires 0 <= i < |ids| => (ids[i], RecordOf(s.records, ids[i])))
  }

  lemma ObservedDrained(ids: seq<PoolId>, s: Fleet)
    requires Distinct(ids) && s.workers == [] && forall id :: id in ids ==> id in s.records && Drained(s.records[id])
    ensures FleetDrained(Observed(ids, s), ids, s.workers)
  {
    assert PoolIds(Observed(ids, s)) == ids;
  }

  function TurnAfter(ids: seq<PoolId>, start: Fleet, steps: seq<DrainStep>, k: nat): RC.Turn
    requires k < |steps|
  {
    var s := Run(ids, start, steps, k + 1);
    RC.Stepped(Observed(ids, s), s.workers)
  }

  /** An undisturbed shutdown ends, fully drained, within that many Steps. */
  lemma ShutdownEndsDrained(ids: seq<PoolId>, cap: nat, start: Fleet, steps: seq<DrainStep>)
    requires cap > 0 && UndisturbedRun(ids, cap, start, steps) && Retirable(ids, start.workers)
    requires Distinct(ids) && |steps| == Enough(|start.workers|, cap)
    ensures var turns := seq(|steps|, k requires 0 <= k < |steps| => TurnAfter(ids, start, steps, k));
            RC.DrainLoop(turns, ids, |turns|).ending.Drained?
  {
    hide UndisturbedRun, Retirable, Run, FleetDrained, Observed, Enough, RC.DrainLoop;
    var turns := seq(|steps|, k requires 0 <= k < |steps| => TurnAfter(ids, start, steps, k));
    var last := |steps| - 1;
    EnoughPositive(|start.workers|, cap);
    DrainsInTime(ids, cap, start, steps);
    ObservedDrained(ids, Run(ids, start, steps, |steps|));
    assert RC.DrainedAt(turns, ids, last);
    assert RC.Stops(turns, ids, last);
    RC.LoopRuns(turns, ids, |turns|);
    var j := RC.LoopEnds(turns, ids, |turns|);
    assert turns[j].Stepped?;
  }

  lemma EnoughPositive(workers: nat, cap: nat)
    requires cap > 0
    ensures Enough(workers, cap) >= 2
  {
  }

  // ----- Such drains exist ------------------------------------------------

  // The template's host with these workers, switched off, no jobs assigned.
  function IdleInput(ids: seq<PoolId>, ws: seq<Worker>, template: Input): Input {
    template.(mode := Mode.Disabled, workers := ws, pools := map[], order := ids)
  }

  lemma IdleInputValid(ids: seq<PoolId>, ws: seq<Worker>, template: Input)
    requires template.Valid() && SortedIds(template) == ids && Retirable(ids, ws)
    ensures IdleInput(ids, ws, template).Valid() && SortedIds(IdleInput(ids, ws, template)) == ids
  {
    hide Sorted;
    SortedIdsDistinct(template);
  }

  function ZeroRound(ids: seq<PoolId>): Round {
    Round(false, map id | id in ids :: UNKNOWN.(ready := true), map[], [],
          map id | id in ids :: Polled(0, Identity(0, "")), Completed)
  }

  function ZeroContext(ids: seq<PoolId>, cap: nat, records: Records): Context {
    Context(map id | id in ids :: 0, true, map id | id in ids :: 0, map id | id in ids :: 0,
            map id | id in ids :: ConfirmationsOf(RecordOf(records, id), 0, 0), cap, {}, {})
  }

  lemma ZeroRoundPolls(ids: seq<PoolId>, cap: nat, records: Records)
    ensures ZeroRound(ids).Valid() && FromRound(ZeroContext(ids, cap, records), ids, ZeroRound(ids), records)
  {
    hide ConfirmationsOf;
  }

  // Whatever idle fleet is left, the host can take an undisturbed Step.
  lemma UndisturbedStepExists(ids: seq<PoolId>, cap: nat, s: Fleet, template: Input) returns (step: DrainStep)
    requires template.Valid() && SortedIds(template) == ids && Retirable(ids, s.workers)
    ensures Undisturbed(ids, cap, s, step)
  {
    hide BuildPlan, Sorted, SortedIds, ConfirmationsOf, FromRound, Retirable, template.Valid;
    var input := IdleInput(ids, s.workers, template);
    IdleInputValid(ids, s.workers, template);
    ZeroRoundPolls(ids, cap, s.records);
    step := DrainStep(input, ZeroRound(ids), ZeroContext(ids, cap, s.records), BuildPlan(input).remove);
  }

  // So the bound is about runs of every length, from every idle fleet.
  lemma {:induction false} UndisturbedRunExists(ids: seq<PoolId>, cap: nat, start: Fleet, template: Input, n: nat)
    returns (steps: seq<DrainStep>)
    requires template.Valid() && SortedIds(template) == ids && Retirable(ids, start.workers)
    ensures |steps| == n && UndisturbedRun(ids, cap, start, steps)
  {
    hide Undisturbed, Retirable, Outcome, Progressed, SortedIds;
    if n == 0 {
      steps := [];
    } else {
      var before := UndisturbedRunExists(ids, cap, start, template, n - 1);
      RunProgress(ids, cap, start, before, n - 1);
      ProgressedRetirable(ids, cap, start, Run(ids, start, before, n - 1), n - 1);
      var step := UndisturbedStepExists(ids, cap, Run(ids, start, before, n - 1), template);
      steps := before + [step];
      forall k | 0 <= k < n ensures UndisturbedAt(ids, cap, start, steps, k) {
        RunPrefix(ids, start, before, step, k);
        if k < n - 1 { assert UndisturbedAt(ids, cap, start, before, k); }
      }
    }
  }

  lemma ProgressedRetirable(ids: seq<PoolId>, cap: nat, start: Fleet, s: Fleet, k: nat)
    requires Progressed(ids, cap, start, s, k)
    ensures Retirable(ids, s.workers)
  {
  }

  lemma {:induction false} RunPrefix(ids: seq<PoolId>, start: Fleet, steps: seq<DrainStep>, last: DrainStep, k: nat)
    requires k <= |steps|
    ensures Run(ids, start, steps + [last], k) == Run(ids, start, steps, k)
  {
    hide Outcome;
    if k > 0 { RunPrefix(ids, start, steps, last, k - 1); }
  }
}
