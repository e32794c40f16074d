/** Exposure over runs of Steps (reconciler.go:325-346, 546-667, 927-931;
    poll_cadence.go:56-75): which Steps keep the record true to what the
    listeners hold, and what happens when one does not. */
module ExposureRuns {
  import opened Basics
  import opened FleetModel
  import opened Planner
  import opened CapacityTransfer
  import PlanInputs

  // ----- Steps ------------------------------------------------------------

  // What a Step's saves leave behind: its closing observation; only the
  // checkpoint written before the polls, when it is superseded, cancelled or
  // fails to save the rest; or nothing.
  datatype Saves = Closed | Checkpointed | Unsaved

  // forgets: the record could not be loaded or was quarantined as corrupt.
  datatype Step = Step(
    planned: Capacity, limit: int, pending: Capacity, refreshFailed: bool, acked: set<PoolId>,
    forgets: bool, saves: Saves)

  datatype Listeners = Listeners(exposed: Capacity, recorded: Capacity)
  {
    // The record a Step works from.
    function Read(step: Step): Capacity {
      if step.forgets then map[] else recorded
    }

    function Sent(step: Step): Capacity {
      CapacityTransfer.Sent(Read(step), step.planned, step.pending, step.refreshFailed)
    }
  }

  // A checkpoint repeats the capacity it read; a closing observation moves
  // acknowledged pools to what was sent.
  function Take(s: Listeners, step: Step): Listeners {
    Listeners(Exposed(s.exposed, s.Sent(step), step.acked),
              match step.saves
              case Closed => Exposed(s.Read(step), s.Sent(step), step.acked)
              case Checkpointed => s.Read(step)
              case Unsaved => s.recorded)
  }

  function After(start: Listeners, steps: seq<Step>, k: nat): Listeners
    requires k <= |steps|
  {
    if k == 0 then start else Take(After(start, steps, k - 1), steps[k - 1])
  }

  // A Step that could not read its record advertises nothing.
  ghost predicate Planned(ids: seq<PoolId>, step: Step) {
    && PlannedWithin(ids, step.planned, step.limit)
    && (forall id :: id in step.pending ==> 0 <= step.pending[id])
    && (step.forgets ==> forall id :: id in ids ==> step.planned[id] == 0)
  }

  ghost predicate NonNegative(ids: seq<PoolId>, s: Listeners) {
    forall id :: id in ids ==> 0 <= Get(s.exposed, id) && 0 <= Get(s.recorded, id)
  }

  // An unreadable record makes the observation invalid, unless Docker Desktop
  // is down; a corrupt one switches the mode off. None of these plans advertises.
  lemma ForgettingPlansZero(input: PlanInputs.Input)
    requires input.Valid()
    requires input.mode.Disabled? || !input.resources.Valid() || !input.desktop.Up()
    ensures forall id :: id in PlanInputs.SortedIds(input) ==> Get(BuildPlan(input).advertised, id) == 0
  {
    hide BuildPlan, PlanInputs.SortedIds, PlanInputs.HostLimit;
    PlanRegime(input);
  }

  lemma SentNonNegative(ids: seq<PoolId>, s: Listeners, step: Step)
    requires Planned(ids, step) && forall id :: id in ids ==> 0 <= Get(s.recorded, id)
    ensures s.Sent(step).Keys == set id | id in ids
    ensures forall id :: id in ids ==> 0 <= s.Sent(step)[id]
    ensures step.forgets ==> forall id :: id in ids ==> s.Sent(step)[id] == 0
  {
  }

  // ----- Which Steps keep the record exact --------------------------------

  ghost predicate InStep(ids: seq<PoolId>, s: Listeners) {
    forall id :: id in ids ==> 0 <= Get(s.exposed, id) == Get(s.recorded, id)
  }

  // What the record will show for a pool whose acknowledgement is not saved.
  function Remembered(s: Listeners, step: Step, id: PoolId): int {
    if step.saves.Unsaved? then Get(s.recorded, id) else Get(s.Read(step), id)
  }

  // A forgetting Step that saves got every pool that holds capacity to
  // acknowledge; one that does not close was told nothing the record lacks.
  ghost predicate Accounted(ids: seq<PoolId>, s: Listeners, step: Step) {
    && (step.forgets && !step.saves.Unsaved? ==>
          forall id :: id in ids && id !in step.acked ==> Get(s.exposed, id) == 0)
    && (!step.saves.Closed? ==>
          forall id :: id in ids && id in step.acked ==> Get(s.Sent(step), id) == Remembered(s, step, id))
  }

  // An exact record stays exact if and only if the Step is accounted for.
  lemma InStepExactly(ids: seq<PoolId>, s: Listeners, step: Step)
    requires InStep(ids, s) && Planned(ids, step)
    ensures InStep(ids, Take(s, step)) <==> Accounted(ids, s, step)
  {
    hide CapacityTransfer.Sent;
    SentNonNegative(ids, s, step);
    forall id | id in ids
      ensures (0 <= Get(Take(s, step).exposed, id) == Get(Take(s, step).recorded, id)) <==> AccountedAt(s, step, id)
    {
      InStepAt(ids, s, step, id);
    }
    assert Accounted(ids, s, step) <==> forall id :: id in ids ==> AccountedAt(s, step, id);
  }

  ghost predicate AccountedAt(s: Listeners, step: Step, id: PoolId)
  {
    if id in step.acked then step.saves.Closed? || Get(s.Sent(step), id) == Remembered(s, step, id)
    else step.forgets && !step.saves.Unsaved? ==> Get(s.exposed, id) == 0
  }

  lemma InStepAt(ids: seq<PoolId>, s: Listeners, step: Step, id: PoolId)
    requires InStep(ids, s) && id in ids && id in s.Sent(step) && 0 <= s.Sent(step)[id]
    ensures (0 <= Get(Take(s, step).exposed, id) == Get(Take(s, step).recorded, id)) <==> AccountedAt(s, step, id)
  {
    hide CapacityTransfer.Sent;
  }

  ghost predicate AccountedRun(ids: seq<PoolId>, start: Listeners, steps: seq<Step>, n: nat) {
    n <= |steps| && forall k :: 0 <= k < n ==> Accounted(ids, After(start, steps, k), steps[k])
  }

  ghost predicate PlannedRun(ids: seq<PoolId>, steps: seq<Step>) {
    forall k :: 0 <= k < |steps| ==> Planned(ids, steps[k])
  }

  ghost predicate InStepRun(ids: seq<PoolId>, start: Listeners, steps: seq<Step>, n: nat) {
    n <= |steps| && forall k :: 0 <= k <= n ==> InStepAfter(ids, start, steps, k)
  }

  ghost predicate InStepAfter(ids: seq<PoolId>, start: Listeners, steps: seq<Step>, k: nat)
    requires k <= |steps|
  {
    InStep(ids, After(start, steps, k))
  }

  // So the record is exact throughout a run if and only if every Step of it
  // is accounted for.
  lemma {:induction false} RunInStep(ids: seq<PoolId>, start: Listeners, steps: seq<Step>, n: nat)
    requires InStep(ids, start) && PlannedRun(ids, steps) && n <= |steps|
    ensures AccountedRun(ids, start, steps, n) <==> InStepRun(ids, start, steps, n)
  {
    hide InStep, Take, Accounted, Planned;
    if n == 0 {
      assert InStepAfter(ids, start, steps, 0);
    } else {
      RunInStep(ids, start, steps, n - 1);
      var s := After(start, steps, n - 1);
      assert AccountedRun(ids, start, steps, n) <==>
             AccountedRun(ids, start, steps, n - 1) && Accounted(ids, s, steps[n - 1]);
      if AccountedRun(ids, start, steps, n - 1) {
        assert InStepAfter(ids, start, steps, n - 1);
        InStepExactly(ids, s, steps[n - 1]);
        assert InStepAfter(ids, start, steps, n) <==> Accounted(ids, s, steps[n - 1]);
      }
    }
  }

  lemma ForgettingStepSafe(ids: seq<PoolId>, s: Listeners, step: Step)
    requires Planned(ids, step) && step.forgets && NonNegative(ids, s)
    ensures Total(ids, Take(s, step).exposed) <= Total(ids, s.exposed)
  {
    hide CapacityTransfer.Sent, Total;
    SentNonNegative(ids, s, step);
    TotalMonotone(ids, Take(s, step).exposed, s.exposed);
  }

  /** Over a run accounted for so far, the next Step, of any kind, exposes no
      more than its host limit or what was exposed before it, whichever polls
      succeed. */
  lemma RunSafe(ids: seq<PoolId>, start: Listeners, steps: seq<Step>, k: nat)
    requires InStep(ids, start) && PlannedRun(ids, steps) && k < |steps| && AccountedRun(ids, start, steps, k)
    ensures Total(ids, After(start, steps, k + 1).exposed)
         <= Max(Total(ids, After(start, steps, k).exposed), steps[k].limit)
  {
    hide Total, Exposed, CapacityTransfer.Sent, AccountedRun;
    RunInStep(ids, start, steps, k);
    var s, step := After(start, steps, k), steps[k];
    assert Planned(ids, step) && InStepAfter(ids, start, steps, k);
    if step.forgets {
      ForgettingStepSafe(ids, s, step);
    } else {
      ExactStepSafe(ids, s.exposed, s.recorded, step.planned, step.pending, step.refreshFailed, step.acked, step.limit);
    }
  }

  // ----- Which Steps keep the record covering -----------------------------

  ghost predicate Covered(ids: seq<PoolId>, s: Listeners) {
    forall id :: id in ids ==> 0 <= Get(s.exposed, id) <= Get(s.recorded, id)
  }

  ghost predicate Covering(ids: seq<PoolId>, s: Listeners, step: Step) {
    && (step.forgets && !step.saves.Unsaved? ==>
          forall id :: id in ids && id !in step.acked ==> Get(s.exposed, id) == 0)
    && (!step.saves.Closed? ==>
          forall id :: id in ids && id in step.acked ==> Get(s.Sent(step), id) <= Remembered(s, step, id))
  }

  // A covering record stays covering if and only if no acknowledgement that
  // raises a listener above it goes unsaved and nothing held is forgotten.
  lemma CoveredExactly(ids: seq<PoolId>, s: Listeners, step: Step)
    requires Covered(ids, s) && Planned(ids, step)
    ensures Covered(ids, Take(s, step)) <==> Covering(ids, s, step)
  {
    hide CapacityTransfer.Sent;
    SentNonNegative(ids, s, step);
    forall id | id in ids
      ensures (0 <= Get(Take(s, step).exposed, id) <= Get(Take(s, step).recorded, id)) <==> CoveringAt(s, step, id)
    {
      CoveredAt(ids, s, step, id);
    }
    assert Covering(ids, s, step) <==> forall id :: id in ids ==> CoveringAt(s, step, id);
  }

  ghost predicate CoveringAt(s: Listeners, step: Step, id: PoolId)
  {
    if id in step.acked then step.saves.Closed? || Get(s.Sent(step), id) <= Remembered(s, step, id)
    else step.forgets && !step.saves.Unsaved? ==> Get(s.exposed, id) == 0
  }

  lemma CoveredAt(ids: seq<PoolId>, s: Listeners, step: Step, id: PoolId)
    requires Covered(ids, s) && id in ids && id in s.Sent(step) && 0 <= s.Sent(step)[id]
    ensures (0 <= Get(Take(s, step).exposed, id) <= Get(Take(s, step).recorded, id)) <==> CoveringAt(s, step, id)
  {
    hide CapacityTransfer.Sent;
  }

  ghost predicate CoveringRun(ids: seq<PoolId>, start: Listeners, steps: seq<Step>, n: nat) {
    n <= |steps| && forall k :: 0 <= k < n ==> Covering(ids, After(start, steps, k), steps[k])
  }

  // One Step from a covering record within the bound.
  lemma StepBounded(ids: seq<PoolId>, s: Listeners, step: Step, bound: int)
    requires Covered(ids, s) && Planned(ids, step)
    requires Total(ids, s.recorded) <= bound && 0 <= bound && step.limit <= bound
    ensures Total(ids, Take(s, step).exposed) <= bound && Total(ids, Take(s, step).recorded) <= bound
  {
    hide Total, Exposed, CapacityTransfer.Sent;
    TotalMonotone(ids, s.exposed, s.recorded);
    if step.forgets {
      ForgettingStepSafe(ids, s, step);
      ForgettingRecordBounded(ids, s, step, bound);
    } else {
      CoveredStepSafe(ids, s.exposed, s.recorded, step.planned, step.pending, step.refreshFailed, step.acked, bound);
      CoveredStepSafe(ids, s.recorded, s.recorded, step.planned, step.pending, step.refreshFailed, step.acked, bound);
    }
  }

  lemma ForgettingRecordBounded(ids: seq<PoolId>, s: Listeners, step: Step, bound: int)
    requires Planned(ids, step) && step.forgets && forall id :: id in ids ==> 0 <= Get(s.recorded, id)
    requires Total(ids, s.recorded) <= bound && 0 <= bound
    ensures Total(ids, Take(s, step).recorded) <= bound
  {
    hide CapacityTransfer.Sent;
    SentNonNegative(ids, s, step);
    if !step.saves.Unsaved? { SumZero(At(ids, Take(s, step).recorded)); }
  }

  ghost predicate CoveredRun(ids: seq<PoolId>, start: Listeners, steps: seq<Step>, n: nat) {
    n <= |steps| && forall k :: 0 <= k <= n ==> CoveredAfter(ids, start, steps, k)
  }

  ghost predicate CoveredAfter(ids: seq<PoolId>, start: Listeners, steps: seq<Step>, k: nat)
    requires k <= |steps|
  {
    Covered(ids, After(start, steps, k))
  }

  // The record covers every listener throughout a run if and only if every
  // Step of it keeps it covering.
  lemma {:induction false} RunCovered(ids: seq<PoolId>, start: Listeners, steps: seq<Step>, n: nat)
    requires Covered(ids, start) && PlannedRun(ids, steps) && n <= |steps|
    ensures CoveringRun(ids, start, steps, n) <==> CoveredRun(ids, start, steps, n)
  {
    hide Covered, Take, Covering, Planned;
    if n == 0 {
      assert CoveredAfter(ids, start, steps, 0);
    } else {
      RunCovered(ids, start, steps, n - 1);
      var s := After(start, steps, n - 1);
      assert CoveringRun(ids, start, steps, n) <==>
             CoveringRun(ids, start, steps, n - 1) && Covering(ids, s, steps[n - 1]);
      if CoveringRun(ids, start, steps, n - 1) {
        assert CoveredAfter(ids, start, steps, n - 1);
        CoveredExactly(ids, s, steps[n - 1]);
        assert CoveredAfter(ids, start, steps, n) <==> Covering(ids, s, steps[n - 1]);
      }
    }
  }

  lemma {:induction false} RecordBounded(ids: seq<PoolId>, start: Listeners, steps: seq<Step>, bound: int, n: nat)
    requires Covered(ids, start) && PlannedRun(ids, steps) && n <= |steps| && CoveringRun(ids, start, steps, n)
    requires Total(ids, start.recorded) <= bound && 0 <= bound
    requires forall j :: 0 <= j < n ==> steps[j].limit <= bound
    ensures Total(ids, After(start, steps, n).recorded) <= bound
  {
    hide Total, Take, Covered, Covering, Planned;
    if n > 0 {
      RecordBounded(ids, start, steps, bound, n - 1);
      RunCovered(ids, start, steps, n - 1);
      assert Planned(ids, steps[n - 1]) && CoveredAfter(ids, start, steps, n - 1);
      StepBounded(ids, After(start, steps, n - 1), steps[n - 1], bound);
    }
  }

  /** A run that starts covered, within a bound on the host limits so far, stays
      within it up to and including the first Step that does not keep the record
      covering. */
  lemma RunBounded(ids: seq<PoolId>, start: Listeners, steps: seq<Step>, bound: int, k: nat)
    requires Covered(ids, start) && PlannedRun(ids, steps) && k < |steps| && CoveringRun(ids, start, steps, k)
    requires Total(ids, start.recorded) <= bound && 0 <= bound
    requires forall j :: 0 <= j <= k ==> steps[j].limit <= bound
    ensures Total(ids, After(start, steps, k + 1).exposed) <= bound
  {
    hide Total, Take, Covered, Covering, Planned;
    RecordBounded(ids, start, steps, bound, k);
    RunCovered(ids, start, steps, k);
    assert Planned(ids, steps[k]) && CoveredAfter(ids, start, steps, k);
    StepBounded(ids, After(start, steps, k), steps[k], bound);
  }

  /** And no longer: after a Step that does not keep it covering, as long as
      pending capacity leaves room (LeavesRoom), some plan and some outcome of the
      next Step expose more than any limit the record is within. */
  lemma UncoveringStepUnsafe(ids: seq<PoolId>, s: Listeners, step: Step, pending: Capacity, limit: int)
    returns (next: Step)
    requires Distinct(ids) && Covered(ids, s) && Planned(ids, step) && !Covering(ids, s, step)
    requires Total(ids, s.recorded) <= limit && 0 <= limit && step.limit <= limit
    requires LeavesRoom(ids, Take(s, step).exposed, Take(s, step).recorded, pending)
    requires forall id :: id in pending ==> 0 <= pending[id]
    ensures Planned(ids, next) && next.limit == limit && next.pending == pending && !next.forgets
    ensures Total(ids, Take(Take(s, step), next).exposed) > limit
  {
    hide Total, Exposed, CapacityTransfer.Sent, Covering;
    var t := Take(s, step);
    CoveredExactly(ids, s, step);
    StepBounded(ids, s, step, limit);
    TakeKeepsNonNegative(ids, s, step);
    var culprit :| culprit in ids && Get(t.recorded, culprit) < Get(t.exposed, culprit);
    assert HasFree(ids, pending, culprit);
    var other :| other in ids && other != culprit && other !in pending;
    var planned, acked := UncoveredStepUnsafe(ids, t.exposed, t.recorded, pending, limit, culprit, other);
    next := Step(planned, limit, pending, false, acked, false, Closed);
  }

  // ----- Exactly when the next Step is safe -------------------------------

  // No next Step, whatever it plans, reads, is told and saves, exposes more than
  // its host limit or what is exposed now.
  ghost predicate SafeNext(ids: seq<PoolId>, s: Listeners) {
    forall next: Step | Planned(ids, next) ::
      Total(ids, Take(s, next).exposed) <= Max(Total(ids, s.exposed), next.limit)
  }

  // The record covers every listener, and it is exact for every pool beside
  // which another holds capacity.
  ghost predicate Tolerable(ids: seq<PoolId>, s: Listeners) {
    && (forall id :: id in ids ==> Get(s.exposed, id) <= Get(s.recorded, id))
    && (forall a, b :: a in ids && b in ids && a != b ==>
                         Get(s.recorded, a) == Get(s.exposed, a) || Get(s.exposed, b) == 0)
  }

  lemma StepAt(ids: seq<PoolId>, s: Listeners, next: Step, id: PoolId)
    requires NonNegative(ids, s) && Planned(ids, next) && id in ids && !next.forgets
    ensures var after := Get(Take(s, next).exposed, id);
            && after <= Max(Get(s.exposed, id), next.planned[id])
            && (HasDecrease(s.recorded, next.planned) ==> after <= Max(Get(s.exposed, id), Get(s.recorded, id)))
  {
  }

  // With a decrease to wait for, an inexact record at a leaves everyone else
  // either unexposed and within the plan, or at zero.
  lemma InexactStepSafe(ids: seq<PoolId>, s: Listeners, next: Step, a: PoolId)
    requires Distinct(ids) && NonNegative(ids, s) && Planned(ids, next) && !next.forgets && Tolerable(ids, s)
    requires HasDecrease(s.recorded, next.planned) && a in ids && Get(s.recorded, a) != Get(s.exposed, a)
    ensures Total(ids, Take(s, next).exposed) <= Max(Total(ids, s.exposed), next.limit)
  {
    hide Total, Take;
    var after := Take(s, next).exposed;
    forall id | id in ids
      ensures Get(after, id) <= Max(Get(s.exposed, id), next.planned[id])
      ensures id != a ==> Get(s.exposed, id) == 0
      ensures id != a && Get(s.exposed, a) != 0 ==> Get(after, id) <= 0
    {
      StepAt(ids, s, next, id);
    }
    if Get(after, a) <= next.planned[a] {
      TotalMonotone(ids, after, next.planned);
    } else {
      TotalMonotone(ids, after, s.exposed);
    }
  }

  lemma TolerableStepSafe(ids: seq<PoolId>, s: Listeners, next: Step)
    requires Distinct(ids) && NonNegative(ids, s) && Planned(ids, next) && Tolerable(ids, s)
    ensures Total(ids, Take(s, next).exposed) <= Max(Total(ids, s.exposed), next.limit)
  {
    hide Total, Exposed, CapacityTransfer.Sent, HasDecrease;
    if next.forgets {
      ForgettingStepSafe(ids, s, next);
    } else if forall id :: id in ids ==> Get(s.recorded, id) == Get(s.exposed, id) {
      ExactStepSafe(ids, s.exposed, s.recorded, next.planned, next.pending, next.refreshFailed, next.acked, next.limit);
    } else if HasDecrease(s.recorded, next.planned) {
      var a :| a in ids && Get(s.recorded, a) != Get(s.exposed, a);
      InexactStepSafe(ids, s, next, a);
    } else {
      RaisingStepSafe(ids, s, next);
    }
  }

  lemma RaisingStepSafe(ids: seq<PoolId>, s: Listeners, next: Step)
    requires NonNegative(ids, s) && Planned(ids, next) && !next.forgets && !HasDecrease(s.recorded, next.planned)
    requires forall id :: id in ids ==> Get(s.exposed, id) <= Get(s.recorded, id)
    ensures Total(ids, Take(s, next).exposed) <= next.limit
  {
    hide Total, Take;
    forall id | id in ids ensures Get(Take(s, next).exposed, id) <= Get(next.planned, id) {
      StepAt(ids, s, next, id);
      assert id in next.planned;
    }
    TotalMonotone(ids, Take(s, next).exposed, next.planned);
  }

  // One pool has no other to share a slot with.
  lemma LonePoolSafe(ids: seq<PoolId>, s: Listeners, next: Step)
    requires |ids| <= 1 && NonNegative(ids, s) && Planned(ids, next)
    ensures Total(ids, Take(s, next).exposed) <= Max(Total(ids, s.exposed), next.limit)
  {
    hide Total, Take;
    if next.forgets {
      ForgettingStepSafe(ids, s, next);
    } else {
      if ids != [] { StepAt(ids, s, next, ids[0]); }
      if forall id :: id in ids ==> Get(Take(s, next).exposed, id) <= Get(next.planned, id) {
        TotalMonotone(ids, Take(s, next).exposed, next.planned);
      } else {
        TotalMonotone(ids, Take(s, next).exposed, s.exposed);
      }
    }
  }

  // A pool the record covers but does not match is raised to its record while
  // the withdrawal of another goes unacknowledged.
  lemma InexactStepUnsafe(ids: seq<PoolId>, s: Listeners, a: PoolId, b: PoolId) returns (next: Step)
    requires Distinct(ids) && NonNegative(ids, s) && a in ids && b in ids && a != b
    requires forall id :: id in ids ==> Get(s.exposed, id) <= Get(s.recorded, id)
    requires Get(s.recorded, a) != Get(s.exposed, a) && Get(s.exposed, b) != 0
    ensures next.pending == map[]
    ensures Planned(ids, next) && Total(ids, Take(s, next).exposed) > Max(Total(ids, s.exposed), next.limit)
  {
    hide Total, Take;
    var base := map id | id in ids :: Get(s.exposed, id);
    SameTotal(ids, base, s.exposed);
    var raised := base[a := Get(s.recorded, a)];
    var planned := raised[b := 0];
    TotalUpdate(ids, base, a, Get(s.recorded, a));
    TotalUpdate(ids, raised, b, 0);
    next := Step(planned, Total(ids, planned), map[], false, {a}, false, Closed);
    RaisedOnly(ids, s, next, a, b);
    SameTotal(ids, Take(s, next).exposed, raised);
  }

  lemma SameTotal(ids: seq<PoolId>, m: Capacity, n: Capacity)
    requires forall id :: id in ids ==> Get(m, id) == Get(n, id)
    ensures Total(ids, m) == Total(ids, n)
  {
    assert At(ids, m) == At(ids, n);
  }

  lemma RaisedOnly(ids: seq<PoolId>, s: Listeners, next: Step, a: PoolId, b: PoolId)
    requires NonNegative(ids, s) && Planned(ids, next) && a in ids && b in ids && a != b
    requires next.planned[b] == 0 < Get(s.recorded, b) && next.planned[a] == Get(s.recorded, a)
    requires next.pending == map[] && !next.refreshFailed && next.acked == {a} && !next.forgets
    ensures forall id :: id in ids ==>
              Get(Take(s, next).exposed, id) == if id == a then Get(s.recorded, a) else Get(s.exposed, id)
  {
    assert HasDecrease(s.recorded, next.planned) by { assert b in next.planned; }
  }

  lemma UncoveredNextUnsafe(ids: seq<PoolId>, s: Listeners, culprit: PoolId) returns (next: Step)
    requires Distinct(ids) && |ids| >= 2 && NonNegative(ids, s)
    requires culprit in ids && Get(s.recorded, culprit) < Get(s.exposed, culprit)
    ensures next.pending == map[]
    ensures Planned(ids, next) && Total(ids, Take(s, next).exposed) > Max(Total(ids, s.exposed), next.limit)
  {
    hide Total, Exposed, CapacityTransfer.Sent;
    var limit := Max(Total(ids, s.exposed), Total(ids, s.recorded));
    var other := if ids[0] == culprit then ids[1] else ids[0];
    var planned, acked := UncoveredStepUnsafe(ids, s.exposed, s.recorded, map[], limit, culprit, other);
    next := Step(planned, limit, map[], false, acked, false, Closed);
  }

  /** The next Step is bound by its host limit or what is exposed now, for every
      plan, every pending capacity, every poll outcome and whether or not its
      record can be read, if and only if there is one pool at most, or the record
      covers every listener and is exact for each beside which another holds
      capacity. */
  lemma NextSafeExactly(ids: seq<PoolId>, s: Listeners)
    requires Distinct(ids) && NonNegative(ids, s)
    ensures SafeNext(ids, s) <==> |ids| <= 1 || Tolerable(ids, s)
  {
    hide Total, Take, Planned;
    if |ids| <= 1 || Tolerable(ids, s) {
      forall next: Step | Planned(ids, next)
        ensures Total(ids, Take(s, next).exposed) <= Max(Total(ids, s.exposed), next.limit)
      {
        if |ids| <= 1 { LonePoolSafe(ids, s, next); } else { TolerableStepSafe(ids, s, next); }
      }
    } else if culprit :| culprit in ids && Get(s.recorded, culprit) < Get(s.exposed, culprit) {
      var next := UncoveredNextUnsafe(ids, s, culprit);
    } else {
      var a, b :| a in ids && b in ids && a != b && Get(s.recorded, a) != Get(s.exposed, a) && Get(s.exposed, b) != 0;
      var next := InexactStepUnsafe(ids, s, a, b);
    }
  }

  lemma {:induction false} RunNonNegative(ids: seq<PoolId>, start: Listeners, steps: seq<Step>, k: nat)
    requires NonNegative(ids, start) && PlannedRun(ids, steps) && k <= |steps|
    ensures NonNegative(ids, After(start, steps, k))
  {
    hide NonNegative, Take, Planned;
    if k > 0 {
      RunNonNegative(ids, start, steps, k - 1);
      assert Planned(ids, steps[k - 1]);
      TakeKeepsNonNegative(ids, After(start, steps, k - 1), steps[k - 1]);
    }
  }

  lemma TakeKeepsNonNegative(ids: seq<PoolId>, s: Listeners, step: Step)
    requires NonNegative(ids, s) && Planned(ids, step)
    ensures NonNegative(ids, Take(s, step))
  {
    hide CapacityTransfer.Sent;
    SentNonNegative(ids, s, step);
  }

  /** So it is at every point of every run, whatever came before. */
  lemma RunSafeExactly(ids: seq<PoolId>, start: Listeners, steps: seq<Step>, k: nat)
    requires Distinct(ids) && NonNegative(ids, start) && PlannedRun(ids, steps) && k <= |steps|
    ensures SafeNext(ids, After(start, steps, k)) <==> |ids| <= 1 || Tolerable(ids, After(start, steps, k))
  {
    hide NonNegative, SafeNext, Tolerable;
    RunNonNegative(ids, start, steps, k);
    NextSafeExactly(ids, After(start, steps, k));
  }

  // ----- Which Steps keep it so -------------------------------------------

  // The Step leaves the pool's record exact.
  predicate Settles(s: Listeners, step: Step, id: PoolId) {
    if id in step.acked then step.saves.Closed? || Get(s.Sent(step), id) == Remembered(s, step, id)
    else Get(s.exposed, id) == Remembered(s, step, id)
  }

  // The Step leaves the pool's listener at zero.
  predicate Idles(s: Listeners, step: Step, id: PoolId) {
    if id in step.acked then Get(s.Sent(step), id) == 0 else Get(s.exposed, id) == 0
  }

  ghost predicate Tolerating(ids: seq<PoolId>, s: Listeners, step: Step) {
    && Covering(ids, s, step)
    && (forall a, b :: a in ids && b in ids && a != b ==> Settles(s, step, a) || Idles(s, step, b))
  }

  lemma TolerableExactly(ids: seq<PoolId>, s: Listeners, step: Step)
    requires NonNegative(ids, s) && Planned(ids, step) && Tolerable(ids, s)
    ensures Tolerable(ids, Take(s, step)) <==> Tolerating(ids, s, step)
  {
    hide CapacityTransfer.Sent, Take, Planned;
    CoveredExactly(ids, s, step);
    TakeKeepsNonNegative(ids, s, step);
    SentNonNegative(ids, s, step);
    forall id | id in ids
      ensures Get(Take(s, step).recorded, id) == Get(Take(s, step).exposed, id) <==> Settles(s, step, id)
      ensures Get(Take(s, step).exposed, id) == 0 <==> Idles(s, step, id)
    {
      TakeAt(s, step, id);
    }
  }

  lemma TakeAt(s: Listeners, step: Step, id: PoolId)
    requires id in s.Sent(step)
    ensures Get(Take(s, step).recorded, id) == Get(Take(s, step).exposed, id) <==> Settles(s, step, id)
    ensures Get(Take(s, step).exposed, id) == 0 <==> Idles(s, step, id)
  {
    hide CapacityTransfer.Sent;
  }

  ghost predicate ToleratingRun(ids: seq<PoolId>, start: Listeners, steps: seq<Step>, n: nat) {
    n <= |steps| && forall k :: 0 <= k < n ==> Tolerating(ids, After(start, steps, k), steps[k])
  }

  ghost predicate SafeAfter(ids: seq<PoolId>, start: Listeners, steps: seq<Step>, k: nat)
    requires k <= |steps|
  {
    SafeNext(ids, After(start, steps, k))
  }

  /** At every point of a run, before and after each Step, the next one is safe
      whatever it is, if and only if there is one pool at most, or the record
      starts tolerable and every Step of the run keeps it so. */
  lemma {:induction false} RunSafeThroughout(ids: seq<PoolId>, start: Listeners, steps: seq<Step>, n: nat)
    requires Distinct(ids) && NonNegative(ids, start) && PlannedRun(ids, steps) && n <= |steps|
    ensures (forall k :: 0 <= k <= n ==> SafeAfter(ids, start, steps, k))
       <==> |ids| <= 1 || (Tolerable(ids, start) && ToleratingRun(ids, start, steps, n))
  {
    hide NonNegative, SafeNext, Tolerable, Tolerating, Planned, Take;
    RunSafeExactly(ids, start, steps, n);
    assert SafeAfter(ids, start, steps, n) <==> |ids| <= 1 || Tolerable(ids, After(start, steps, n));
    if n == 0 {
      assert After(start, steps, 0) == start;
    } else {
      RunSafeThroughout(ids, start, steps, n - 1);
      RunNonNegative(ids, start, steps, n - 1);
      RunSafeExactly(ids, start, steps, n - 1);
      var s := After(start, steps, n - 1);
      assert Planned(ids, steps[n - 1]);
      assert ToleratingRun(ids, start, steps, n) <==>
             ToleratingRun(ids, start, steps, n - 1) && Tolerating(ids, s, steps[n - 1]);
      assert (forall k :: 0 <= k <= n ==> SafeAfter(ids, start, steps, k)) <==>
             (forall k :: 0 <= k <= n - 1 ==> SafeAfter(ids, start, steps, k)) && SafeAfter(ids, start, steps, n);
      if Tolerable(ids, s) { TolerableExactly(ids, s, steps[n - 1]); }
      assert SafeAfter(ids, start, steps, n - 1) <==> |ids| <= 1 || Tolerable(ids, s);
    }
  }

  // ----- Runs that pass the bound -----------------------------------------

  // Covering alone does not keep max(before, limit): the record shows a at two,
  // the limit is lowered to two and b is withdrawn, but only a, raised to its
  // record, acknowledges.
  lemma CoverageAloneExceeds(a: PoolId, b: PoolId)
    requires a != b
    ensures var s := Listeners(map[a := 0, b := 1], map[a := 2, b := 1]);
            var step := Step(map[a := 2, b := 0], 2, map[], false, {a}, false, Closed);
            && Covered([a, b], s) && Planned([a, b], step)
            && Total([a, b], s.exposed) == 1 && Total([a, b], Take(s, step).exposed) == 3
  {
    var s := Listeners(map[a := 0, b := 1], map[a := 2, b := 1]);
    var step := Step(map[a := 2, b := 0], 2, map[], false, {a}, false, Closed);
    hide Total;
    PairTotal(a, b, s.exposed);
    PairPlanned(a, b, step);
    assert HasDecrease(s.recorded, step.planned) by { assert b in step.planned; }
    PairTotal(a, b, Take(s, step).exposed);
  }

  // Host limit one, two pools acknowledged at zero. The first Step offers the
  // slot to a, whose poll succeeds, and is then superseded; a worker turning up
  // busy in b makes the second Step offer the slot to b. The record still shows
  // a at zero and only a is pending, so nothing is held back and two slots are
  // exposed.
  lemma LostAcknowledgementExposes(a: PoolId, b: PoolId)
    requires a != b
    ensures var first := Step(map[a := 1, b := 0], 1, map[], false, {a}, false, Checkpointed);
            var second := Step(map[a := 0, b := 1], 1, map[a := 1], false, {b}, false, Closed);
            && Planned([a, b], first) && Planned([a, b], second)
            && Total([a, b], After(Listeners(map[], map[]), [first, second], 1).exposed) == 1
            && Total([a, b], After(Listeners(map[], map[]), [first, second], 2).exposed) == 2
  {
    hide Total, CapacityTransfer.Sent, Planned;
    var first := Step(map[a := 1, b := 0], 1, map[], false, {a}, false, Checkpointed);
    var second := Step(map[a := 0, b := 1], 1, map[a := 1], false, {b}, false, Closed);
    var start := Listeners(map[], map[]);
    PairPlanned(a, b, first);
    PairPlanned(a, b, second);
    SentAsPlanned(map[], first.planned, map[]);
    SentAsPlanned(map[], second.planned, second.pending);
    assert After(start, [first, second], 1) == Take(start, first);
    assert After(start, [first, second], 2) == Take(Take(start, first), second);
    PairTotal(a, b, Take(start, first).exposed);
    PairTotal(a, b, Take(Take(start, first), second).exposed);
  }

  // No acknowledgement is lost here. The pool a holds the one slot; the next
  // Step cannot read its record, sends zero, reaches only b and closes with a at
  // zero; a stays out of reach and the slot goes to b as well.
  lemma ForgottenRecordExposes(a: PoolId, b: PoolId)
    requires a != b
    ensures var first := Step(map[a := 1, b := 0], 1, map[], false, {a, b}, false, Closed);
            var second := Step(map[a := 0, b := 0], 1, map[], false, {b}, true, Closed);
            var third := Step(map[a := 0, b := 1], 1, map[a := 0], false, {b}, false, Closed);
            var steps := [first, second, third];
            && PlannedRun([a, b], steps)
            && Total([a, b], After(Listeners(map[], map[]), steps, 2).exposed) == 1
            && Total([a, b], After(Listeners(map[], map[]), steps, 3).exposed) == 2
  {
    hide Take, Total, Planned;
    var first := Step(map[a := 1, b := 0], 1, map[], false, {a, b}, false, Closed);
    var second := Step(map[a := 0, b := 0], 1, map[], false, {b}, true, Closed);
    var third := Step(map[a := 0, b := 1], 1, map[a := 0], false, {b}, false, Closed);
    var start := Listeners(map[], map[]);
    var held, both := map[a := 1, b := 0], map[a := 1, b := 1];
    PairPlanned(a, b, first);
    PairPlanned(a, b, second);
    PairPlanned(a, b, third);
    PairTake(a, b, start, first, held, held);
    PairTake(a, b, Listeners(held, held), second, held, second.planned);
    PairTake(a, b, Listeners(held, second.planned), third, both, third.planned);
    ThreeSteps(start, first, second, third);
    PairTotal(a, b, held);
    PairTotal(a, b, both);
  }

  lemma ThreeSteps(start: Listeners, first: Step, second: Step, third: Step)
    ensures After(start, [first, second, third], 2) == Take(Take(start, first), second)
    ensures After(start, [first, second, third], 3) == Take(Take(Take(start, first), second), third)
  {
    hide Take;
    assert After(start, [first, second, third], 1) == Take(start, first);
  }

  lemma PairPlanned(a: PoolId, b: PoolId, step: Step)
    requires a != b && step.planned.Keys == {a, b} && 0 <= step.planned[a] && 0 <= step.planned[b]
    requires step.planned[a] + step.planned[b] <= step.limit
    requires forall id :: id in step.pending ==> 0 <= step.pending[id]
    requires step.forgets ==> step.planned[a] == step.planned[b] == 0
    ensures Planned([a, b], step)
  {
    hide Total;
    PairTotal(a, b, step.planned);
  }

  lemma SentAsPlanned(read: Capacity, planned: Capacity, pending: Capacity)
    requires forall id :: id in planned ==>
               0 <= planned[id] && Get(read, id) <= planned[id] && (id in pending ==> planned[id] <= pending[id])
    ensures CapacityTransfer.Sent(read, planned, pending, false) == planned
  {
    assert !HasDecrease(read, planned);
  }

  // A closed Step of two pools, neither lowered, with nothing in the way.
  lemma PairTake(a: PoolId, b: PoolId, s: Listeners, step: Step, exposed: Capacity, recorded: Capacity)
    requires step.planned.Keys == exposed.Keys == recorded.Keys == {a, b} && step.saves.Closed? && !step.refreshFailed
    requires s.exposed.Keys <= {a, b} && s.recorded.Keys <= {a, b}
    requires forall id :: id in step.planned ==>
               && 0 <= step.planned[id] && Get(s.Read(step), id) <= step.planned[id]
               && (id in step.pending ==> step.planned[id] <= step.pending[id])
               && exposed[id] == (if id in step.acked then step.planned[id] else Get(s.exposed, id))
               && recorded[id] == (if id in step.acked then step.planned[id] else Get(s.Read(step), id))
    ensures Take(s, step) == Listeners(exposed, recorded)
  {
    hide CapacityTransfer.Sent;
    SentAsPlanned(s.Read(step), step.planned, step.pending);
    assert Exposed(s.exposed, step.planned, step.acked) == exposed;
    assert Exposed(s.Read(step), step.planned, step.acked) == recorded;
  }

  lemma PairTotal(a: PoolId, b: PoolId, m: Capacity)
    ensures Total([a, b], m) == Get(m, a) + Get(m, b)
  {
    assert At([a, b], m) == [Get(m, a)] + [Get(m, b)];
    SumAppend([Get(m, a)], [Get(m, b)]);
  }
}
