/** From a restart request to the scheduled task being started again: the drain
    loop (internal/controller/shutdown.go:49-86), the completion receipt
    (internal/app/controller_main.go:402-420, 549-579) and the command that
    reads it (internal/app/controller_restart.go:34-164). */
module RestartChain {
  import opened Basics
  import opened FleetModel
  import opened PollRecords
  import opened Shutdown
  import opened ControlPlane

  // ----- The drain loop ---------------------------------------------------

  // One turn: the context ended, the Step failed, or it observed the fleet.
  datatype Turn =
    | Cancelled
    | StepFailed
    | Stepped(pools: seq<(PoolId, PoolRecord)>, workers: seq<Worker>)

  datatype Ending = Running | Drained | Degraded | Interrupted

  const DEGRADED_STEP_BUDGET := 3

  datatype Loop = Loop(failures: nat, ending: Ending)

  ghost function Turned(loop: Loop, turn: Turn, targets: seq<PoolId>): Loop {
    match turn
    case Cancelled => Loop(loop.failures, Interrupted)
    case StepFailed =>
      Loop(loop.failures + 1, if loop.failures + 1 >= DEGRADED_STEP_BUDGET then Degraded else Running)
    case Stepped(pools, workers) =>
      Loop(0, if FleetDrained(pools, targets, workers) then Drained else Running)
  }

  ghost function DrainLoop(turns: seq<Turn>, targets: seq<PoolId>, k: nat): Loop
    requires k <= |turns|
  {
    if k == 0 then Loop(0, Running)
    else
      var before := DrainLoop(turns, targets, k - 1);
      if before.ending.Running? then Turned(before, turns[k - 1], targets) else before
  }

  ghost predicate DrainedAt(turns: seq<Turn>, targets: seq<PoolId>, k: nat)
    requires k < |turns|
  {
    turns[k].Stepped? && FleetDrained(turns[k].pools, targets, turns[k].workers)
  }

  ghost predicate ThreeFailures(turns: seq<Turn>, k: nat)
    requires k < |turns|
  {
    k >= 2 && turns[k - 2].StepFailed? && turns[k - 1].StepFailed? && turns[k].StepFailed?
  }

  ghost predicate Stops(turns: seq<Turn>, targets: seq<PoolId>, k: nat)
    requires k < |turns|
  {
    turns[k].Cancelled? || DrainedAt(turns, targets, k) || ThreeFailures(turns, k)
  }

  ghost function EndingAt(turns: seq<Turn>, targets: seq<PoolId>, k: nat): Ending
    requires k < |turns| && Stops(turns, targets, k)
  {
    if turns[k].Cancelled? then Interrupted else if DrainedAt(turns, targets, k) then Drained else Degraded
  }

  // A running loop counts the failures at the end of its turns.
  ghost predicate CountsFailures(turns: seq<Turn>, k: nat, failures: nat)
    requires k <= |turns|
  {
    && failures < DEGRADED_STEP_BUDGET && failures <= k
    && (failures < k ==> !turns[k - 1 - failures].StepFailed?)
    && (forall i :: k - failures <= i < k ==> turns[i].StepFailed?)
  }

  /** The loop runs exactly while no turn was cancelled, no Step observed a
      drained fleet and no three Steps in a row failed. */
  lemma {:induction false} LoopRuns(turns: seq<Turn>, targets: seq<PoolId>, k: nat)
    requires k <= |turns|
    ensures DrainLoop(turns, targets, k).ending.Running? <==> forall j :: 0 <= j < k ==> !Stops(turns, targets, j)
    ensures DrainLoop(turns, targets, k).ending.Running? ==>
              CountsFailures(turns, k, DrainLoop(turns, targets, k).failures)
  {
    hide FleetDrained;
    if k > 0 {
      LoopRuns(turns, targets, k - 1);
      var before := DrainLoop(turns, targets, k - 1);
      if before.ending.Running? {
        assert ThreeFailures(turns, k - 1) <==> turns[k - 1].StepFailed? && before.failures == 2;
        assert DrainLoop(turns, targets, k).ending.Running? <==> !Stops(turns, targets, k - 1);
      }
    }
  }

  /** It ends at the first turn that stops it, and how it ends is what that turn
      was. */
  lemma {:induction false} LoopEnds(turns: seq<Turn>, targets: seq<PoolId>, k: nat) returns (j: nat)
    requires k <= |turns| && !DrainLoop(turns, targets, k).ending.Running?
    ensures j < k && Stops(turns, targets, j) && forall i :: 0 <= i < j ==> !Stops(turns, targets, i)
    ensures DrainLoop(turns, targets, k).ending == EndingAt(turns, targets, j)
  {
    hide FleetDrained;
    LoopRuns(turns, targets, k - 1);
    if DrainLoop(turns, targets, k - 1).ending.Running? {
      j := k - 1;
      LoopRuns(turns, targets, k);
    } else {
      j := LoopEnds(turns, targets, k - 1);
    }
  }

  lemma {:induction false} LoopStays(turns: seq<Turn>, targets: seq<PoolId>, j: nat, k: nat)
    requires j <= k <= |turns| && !DrainLoop(turns, targets, j).ending.Running?
    ensures DrainLoop(turns, targets, k) == DrainLoop(turns, targets, j)
    decreases k
  {
    if j < k { LoopStays(turns, targets, j, k - 1); }
  }

  // ----- What the drain returns -------------------------------------------

  // The errors joined into the result; ErrShutdownDegraded is one of its own.
  datatype Errors = Errors(degraded: bool, other: bool)
  {
    predicate None() { !degraded && !other }
  }

  function Joined(a: Errors, b: Errors): Errors {
    Errors(a.degraded || b.degraded, a.other || b.other)
  }

  // None where the adapter has nothing to close.
  datatype Closes = Closes(sessions: Option<bool>, workers: Option<bool>)
  {
    predicate Succeed() { sessions != Some(false) && workers != Some(false) }
  }

  function ShutdownErrors(ending: Ending, closes: Closes): Errors {
    match ending
    case Running | Interrupted => Errors(false, true)
    case Drained => Errors(false, !closes.Succeed())
    case Degraded => Errors(true, !closes.Succeed())
  }

  /** Reconciler.Shutdown over the turns it is given; Running if they do not
      bring it to an end. */
  method ShutDown(turns: seq<Turn>, targets: seq<PoolId>, closes: Closes) returns (ending: Ending, errors: Errors)
    requires Distinct(targets)
    ensures ending == DrainLoop(turns, targets, |turns|).ending
    ensures errors == ShutdownErrors(ending, closes)
  {
    hide FleetDrained;
    ending := Running;
    var degradedSteps, i := 0, 0;
    while i < |turns|
      invariant 0 <= i <= |turns|
      invariant ending.Running? && DrainLoop(turns, targets, i) == Loop(degradedSteps, ending)
    {
      assert DrainLoop(turns, targets, i + 1) == Turned(Loop(degradedSteps, Running), turns[i], targets);
      match turns[i] {
        case Cancelled =>
          LoopStays(turns, targets, i + 1, |turns|);
          return Interrupted, Errors(false, true);
        case StepFailed =>
          degradedSteps := degradedSteps + 1;
          if degradedSteps >= DEGRADED_STEP_BUDGET { ending := Degraded; }
        case Stepped(pools, workers) =>
          degradedSteps := 0;
          var drained := ShutdownDrained(pools, targets, workers);
          if drained { ending := Drained; }
      }
      if !ending.Running? {
        LoopStays(turns, targets, i + 1, |turns|);
        break;
      }
      i := i + 1;
    }
    if ending.Running? { return ending, Errors(false, true); }
    errors := Errors(ending.Degraded?, false);
    if closes.sessions == Some(false) { errors := Joined(errors, Errors(false, true)); }
    if closes.workers == Some(false) { errors := Joined(errors, Errors(false, true)); }
  }

  // ----- The completion receipt -------------------------------------------

  datatype Receipt = Receipt(schema: int, requestId: string, pid: nat, version: string, completedAt: int)

  datatype Exit = ExitClean | ExitError | ExitRestart

  // The receipt store: absent, failing, or writing at a time.
  datatype Store = NoStore | StoreFails | StoreWrites(now: int)

  method CompleteControllerShutdown(errors: Errors, signal: Signal, store: Store, pid: nat, version: string)
    returns (exit: Exit, receipt: Option<Receipt>)
    ensures receipt.Some? <==>
              && signal.restart && (errors.None() || errors.degraded)
              && store.StoreWrites? && signal.requestId != "" && pid != 0 && version != ""
    ensures receipt.Some? ==> receipt.value == Receipt(1, signal.requestId, pid, version, store.now)
    ensures exit.ExitRestart? <==> receipt.Some?
    ensures exit.ExitClean? <==> !signal.restart && errors.None()
    ensures receipt == Completion(errors, signal, store, pid, version)
  {
    if !errors.None() && (!signal.restart || !errors.degraded) { return ExitError, None; }
    if !signal.restart { return if errors.None() then ExitClean else ExitError, None; }
    if store.NoStore? || signal.requestId == "" || pid == 0 || version == "" { return ExitError, None; }
    if store.StoreFails? { return ExitError, None; }
    return ExitRestart, Some(Receipt(1, signal.requestId, pid, version, store.now));
  }

  function Completion(errors: Errors, signal: Signal, store: Store, pid: nat, version: string): Option<Receipt> {
    if signal.restart && (errors.None() || errors.degraded)
       && store.StoreWrites? && signal.requestId != "" && pid != 0 && version != ""
    then Some(Receipt(1, signal.requestId, pid, version, store.now))
    else None
  }

  // ----- One controller process -------------------------------------------

  // Why the controller loop stopped reconciling (controller_main.go:430-545).
  datatype Trigger = Signalled | ProcessInterrupt | ServerExited | GaveUp

  datatype Life = Life(
    pid: nat, version: string, ops: seq<Op>, trigger: Trigger,
    turns: seq<Turn>, targets: seq<PoolId>, closes: Closes,
    serverCloses: bool, serverStops: bool, store: Store)
  {
    function Final(): Handler {
      After(Fresh(pid, version), ops, |ops|)
    }

    // The signal the loop acts on.
    function ActedOn(): Option<Signal> {
      match trigger
      case Signalled => if Final().sent == [] then None else Some(Final().sent[0])
      case ProcessInterrupt => Some(Signal("", "process interrupt", false))
      case ServerExited => Some(Signal("", "control server exited unexpectedly", false))
      case GaveUp => None
    }

    ghost function Ended(): Ending {
      DrainLoop(turns, targets, |turns|).ending
    }

    ghost function Failures(): Errors {
      var server := !serverCloses || (!trigger.ServerExited? && !serverStops);
      Joined(ShutdownErrors(Ended(), closes), Errors(false, server))
    }

    // The receipt the process leaves behind, if any.
    ghost function LeftBehind(): Option<Receipt> {
      if ActedOn().None? || Ended().Running? then None
      else Completion(Failures(), ActedOn().value, store, pid, version)
    }
  }

  // The process drained whole and closed everything, or gave up on draining
  // after three failing Steps.
  ghost predicate EndedWell(l: Life) {
    || (l.Ended().Drained? && l.closes.Succeed() && l.serverCloses && l.serverStops)
    || l.Ended().Degraded?
  }

  /** A receipt is left exactly by a process that acted on its own committed
      restart and ended well. */
  lemma ReceiptExactly(l: Life)
    ensures l.LeftBehind().Some? <==>
              && l.trigger.Signalled? && EndedWell(l)
              && l.Final().committed && l.Final().pendingRestart
              && l.store.StoreWrites? && l.pid != 0 && l.version != ""
    ensures l.LeftBehind().Some? ==>
              && l.LeftBehind().value == Receipt(1, l.Final().pendingId, l.pid, l.version, l.store.now)
              && l.Final().sent == [Signal(l.Final().pendingId, l.Final().pendingReason, true)]
  {
    hide DrainLoop, After;
    AfterCoherent(Fresh(l.pid, l.version), l.ops, |l.ops|);
  }

  // ----- The restart command ----------------------------------------------

  datatype Loaded = Found(receipt: Receipt) | NotFound | Unreadable

  // What the command is told at each of its steps; None where a call failed,
  // with the reason the command distinguishes.
  datatype Command = Command(
    buildVersion: string,
    unavailable: bool,
    status: Option<Status>,
    opens: bool,
    preflightChanged: bool,
    accepted: Option<Status>,
    exitCode: Option<int>,
    loaded: Loaded)

  datatype CommandExit = ExitDegraded | ExitRuntime | ExitStateChanged | StoppedForUpdate | StartTask

  const RESTART_EXIT_CODE := 75

  predicate Consistent(accepted: Status, status: Status) {
    accepted.shuttingDown && accepted.pid == status.pid && accepted.version == status.version
    && accepted.counts == status.counts
  }

  // The request whose receipt the command waits for; "" if it learned none.
  function AwaitedRequest(c: Command): string
    requires c.status.Some?
  {
    if c.status.value.shuttingDown then c.status.value.restartRequestId
    else if c.accepted.Some? && Consistent(c.accepted.value, c.status.value) then c.accepted.value.restartRequestId
    else ""
  }

  predicate Verified(receipt: Receipt, requestId: string, status: Status) {
    receipt.schema == 1 && receipt.completedAt != 0
    && receipt.requestId == requestId && receipt.pid == status.pid && receipt.version == status.version
  }

  // The scheduled task may be started: a receipt names the exact request, process and
  // version, and the process is gone.
  predicate Authorized(c: Command) {
    && c.status.Some? && c.status.value.pid != 0 && c.status.value.version == c.buildVersion
    && c.opens && AwaitedRequest(c) != "" && c.exitCode.Some?
    && c.loaded.Found? && Verified(c.loaded.receipt, AwaitedRequest(c), c.status.value)
  }

  method StopController(c: Command, restart: bool) returns (exit: CommandExit)
    ensures exit.StartTask? <==> restart && Authorized(c)
    ensures exit.StoppedForUpdate? ==> !restart && c.exitCode == Some(0)
  {
    if c.status.None? { return if c.unavailable then ExitDegraded else ExitRuntime; }
    var status := c.status.value;
    if status.pid == 0 { return ExitStateChanged; }
    if restart && status.version != c.buildVersion { return ExitStateChanged; }
    if !c.opens { return ExitRuntime; }
    var requestId := status.restartRequestId;
    if restart && status.shuttingDown && requestId == "" { return ExitStateChanged; }
    if !status.shuttingDown {
      if c.accepted.None? { return if c.preflightChanged then ExitStateChanged else ExitRuntime; }
      var accepted := c.accepted.value;
      if !accepted.shuttingDown || accepted.pid != status.pid || accepted.version != status.version
         || accepted.counts != status.counts { return ExitStateChanged; }
      if restart {
        requestId := accepted.restartRequestId;
        if requestId == "" { return ExitStateChanged; }
      }
    }
    if c.exitCode.None? { return ExitRuntime; }
    if !restart && c.exitCode.value != 0 { return ExitRuntime; }
    if !restart { return StoppedForUpdate; }
    var verified := c.loaded.Found? && Verified(c.loaded.receipt, requestId, status);
    if c.exitCode.value != RESTART_EXIT_CODE {
      if verified { return StartTask; }
      if c.loaded.Unreadable? { return ExitRuntime; }
      return ExitStateChanged;
    }
    if c.loaded.NotFound? { return ExitStateChanged; }
    if c.loaded.Unreadable? { return ExitRuntime; }
    if !verified { return ExitStateChanged; }
    return StartTask;
  }

  // ----- The chain --------------------------------------------------------

  // Process l accepted a shutdown request with this ID at some point.
  ghost predicate Asked(l: Life, id: string) {
    exists i :: 0 <= i < |l.ops| && AskedAt(l, id, i)
  }

  ghost predicate AskedAt(l: Life, id: string, i: nat)
    requires i < |l.ops|
  {
    l.ops[i].Handle? && l.ops[i].request.id == id
    && Respond(After(Fresh(l.pid, l.version), l.ops, i), l.ops[i].request, l.ops[i].seen).Accepted?
  }

  // No two processes of one ID and version accepted this request.
  ghost predicate AskedOnce(lives: seq<Life>, id: string) {
    forall a, b ::
      (0 <= a < |lives| && 0 <= b < |lives| && lives[a].pid == lives[b].pid && lives[a].version == lives[b].version
       && Asked(lives[a], id) && Asked(lives[b], id)) ==> a == b
  }

  // The command talked to process l: its status is the one l gave after i
  // operations, and its acceptance is l's answer to restart request j.
  ghost predicate TalkedTo(c: Command, l: Life, i: nat, j: nat) {
    && i <= |l.ops|
    && (c.status.Some? ==>
          c.status.value == StatusOf(After(Fresh(l.pid, l.version), l.ops, i), c.status.value.counts))
    && (c.accepted.Some? ==>
          && i <= j < |l.ops| && l.ops[j].Handle? && l.ops[j].request.restart
          && Respond(After(Fresh(l.pid, l.version), l.ops, j), l.ops[j].request, l.ops[j].seen)
             == Accepted(c.accepted.value))
  }

  // The request the command waits for was put to the process it talked to.
  lemma AwaitedWasAsked(c: Command, l: Life, i: nat, j: nat)
    requires TalkedTo(c, l, i, j) && c.status.Some? && AwaitedRequest(c) != ""
    ensures Asked(l, AwaitedRequest(c))
    ensures c.status.value.pid == l.pid && c.status.value.version == l.version
  {
    hide After, Respond;
    var h := Fresh(l.pid, l.version);
    AfterCoherent(h, l.ops, i);
    if c.status.value.shuttingDown {
      var m, r := PendingExplained(h, l.ops, i);
      assert HasReserved(After(h, l.ops, i), r);
      assert AskedAt(l, AwaitedRequest(c), m);
    } else {
      RestartNamesItself(After(h, l.ops, j), l.ops[j].request, l.ops[j].seen);
      assert AskedAt(l, AwaitedRequest(c), j);
    }
  }

  lemma RestartNamesItself(h: Handler, r: ShutdownRequest, seen: Option<Status>)
    requires r.restart && Respond(h, r, seen).Accepted?
    ensures Respond(h, r, seen).status.restartRequestId == r.id
  {
  }

  // A receipt's request was put to the process that left it.
  lemma ReceiptWasAsked(l: Life)
    requires l.LeftBehind().Some?
    ensures Asked(l, l.LeftBehind().value.requestId)
  {
    hide After, Respond, DrainLoop;
    ReceiptExactly(l);
    var i, j, r := SignalExplained(Fresh(l.pid, l.version), l.ops, |l.ops|);
    assert AskedAt(l, r.id, i);
  }

  // The drain loop ended at turn j: there the fleet was drained, and everything
  // closed, or the third Step in a row failed; and no turn before had ended it.
  ghost predicate EndedAt(l: Life, j: nat) {
    && j < |l.turns| && (forall i :: 0 <= i < j ==> !Stops(l.turns, l.targets, i))
    && (|| (DrainedAt(l.turns, l.targets, j) && l.closes.Succeed() && l.serverCloses && l.serverStops)
        || ThreeFailures(l.turns, j))
  }

  lemma EndedWellAt(l: Life)
    requires EndedWell(l)
    ensures exists j :: EndedAt(l, j)
  {
    hide DrainLoop, FleetDrained;
    var j := LoopEnds(l.turns, l.targets, |l.turns|);
    assert EndedAt(l, j);
  }

  /** The restart chain: if the command may start the scheduled task, then the process it
      talked to committed exactly that restart request, sent no other signal,
      acted on it, and ended fully drained with every close successful or
      through three consecutive failing Steps.

      The receipt file is written by controllers only, and a request ID is drawn
      afresh for every request. */
  lemma RestartProven(c: Command, lives: seq<Life>, t: nat, i: nat, j: nat)
    requires t < |lives| && TalkedTo(c, lives[t], i, j) && Authorized(c)
    requires exists w :: 0 <= w < |lives| && lives[w].LeftBehind() == Some(c.loaded.receipt)
    requires AskedOnce(lives, AwaitedRequest(c))
    ensures lives[t].trigger.Signalled? && exists j :: EndedAt(lives[t], j)
    ensures lives[t].Final().sent == [Signal(AwaitedRequest(c), lives[t].Final().pendingReason, true)]
  {
    hide After, Respond, DrainLoop, Asked, Consistent;
    var w :| 0 <= w < |lives| && lives[w].LeftBehind() == Some(c.loaded.receipt);
    AwaitedWasAsked(c, lives[t], i, j);
    ReceiptExactly(lives[w]);
    ReceiptWasAsked(lives[w]);
    assert w == t;
    EndedWellAt(lives[t]);
  }

  /** And the chain completes: a process that ends well on a committed restart
      leaves a receipt that lets the command waiting for that request start the
      scheduled task, whatever the exit code. */
  lemma RestartCompletes(c: Command, l: Life, i: nat, j: nat)
    requires TalkedTo(c, l, i, j) && c.status.Some?
    requires c.status.value.pid != 0 && c.status.value.version == c.buildVersion
    requires c.opens && c.exitCode.Some? && l.version != "" && l.store.StoreWrites? && l.store.now != 0
    requires l.trigger.Signalled? && EndedWell(l) && l.Final().committed && l.Final().pendingRestart
    requires AwaitedRequest(c) == l.Final().pendingId
    requires l.LeftBehind().Some? ==> c.loaded == Found(l.LeftBehind().value)
    ensures Authorized(c)
  {
    hide After, Respond, DrainLoop, Consistent;
    ReceiptExactly(l);
    AfterCoherent(Fresh(l.pid, l.version), l.ops, i);
    AfterCoherent(Fresh(l.pid, l.version), l.ops, |l.ops|);
  }
}
