/** The two-phase shutdown reservation of the local control server
    (internal/controller/control_handler.go:25-242): a request reserves the
    transition, and only once its acceptance reached the client is it committed. */
module ControlPlane {
  import opened Basics
  import JobRecords

  // ----- Requests ---------------------------------------------------------

  // What status reads of the observed state.
  datatype Counts = Counts(assignedJobs: int, activeJobs: int, activeWorkers: int)

  datatype ShutdownRequest = ShutdownRequest(
    id: string, reason: string, restart: bool,
    pid: nat, version: string, counts: Counts)

  datatype Signal = Signal(requestId: string, reason: string, restart: bool)

  datatype Status = Status(pid: nat, version: string, counts: Counts, shuttingDown: bool, restartRequestId: string)

  datatype Refusal = InvalidRequest | StatusUnavailable | StateChanged | InProgress

  datatype Response = Refused(code: Refusal) | Accepted(status: Status)

  predicate IdChar(c: char) {
    'A' <= c <= 'Z' || 'a' <= c <= 'z' || '0' <= c <= '9'
  }

  // requestIDPattern (internal/control/protocol.go:17).
  predicate ValidId(id: string) {
    1 <= |id| <= 128 && IdChar(id[0]) && forall i :: 1 <= i < |id| ==> IdChar(id[i]) || id[i] in "._-"
  }

  // Request.Validate for a shutdown (internal/control/protocol.go:95-125).
  predicate ValidRequest(r: ShutdownRequest) {
    && ValidId(r.id)
    && !JobRecords.Blank(r.reason) && |r.reason| <= 256
    && r.pid != 0
    && !JobRecords.Blank(r.version) && |r.version| <= 128
    && r.counts.assignedJobs >= 0 && r.counts.activeJobs >= 0 && r.counts.activeWorkers >= 0
  }

  // ----- The handler as a state machine -----------------------------------

  datatype Handler = Handler(
    pid: nat, version: string,
    pendingId: string, pendingReason: string, pendingRestart: bool,
    committed: bool, stopping: bool, sent: seq<Signal>)

  function Fresh(pid: nat, version: string): Handler {
    Handler(pid, version, "", "", false, false, false, [])
  }

  // A request is answered from a status read before the lock is taken, so other
  // operations may come in between; seen is None if it could not be read.
  datatype Op =
    | Handle(request: ShutdownRequest, seen: Option<Status>)
    | Commit(id: string)
    | Abort(id: string)
    | BeginShutdown

  function StatusOf(h: Handler, counts: Counts): Status {
    Status(h.pid, h.version, counts, h.pendingId != "" || h.stopping, if h.pendingRestart then h.pendingId else "")
  }

  function Respond(h: Handler, r: ShutdownRequest, seen: Option<Status>): Response {
    if !ValidRequest(r) then Refused(InvalidRequest)
    else if seen.None? then Refused(StatusUnavailable)
    else if seen.value.pid != r.pid || seen.value.version != r.version || seen.value.counts != r.counts
    then Refused(StateChanged)
    else if h.pendingId != "" && h.pendingId != r.id then Refused(InProgress)
    else
      var status := seen.value.(shuttingDown := true);
      Accepted(if r.restart then status.(restartRequestId := r.id) else status)
  }

  function Reserve(h: Handler, r: ShutdownRequest): Handler {
    h.(pendingId := r.id, pendingReason := r.reason, pendingRestart := r.restart)
  }

  function Apply(h: Handler, op: Op): Handler {
    match op
    case Handle(r, seen) =>
      if Respond(h, r, seen).Accepted? && h.pendingId == "" then Reserve(h, r) else h
    case Commit(id) =>
      if id == "" || id != h.pendingId || h.committed then h
      else h.(committed := true, stopping := true, sent := h.sent + [Signal(id, h.pendingReason, h.pendingRestart)])
    case Abort(id) =>
      if id == "" || id != h.pendingId || h.committed then h
      else h.(pendingId := "", pendingReason := "", pendingRestart := false)
    case BeginShutdown => h.(stopping := true)
  }

  // The handler after the first k operations, however connections interleave.
  function After(h: Handler, ops: seq<Op>, k: nat): Handler
    requires k <= |ops|
  {
    if k == 0 then h else Apply(After(h, ops, k - 1), ops[k - 1])
  }

  // ----- At most one signal, and what it stands for -----------------------

  ghost predicate Coherent(h: Handler) {
    && (h.committed <==> h.sent != [])
    && (h.committed ==> h.pendingId != "" && h.sent == [Signal(h.pendingId, h.pendingReason, h.pendingRestart)])
    && (h.pendingRestart ==> h.pendingId != "")
  }

  lemma ApplyCoherent(h: Handler, op: Op)
    requires Coherent(h)
    ensures Coherent(Apply(h, op))
    ensures Apply(h, op).pid == h.pid && Apply(h, op).version == h.version
    ensures h.committed ==> Apply(h, op).(stopping := h.stopping) == h
  {
    hide JobRecords.Blank, IdChar;
  }

  lemma {:induction false} AfterCoherent(h: Handler, ops: seq<Op>, k: nat)
    requires k <= |ops| && Coherent(h)
    ensures Coherent(After(h, ops, k))
    ensures After(h, ops, k).pid == h.pid && After(h, ops, k).version == h.version
  {
    hide Coherent, Apply;
    if k > 0 {
      AfterCoherent(h, ops, k - 1);
      ApplyCoherent(After(h, ops, k - 1), ops[k - 1]);
    }
  }

  /** However requests, commits and aborts interleave, a process sends at most
      one shutdown signal, and nothing after a commit takes it back. */
  lemma {:induction false} AtMostOneSignal(h: Handler, ops: seq<Op>, j: nat, k: nat)
    requires j <= k <= |ops| && Coherent(h)
    ensures |After(h, ops, k).sent| <= 1
    ensures After(h, ops, j).committed ==>
              After(h, ops, k).(stopping := After(h, ops, j).stopping) == After(h, ops, j)
    decreases k
  {
    hide Apply;
    AfterCoherent(h, ops, k);
    if j < k {
      AtMostOneSignal(h, ops, j, k - 1);
      AfterCoherent(h, ops, k - 1);
      ApplyCoherent(After(h, ops, k - 1), ops[k - 1]);
    }
  }

  // Operation i accepted request r when nothing was pending, and r's
  // reservation stood up to operation k.
  ghost predicate Standing(h: Handler, ops: seq<Op>, i: nat, k: nat, r: ShutdownRequest)
    requires k <= |ops|
  {
    && i < k
    && ops[i].Handle? && ops[i].request == r
    && Respond(After(h, ops, i), r, ops[i].seen).Accepted? && After(h, ops, i).pendingId == ""
    && (forall m :: i < m <= k ==> HasReserved(After(h, ops, m), r))
  }

  ghost predicate HasReserved(h: Handler, r: ShutdownRequest) {
    h.pendingId == r.id && h.pendingReason == r.reason && h.pendingRestart == r.restart
  }

  lemma {:induction false} PendingExplained(h: Handler, ops: seq<Op>, k: nat) returns (i: nat, r: ShutdownRequest)
    requires k <= |ops| && h.pendingId == "" && After(h, ops, k).pendingId != ""
    ensures Standing(h, ops, i, k, r)
  {
    hide Respond;
    if After(h, ops, k - 1).pendingId == "" {
      i, r := k - 1, ops[k - 1].request;
    } else {
      i, r := PendingExplained(h, ops, k - 1);
      assert HasReserved(After(h, ops, k - 1), r);
      assert HasReserved(After(h, ops, k), r);
    }
  }

  /** A signal stands for one request: it was accepted when nothing was pending,
      its reservation stood until its own commit, and the signal carries its
      reason and its restart flag. */
  lemma {:induction false} SignalExplained(h: Handler, ops: seq<Op>, k: nat)
    returns (i: nat, j: nat, r: ShutdownRequest)
    requires k <= |ops| && Coherent(h) && h.pendingId == "" && After(h, ops, k).sent != []
    ensures i < j < k && Standing(h, ops, i, j, r) && ops[j] == Commit(r.id) && !After(h, ops, j).committed
    ensures After(h, ops, k).sent == [Signal(r.id, r.reason, r.restart)]
  {
    hide Respond;
    AfterCoherent(h, ops, k - 1);
    if After(h, ops, k - 1).committed {
      i, j, r := SignalExplained(h, ops, k - 1);
    } else {
      j := k - 1;
      i, r := PendingExplained(h, ops, j);
      assert HasReserved(After(h, ops, j), r);
    }
  }

  // ----- The code ---------------------------------------------------------

  class ControlHandler {
    const pid: nat
    const version: string
    var pendingId: string
    var pendingReason: string
    var pendingRestart: bool
    var committed: bool
    var stopping: bool
    var sent: seq<Signal>

    ghost function State(): Handler
      reads this
    {
      Handler(pid, version, pendingId, pendingReason, pendingRestart, committed, stopping, sent)
    }

    constructor (pid: nat, version: string)
      ensures State() == Fresh(pid, version)
      ensures Coherent(State())
    {
      this.pid, this.version := pid, version;
      pendingId, pendingReason, pendingRestart := "", "", false;
      committed, stopping, sent := false, false, [];
    }

    method ReadStatus(counts: Counts) returns (status: Status)
      ensures status == StatusOf(State(), counts)
    {
      var pending := pendingId != "";
      var restartRequestId := "";
      if pendingRestart { restartRequestId := pendingId; }
      status := Status.Status(pid, version, counts, pending || stopping, restartRequestId);
    }

    // The reservation under the lock, on a status read earlier.
    method HandleShutdown(r: ShutdownRequest, seen: Option<Status>) returns (response: Response)
      modifies this
      ensures response == Respond(old(State()), r, seen)
      ensures State() == Apply(old(State()), Handle(r, seen))
    {
      hide ValidRequest;
      if !ValidRequest(r) { return Refused(InvalidRequest); }
      if seen.None? { return Refused(StatusUnavailable); }
      var status := seen.value;
      if status.pid != r.pid || status.version != r.version { return Refused(StateChanged); }
      if status.counts != r.counts { return Refused(StateChanged); }
      if pendingId != "" && pendingId != r.id { return Refused(InProgress); }
      if pendingId == "" {
        pendingId, pendingReason, pendingRestart := r.id, r.reason, r.restart;
      }
      status := status.(shuttingDown := true);
      if r.restart { status := status.(restartRequestId := r.id); }
      response := Accepted(status);
    }

    method CommitShutdown(id: string)
      modifies this
      ensures State() == Apply(old(State()), Commit(id))
    {
      if id == "" || id != pendingId || committed { return; }
      committed := true;
      var signal := Signal(id, pendingReason, pendingRestart);
      stopping := true;
      sent := sent + [signal];
    }

    method AbortShutdown(id: string)
      modifies this
      ensures State() == Apply(old(State()), Abort(id))
    {
      if id == "" || id != pendingId || committed { return; }
      pendingId, pendingReason, pendingRestart := "", "", false;
    }
  }
}
