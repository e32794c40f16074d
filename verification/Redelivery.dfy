/** What one poll does with a scale-set message, and what happens when it is
    delivered again (internal/scaleset/official.go:221-300): a save, the
    acknowledgement or the acquisition may fail, and an unacknowledged message
    comes back. */
module Redelivery {
  import opened Basics
  import opened JobRecords
  import opened JobIndex
  import opened MessageBatch

  // The first call that fails in a delivery, if any. A save may also replace the
  // catalog and still report an error: the assign-times sidecar is not written,
  // or a step after both fails.
  datatype Fault = NoFault | SaveFails(at: nat) | SidecarFails(at: nat) | SaveUnconfirmed(at: nat) | AckFails
    | AcquireFails

  datatype Act = Save(event: nat) | Acknowledge | Acquire(requests: seq<int>)

  datatype Outcome = Refused | SaveFailed | AckFailed | AcquireFailed | Processed

  // The catalog, the runners' active jobs, and the calls that succeeded.
  datatype Session = Session(index: map<Key, Record>, active: map<string, string>, log: seq<Act>)

  datatype Delivery = Delivery(session: Session, outcome: Outcome)

  // ----- Saving the events ------------------------------------------------

  // The catalog, and how many saves succeeded.
  datatype Saved = Saved(index: map<Key, Record>, count: nat)

  // What is on disk after the save of event i over a catalog that accepts it.
  function Landed(index: map<Key, Record>, p: Patch, now: int, fault: Fault, i: nat): map<Key, Record>
    requires Persist(index, p, now).Some?
  {
    if fault == SaveFails(i) then index
    else if fault == SidecarFails(i) then Tear(index, p, now).value
    else Persist(index, p, now).value
  }

  predicate SaveBreaks(fault: Fault, i: nat) {
    fault == SaveFails(i) || fault == SidecarFails(i) || fault == SaveUnconfirmed(i)
  }

  // The catalog after the first k saves, stopping at the first that fails.
  ghost function SaveEvents(index: map<Key, Record>, pool: string, events: seq<Event>, clock: nat -> int, fault: Fault,
                            k: nat): (r: Saved)
    requires k <= |events|
    ensures r.count <= k
  {
    if k == 0 then Saved(index, 0)
    else
      var r := SaveEvents(index, pool, events, clock, fault, k - 1);
      var p := PatchFor(pool, events[k - 1], clock(k - 1));
      if r.count < k - 1 || Persist(r.index, p, clock(k - 1)).None? then r
      else
        Saved(Landed(r.index, p, clock(k - 1), fault, k - 1), if SaveBreaks(fault, k - 1) then k - 1 else k)
  }

  // How many of n saves a fault lets succeed.
  function Reach(fault: Fault, n: nat): (r: nat)
    ensures r <= n
  {
    if fault.SaveFails? || fault.SidecarFails? || fault.SaveUnconfirmed? then Min(fault.at, n) else n
  }

  // If every event can be saved, the saves before the fault are, and the one at
  // fault leaves on disk what it does.
  lemma {:induction false} SaveEventsReach(index: map<Key, Record>, pool: string, events: seq<Event>,
                                           clock: nat -> int, fault: Fault, k: nat)
    requires k <= |events| && PersistAll(index, pool, events, clock, k).Some?
    ensures var c := Reach(fault, k);
            var r := SaveEvents(index, pool, events, clock, fault, k);
            && r.count == c && PersistAll(index, pool, events, clock, c).Some?
            && var before := PersistAll(index, pool, events, clock, c).value;
               if c == k then r.index == before
               else
                 var p := PatchFor(pool, events[c], clock(c));
                 && Persist(before, p, clock(c)).Some?
                 && r.index == Landed(before, p, clock(c), fault, c)
  {
    hide Persist, Tear, PatchFor;
    if k > 0 { SaveEventsReach(index, pool, events, clock, fault, k - 1); }
  }

  // Whatever stops the saves, those that succeeded are a prefix of the events,
  // and at most the next one is on disk, whole or torn.
  lemma {:induction false} SaveEventsPrefix(index: map<Key, Record>, pool: string, events: seq<Event>,
                                            clock: nat -> int, fault: Fault, k: nat)
    requires k <= |events|
    ensures var r := SaveEvents(index, pool, events, clock, fault, k);
            && PersistAll(index, pool, events, clock, r.count).Some?
            && OnDisk(PersistAll(index, pool, events, clock, r.count).value, r.index, pool, events, clock, r.count)
            && (r.count == k ==> PersistAll(index, pool, events, clock, k) == Some(r.index))
  {
    hide Persist, Tear, PatchFor;
    if k > 0 { SaveEventsPrefix(index, pool, events, clock, fault, k - 1); }
  }

  ghost predicate OnDisk(before: map<Key, Record>, index: map<Key, Record>, pool: string, events: seq<Event>,
                         clock: nat -> int, i: nat)
  {
    || index == before
    || (i < |events|
        && var p := PatchFor(pool, events[i], clock(i));
           Persist(before, p, clock(i)) == Some(index) || Tear(before, p, clock(i)) == Some(index))
  }

  // ----- The active-job map -----------------------------------------------

  ghost function SetStarted(active: map<string, string>, started: seq<Option<Started>>, k: nat): map<string, string>
    requires k <= |started|
  {
    if k == 0 then active
    else
      var before := SetStarted(active, started, k - 1);
      if started[k - 1].None? then before
      else before[started[k - 1].value.runnerName := started[k - 1].value.jobId]
  }

  ghost function ClearCompleted(active: map<string, string>, completed: seq<Event>, k: nat): map<string, string>
    requires k <= |completed|
  {
    if k == 0 then active
    else
      var before := ClearCompleted(active, completed, k - 1);
      if completed[k - 1].JobStarted? then before else before - {completed[k - 1].completed.runnerName}
  }

  ghost function ActiveAfter(active: map<string, string>, m: Message): map<string, string> {
    var done := CompletedEvents(m.completed);
    ClearCompleted(SetStarted(active, m.started, |m.started|), done, |done|)
  }

  // The job the last of the first k starts gives a runner.
  ghost function LastStarted(started: seq<Option<Started>>, runner: string, k: nat): Option<string>
    requires k <= |started|
  {
    if k == 0 then None
    else if started[k - 1].Some? && started[k - 1].value.runnerName == runner then Some(started[k - 1].value.jobId)
    else LastStarted(started, runner, k - 1)
  }

  ghost predicate Finishes(completed: seq<Event>, runner: string, k: nat)
    requires k <= |completed|
  {
    exists i :: 0 <= i < k && completed[i].JobCompleted? && completed[i].completed.runnerName == runner
  }

  ghost function Lookup(active: map<string, string>, runner: string): Option<string> {
    if runner in active then Some(active[runner]) else None
  }

  lemma {:induction false} SetStartedAt(active: map<string, string>, started: seq<Option<Started>>, runner: string,
                                        k: nat)
    requires k <= |started|
    ensures Lookup(SetStarted(active, started, k), runner)
         == if LastStarted(started, runner, k).Some? then LastStarted(started, runner, k) else Lookup(active, runner)
  {
    if k > 0 { SetStartedAt(active, started, runner, k - 1); }
  }

  lemma {:induction false} ClearCompletedAt(active: map<string, string>, completed: seq<Event>, runner: string, k: nat)
    requires k <= |completed|
    ensures Lookup(ClearCompleted(active, completed, k), runner)
         == if Finishes(completed, runner, k) then None else Lookup(active, runner)
  {
    if k > 0 {
      ClearCompletedAt(active, completed, runner, k - 1);
      assert Finishes(completed, runner, k) <==>
             Finishes(completed, runner, k - 1)
             || (completed[k - 1].JobCompleted? && completed[k - 1].completed.runnerName == runner);
    }
  }

  // A runner's job after the message: none if it finished, else the last one
  // started on it, else what it was.
  lemma ActiveAfterAt(active: map<string, string>, m: Message, runner: string)
    ensures Lookup(ActiveAfter(active, m), runner)
         == if Finishes(CompletedEvents(m.completed), runner, |CompletedEvents(m.completed)|) then None
            else if LastStarted(m.started, runner, |m.started|).Some? then LastStarted(m.started, runner, |m.started|)
            else Lookup(active, runner)
  {
    var done := CompletedEvents(m.completed);
    ClearCompletedAt(SetStarted(active, m.started, |m.started|), done, runner, |done|);
    SetStartedAt(active, m.started, runner, |m.started|);
  }

  lemma ActiveAfterTwice(active: map<string, string>, m: Message)
    ensures ActiveAfter(ActiveAfter(active, m), m) == ActiveAfter(active, m)
  {
    var once := ActiveAfter(active, m);
    var twice := ActiveAfter(once, m);
    forall runner ensures Lookup(twice, runner) == Lookup(once, runner) {
      ActiveAfterAt(active, m, runner);
      ActiveAfterAt(once, m, runner);
    }
    SameLookups(twice, once);
  }

  lemma SameLookups(a: map<string, string>, b: map<string, string>)
    requires forall runner :: Lookup(a, runner) == Lookup(b, runner)
    ensures a == b
  {
    forall runner ensures (runner in a <==> runner in b) && (runner in a ==> a[runner] == b[runner]) {
      assert Lookup(a, runner) == Lookup(b, runner);
    }
  }

  lemma {:induction false} LastStartedIn(started: seq<Option<Started>>, runner: string, k: nat)
    requires k <= |started| && LastStarted(started, runner, k).Some?
    ensures var job := LastStarted(started, runner, k).value;
            exists i :: 0 <= i < |started| && started[i].Some? && started[i].value.jobId == job
  {
    if !(started[k - 1].Some? && started[k - 1].value.runnerName == runner) { LastStartedIn(started, runner, k - 1); }
  }

  // An accepted message is accepted again once its own starts are active.
  lemma AcceptedAgain(m: Message, active: map<string, string>)
    requires Accepts(m, active)
    ensures Accepts(m, ActiveAfter(active, m))
  {
    hide CompletedEvents, ValidateJobCompletion, ActiveAfter, Trim;
    var after := ActiveAfter(active, m);
    forall i | 0 <= i < |m.completed| ensures AcceptsCompletion(m, after, i) {
      assert AcceptsCompletion(m, active, i);
      if ValidateJobCompletion(m.completed[i]).Unidentified? {
        NotMadeActive(m, active, m.completed[i].value.jobId);
      }
    }
  }

  lemma NotMadeActive(m: Message, active: map<string, string>, id: string)
    requires !StartedInBatch(m, Trim(id)) && Trim(id) !in active.Values
    ensures Trim(id) !in ActiveAfter(active, m).Values
  {
    hide CompletedEvents, ActiveAfter, Trim;
    var after := ActiveAfter(active, m);
    forall runner | runner in after ensures after[runner] != Trim(id) {
      ActiveAfterAt(active, m, runner);
      TrimTwice(id);
      if LastStarted(m.started, runner, |m.started|).Some? { LastStartedIn(m.started, runner, |m.started|); }
    }
  }

  // ----- One delivery -----------------------------------------------------

  ghost function SaveLog(n: nat): seq<Act> {
    seq(n, i requires 0 <= i < n => Save(i))
  }

  ghost function Deliver(s: Session, m: Message, clock: nat -> int, fault: Fault): Delivery {
    if !Accepts(m, s.active) then Delivery(s, Refused)
    else
      var events := Events(m);
      var saved := SaveEvents(s.index, m.pool, events, clock, fault, |events|);
      var log := s.log + SaveLog(saved.count);
      if saved.count < |events| then Delivery(Session(saved.index, s.active, log), SaveFailed)
      else
        var active := ActiveAfter(s.active, m);
        if fault.AckFails? then Delivery(Session(saved.index, active, log), AckFailed)
        else if m.available == [] then Delivery(Session(saved.index, active, log + [Acknowledge]), Processed)
        else if fault.AcquireFails? then Delivery(Session(saved.index, active, log + [Acknowledge]), AcquireFailed)
        else Delivery(Session(saved.index, active, log + [Acknowledge, Acquire(m.available)]), Processed)
  }

  // Jobs are acquired only by a delivery whose every event is in the catalog
  // and whose acknowledgement succeeded, in that order.
  lemma AcquiresLast(s: Session, m: Message, clock: nat -> int, fault: Fault, requests: seq<int>)
    requires Acquire(requests) !in s.log && Acquire(requests) in Deliver(s, m, clock, fault).session.log
    requires forall i: nat :: clock(i) != 0
    ensures var after := Deliver(s, m, clock, fault);
            && after.outcome.Processed?
            && requests == m.available
            && Holds(after.session.index, m.pool, Events(m), |Events(m)|)
            && after.session.log == s.log + SaveLog(|Events(m)|) + [Acknowledge, Acquire(m.available)]
  {
    hide PersistAll, Holds, Accepts, ActiveAfter, Events, SaveEvents;
    var events := Events(m);
    var saved := SaveEvents(s.index, m.pool, events, clock, fault, |events|);
    SaveEventsPrefix(s.index, m.pool, events, clock, fault, |events|);
    if saved.count == |events| { PersistAllHolds(s.index, m.pool, events, clock, |events|); }
  }

  // ----- Any number of deliveries -----------------------------------------

  datatype Attempt = Attempt(clock: nat -> int, fault: Fault)

  ghost function Attempts(s: Session, m: Message, attempts: seq<Attempt>, k: nat): Session
    requires k <= |attempts|
  {
    if k == 0 then s
    else Deliver(Attempts(s, m, attempts, k - 1), m, attempts[k - 1].clock, attempts[k - 1].fault).session
  }

  // The session has the first r events of a run that started from s0, and
  // perhaps the next one torn.
  ghost predicate Midway(s: Session, s0: Session, m: Message, clock: nat -> int, r: nat) {
    var events := Events(m);
    && r <= |events|
    && PersistAll(s0.index, m.pool, events, clock, r).Some?
    && (var before := PersistAll(s0.index, m.pool, events, clock, r).value;
        SameIndex(before, s.index) || (r < |events| && Torn(before, s.index, m.pool, events[r], clock(r))))
    && Holds(s.index, m.pool, events, r)
    && (s.active == s0.active || (r == |events| && s.active == ActiveAfter(s0.active, m)))
  }

  // The message runs to the end from s0 when nothing fails.
  ghost predicate Processable(s0: Session, m: Message, clock: nat -> int) {
    && UniqueJobs(s0.index)
    && Accepts(m, s0.active)
    && PersistAll(s0.index, m.pool, Events(m), clock, |Events(m)|).Some?
  }

  lemma SavesAlike(s: Session, s0: Session, m: Message, clock0: nat -> int, clock: nat -> int, r: nat, c: nat)
    requires Processable(s0, m, clock0) && Midway(s, s0, m, clock0, r) && c <= |Events(m)|
    requires forall i: nat :: clock0(i) != 0 && clock(i) != 0
    ensures var saved := PersistAll(s.index, m.pool, Events(m), clock, c);
            saved.Some? && Midway(s.(index := saved.value), s0, m, clock0, Max(r, c)) && Max(r, c) <= |Events(m)|
  {
    hide SameIndex, HoldsEvent, ActiveAfter, Events, UniqueJobs, Persist, PersistAll, Accepts, Torn;
    var events := Events(m);
    if c <= r {
      ReplaySkips(s.index, m.pool, events, clock, r, c);
    } else {
      PersistAllPrefix(s0.index, m.pool, events, clock0, c, |events|);
      if SameIndex(PersistAll(s0.index, m.pool, events, clock0, r).value, s.index) {
        ResumeSame(s0.index, s.index, m.pool, events, clock0, clock, r, c);
      } else {
        TornResumes(s0.index, s.index, m.pool, events, clock0, clock, r, c);
      }
      PersistAllHolds(s.index, m.pool, events, clock, c);
    }
  }

  // Tearing the save of event i leaves the session where it was, or torn at i.
  lemma TearsAlike(s: Session, s0: Session, m: Message, clock0: nat -> int, now: int, r: nat, i: nat)
    requires Processable(s0, m, clock0) && Midway(s, s0, m, clock0, r) && i <= r && i < |Events(m)|
    requires now != 0 && forall j: nat :: clock0(j) != 0
    ensures var torn := Tear(s.index, PatchFor(m.pool, Events(m)[i], now), now);
            torn.Some? && Midway(s.(index := torn.value), s0, m, clock0, r)
  {
    hide ActiveAfter, Events, UniqueJobs, Accepts, PersistAll, PatchFor, Tear, Persist, SameIndex, HoldsEvent;
    var events := Events(m);
    if i < r {
      TearHeld(s.index, m.pool, events[i], now);
    } else {
      PersistAllPrefix(s0.index, m.pool, events, clock0, r + 1, |events|);
      TornAgain(s, s0, m, clock0, now, r);
    }
  }

  lemma TornAgain(s: Session, s0: Session, m: Message, clock0: nat -> int, now: int, r: nat)
    requires Processable(s0, m, clock0) && Midway(s, s0, m, clock0, r) && r < |Events(m)|
    requires now != 0 && (forall j: nat :: clock0(j) != 0)
    requires PersistAll(s0.index, m.pool, Events(m), clock0, r + 1).Some?
    ensures var events, e := Events(m), Events(m)[r];
            var torn := Tear(s.index, PatchFor(m.pool, e, now), now);
            && torn.Some? && Holds(torn.value, m.pool, events, r)
            && Torn(PersistAll(s0.index, m.pool, events, clock0, r).value, torn.value, m.pool, e, clock0(r))
  {
    hide ActiveAfter, Events, UniqueJobs, Accepts, PatchFor, Tear, Persist, SameIndex, HoldsEvent;
    var events := Events(m);
    var before, e := PersistAll(s0.index, m.pool, events, clock0, r).value, events[r];
    PersistAllUnique(s0.index, m.pool, events, clock0, r);
    if SameIndex(before, s.index) {
      PersistSame(before, s.index, m.pool, e, clock0(r), now);
      TearSame(before, s.index, m.pool, e, clock0(r), now);
    } else {
      TornPersists(before, s.index, m.pool, e, clock0(r), now);
    }
    TearPuts(before, PatchFor(m.pool, e, clock0(r)), clock0(r));
    TearPuts(s.index, PatchFor(m.pool, e, now), now);
    forall i | 0 <= i < r
      ensures HoldsEvent(Tear(s.index, PatchFor(m.pool, e, now), now).value, m.pool, events[i])
    {
      TearKeepsHolding(s.index, m.pool, events[i], e, now);
    }
  }

  // What the saves leave, wherever they stop.
  lemma SavesMidway(s: Session, s0: Session, m: Message, clock0: nat -> int, clock: nat -> int, fault: Fault, r: nat)
    returns (q: nat)
    requires Processable(s0, m, clock0) && Midway(s, s0, m, clock0, r)
    requires forall i: nat :: clock0(i) != 0 && clock(i) != 0
    ensures var saved := SaveEvents(s.index, m.pool, Events(m), clock, fault, |Events(m)|);
            && saved.count == Reach(fault, |Events(m)|)
            && Midway(s.(index := saved.index), s0, m, clock0, q)
            && (saved.count == |Events(m)| ==> q == |Events(m)|)
  {
    hide SameIndex, Holds, ActiveAfter, Events, UniqueJobs, PersistAll, Accepts, SaveEvents, Torn, Tear, Persist,
         PatchFor, Midway, Processable;
    var events := Events(m);
    var c := Reach(fault, |events|);
    SavesAlike(s, s0, m, clock0, clock, r, |events|);
    SaveEventsReach(s.index, m.pool, events, clock, fault, |events|);
    SavesAlike(s, s0, m, clock0, clock, r, c);
    q := Max(r, c);
    var there := s.(index := PersistAll(s.index, m.pool, events, clock, c).value);
    if c < |events| && fault == SidecarFails(c) {
      TearsAlike(there, s0, m, clock0, clock(c), q, c);
    } else if c < |events| && fault == SaveUnconfirmed(c) {
      PersistAllStep(s.index, m.pool, events, clock, c);
      SavesAlike(s, s0, m, clock0, clock, r, c + 1);
      q := Max(r, c + 1);
    }
  }

  lemma MidwayDelivers(s: Session, s0: Session, m: Message, clock0: nat -> int, clock: nat -> int, fault: Fault, r: nat)
    returns (q: nat)
    requires Processable(s0, m, clock0) && Midway(s, s0, m, clock0, r)
    requires forall i: nat :: clock0(i) != 0 && clock(i) != 0
    ensures var after := Deliver(s, m, clock, fault);
            && !after.outcome.Refused?
            && Midway(after.session, s0, m, clock0, q)
            && (Reach(fault, |Events(m)|) == |Events(m)| ==>
                  && q == |Events(m)| && after.session.active == ActiveAfter(s0.active, m)
                  && !after.outcome.SaveFailed?)
  {
    hide SameIndex, Holds, ActiveAfter, Events, UniqueJobs, PersistAll, Accepts, SaveEvents, SaveLog, Torn;
    AcceptedAgain(m, s0.active);
    q := SavesMidway(s, s0, m, clock0, clock, fault, r);
    ActiveAfterTwice(s0.active, m);
  }

  lemma {:induction false} AttemptsMidway(s0: Session, m: Message, clock0: nat -> int, attempts: seq<Attempt>, k: nat)
    returns (r: nat)
    requires Processable(s0, m, clock0) && k <= |attempts|
    requires forall i: nat :: clock0(i) != 0
    requires forall j, i: nat :: 0 <= j < |attempts| ==> attempts[j].clock(i) != 0
    ensures Midway(Attempts(s0, m, attempts, k), s0, m, clock0, r)
  {
    hide Midway, Processable, Deliver;
    if k == 0 {
      r := 0;
      Unstarted(s0, m, clock0);
    } else {
      var q := AttemptsMidway(s0, m, clock0, attempts, k - 1);
      r := MidwayDelivers(Attempts(s0, m, attempts, k - 1), s0, m, clock0, attempts[k - 1].clock,
                          attempts[k - 1].fault, q);
    }
  }

  lemma Unstarted(s: Session, m: Message, clock: nat -> int)
    ensures Midway(s, s, m, clock, 0)
  {
  }

  /** Redelivery is harmless: after any deliveries, each failing wherever it
      likes, the message is still accepted, and a delivery that does not fail
      leaves the active jobs of one uninterrupted delivery and a catalog that
      differs from it in the values of timestamps only. */
  lemma RedeliveryHarmless(s0: Session, m: Message, clock0: nat -> int, attempts: seq<Attempt>, clock: nat -> int)
    requires Processable(s0, m, clock0)
    requires forall i: nat :: clock0(i) != 0 && clock(i) != 0
    requires forall j, i: nat :: 0 <= j < |attempts| ==> attempts[j].clock(i) != 0
    ensures var once := Deliver(s0, m, clock0, NoFault);
            var again := Deliver(Attempts(s0, m, attempts, |attempts|), m, clock, NoFault);
            && once.outcome.Processed? && again.outcome.Processed?
            && SameIndex(once.session.index, again.session.index)
            && once.session.active == again.session.active
  {
    hide SameIndex, Holds, ActiveAfter, Events, UniqueJobs, PersistAll, Accepts, SaveEvents, SaveLog;
    var r := AttemptsMidway(s0, m, clock0, attempts, |attempts|);
    var q := MidwayDelivers(Attempts(s0, m, attempts, |attempts|), s0, m, clock0, clock, NoFault, r);
    SaveEventsReach(s0.index, m.pool, Events(m), clock0, NoFault, |Events(m)|);
  }

  // ----- The code ---------------------------------------------------------

  // Once a save fails, no later event is saved.
  lemma {:induction false} SaveStops(index: map<Key, Record>, pool: string, events: seq<Event>, clock: nat -> int,
                                     fault: Fault, i: nat, k: nat)
    requires i < k <= |events| && SaveEvents(index, pool, events, clock, fault, i + 1).count <= i
    ensures SaveEvents(index, pool, events, clock, fault, k) == SaveEvents(index, pool, events, clock, fault, i + 1)
    decreases k
  {
    hide Persist, PatchFor, Landed;
    if i + 1 < k { SaveStops(index, pool, events, clock, fault, i, k - 1); }
  }

  /** The whole batch is validated before the first save; the completions that
      name a runner are set apart to be saved. */
  method Validate(m: Message, active: map<string, string>) returns (ok: bool, identified: seq<Event>)
    ensures ok <==> Accepts(m, active)
    ensures ok ==> identified == CompletedEvents(m.completed)
  {
    identified := [];
    if !m.hasStatistics { return false, []; }
    var startedJobs: set<string> := {};
    for i := 0 to |m.started|
      invariant forall j :: 0 <= j < i ==> m.started[j].Some? && !Blank(m.started[j].value.jobId)
      invariant forall job :: job in startedJobs <==>
                  exists j :: 0 <= j < i && m.started[j].Some? && Trim(m.started[j].value.jobId) == job
    {
      if m.started[i].None? || Blank(m.started[i].value.jobId) { return false, []; }
      startedJobs := startedJobs + {Trim(m.started[i].value.jobId)};
    }
    assert forall job :: job in startedJobs <==> StartedInBatch(m, job);
    for i := 0 to |m.completed|
      invariant forall j :: 0 <= j < i ==> AcceptsCompletion(m, active, j)
      invariant identified == CompletedEvents(m.completed[..i])
    {
      var validity := ValidateJobCompletion(m.completed[i]);
      assert m.completed[..i + 1][..i] == m.completed[..i];
      if validity.Invalid? {
        assert !AcceptsCompletion(m, active, i);
        return false, [];
      }
      if validity.Unidentified? {
        var job := Trim(m.completed[i].value.jobId);
        if job in startedJobs || job in active.Values {
          assert !AcceptsCompletion(m, active, i);
          return false, [];
        }
      } else {
        identified := identified + [JobCompleted(m.completed[i].value)];
      }
    }
    assert m.completed[..|m.completed|] == m.completed;
    ok := true;
  }

  class Client {
    var index: map<Key, Record>
    var active: map<string, string>
    var log: seq<Act>

    ghost function State(): Session
      reads this
    {
      Session(index, active, log)
    }

    // One upsert of the event sink: it may fail outright, or once the catalog
    // has been replaced, with or without its sidecar.
    method SaveEvent(pool: string, e: Event, now: int, fault: Fault, i: nat) returns (ok: bool)
      modifies `index
      ensures var p := PatchFor(pool, e, now);
              && ok == (Persist(old(index), p, now).Some? && !SaveBreaks(fault, i))
              && index == if Persist(old(index), p, now).Some? then Landed(old(index), p, now, fault, i) else old(index)
    {
      if fault == SaveFails(i) { return false; }
      var p := PatchFor(pool, e, now);
      var saved := Persist(index, p, now);
      if saved.None? { return false; }
      var known := Existing(index, PatchKey(p)).runnerAssignedAt;
      index := saved.value;
      if fault == SidecarFails(i) {
        index := index[PatchKey(p) := index[PatchKey(p)].(runnerAssignedAt := known)];
      }
      ok := !SaveBreaks(fault, i);
    }

    // The two persistence loops: starts, then identified completions.
    method SaveAll(pool: string, events: seq<Event>, clock: nat -> int, fault: Fault) returns (ok: bool)
      modifies `index, `log
      ensures var saved := SaveEvents(old(index), pool, events, clock, fault, |events|);
              && index == saved.index && log == old(log) + SaveLog(saved.count)
              && ok == (saved.count == |events|)
    {
      hide Persist, PatchFor, Landed;
      for i := 0 to |events|
        invariant SaveEvents(old(index), pool, events, clock, fault, i) == Saved(index, i)
        invariant log == old(log) + SaveLog(i)
      {
        ok := SaveEvent(pool, events[i], clock(i), fault, i);
        if !ok {
          SaveStops(old(index), pool, events, clock, fault, i, |events|);
          return;
        }
        log := log + [Save(i)];
      }
      ok := true;
    }

    method UpdateActive(m: Message, identified: seq<Event>)
      requires identified == CompletedEvents(m.completed)
      modifies `active
      ensures active == ActiveAfter(old(active), m)
    {
      for i := 0 to |m.started|
        invariant active == SetStarted(old(active), m.started, i)
      {
        if m.started[i].Some? { active := active[m.started[i].value.runnerName := m.started[i].value.jobId]; }
      }
      ghost var afterStarts := active;
      for i := 0 to |identified|
        invariant active == ClearCompleted(afterStarts, identified, i)
      {
        if identified[i].JobCompleted? { active := active - {identified[i].completed.runnerName}; }
      }
    }

    method Poll(m: Message, clock: nat -> int, fault: Fault) returns (outcome: Outcome)
      modifies this
      ensures Delivery(State(), outcome) == Deliver(old(State()), m, clock, fault)
    {
      hide Accepts, ActiveAfter, SaveEvents, SaveLog, CompletedEvents;
      var ok, identified := Validate(m, active);
      if !ok { return Refused; }
      var events := [];
      for i := 0 to |m.started|
        invariant events == StartedEvents(m.started[..i])
      {
        assert m.started[..i + 1][..i] == m.started[..i];
        if m.started[i].Some? { events := events + [JobStarted(m.started[i].value)]; }
      }
      assert m.started[..|m.started|] == m.started;
      var saved := SaveAll(m.pool, events + identified, clock, fault);
      if !saved { return SaveFailed; }
      UpdateActive(m, identified);
      if fault.AckFails? { return AckFailed; }
      log := log + [Acknowledge];
      if m.available != [] {
        if fault.AcquireFails? { return AcquireFailed; }
        log := log + [Acquire(m.available)];
      }
      outcome := Processed;
    }
  }
}
