/** One scale-set message (internal/scaleset/official.go:195-300): validated
    whole, its job events persisted, acknowledged, and only then acted on. A
    message that was not acknowledged is delivered again. */
module MessageBatch {
  import opened Basics
  import opened JobRecords
  import opened JobIndex

  // ----- strings.TrimSpace ------------------------------------------------

  function TrimLeft(s: string): string {
    if s != [] && IsSpace(s[0]) then TrimLeft(s[1..]) else s
  }

  function TrimRight(s: string): string {
    if s != [] && IsSpace(s[|s| - 1]) then TrimRight(s[..|s| - 1]) else s
  }

  function Trim(s: string): string {
    TrimRight(TrimLeft(s))
  }

  lemma {:induction false} TrimRightKeepsHead(s: string)
    requires s == [] || !IsSpace(s[0])
    ensures TrimRight(s) == [] || !IsSpace(TrimRight(s)[0])
    ensures TrimRight(TrimRight(s)) == TrimRight(s)
  {
    if s != [] && IsSpace(s[|s| - 1]) { TrimRightKeepsHead(s[..|s| - 1]); }
  }

  lemma {:induction false} TrimLeftHead(s: string)
    ensures TrimLeft(s) == [] || !IsSpace(TrimLeft(s)[0])
  {
    if s != [] && IsSpace(s[0]) { TrimLeftHead(s[1..]); }
  }

  lemma TrimTwice(s: string)
    ensures Trim(Trim(s)) == Trim(s)
  {
    TrimLeftHead(s);
    TrimRightKeepsHead(TrimLeft(s));
    assert TrimLeft(Trim(s)) == Trim(s);
  }

  // ----- Messages ---------------------------------------------------------

  datatype Started = Started(runnerName: string, jobId: string, assignTime: int)

  datatype Completed = Completed(runnerId: int, runnerName: string, jobId: string, result: string, assignTime: int)
  {
    // A job canceled before it was assigned: no runner to index it under.
    predicate Anonymous() {
      runnerId == 0 && runnerName == ""
    }
  }

  // None is a nil event.
  datatype Message = Message(
    pool: string,
    hasStatistics: bool,
    started: seq<Option<Started>>,
    completed: seq<Option<Completed>>,
    available: seq<int>)

  predicate IsCancellation(result: string) {
    var r := Lower(Trim(result));
    r == "canceled" || r == "cancelled"
  }

  function Lower(s: string): string {
    seq(|s|, i requires 0 <= i < |s| =>
      if 'A' <= s[i] <= 'Z' then (s[i] as int + 32) as char else s[i])
  }

  datatype Validity = Invalid | Identified | Unidentified

  function ValidateJobCompletion(event: Option<Completed>): (v: Validity)
    ensures v.Identified? <==>
              && event.Some? && !Blank(event.value.jobId) && !Blank(event.value.result)
              && event.value.runnerId > 0 && !Blank(event.value.runnerName)
    ensures v.Unidentified? <==>
              && event.Some? && !Blank(event.value.jobId) && !Blank(event.value.result)
              && event.value.Anonymous() && event.value.assignTime == 0 && IsCancellation(event.value.result)
  {
    if event.None? || Blank(event.value.jobId) || Blank(event.value.result) then Invalid
    else if event.value.Anonymous() then
      if event.value.assignTime != 0 || !IsCancellation(event.value.result) then Invalid else Unidentified
    else if event.value.runnerId <= 0 || Blank(event.value.runnerName) then Invalid
    else Identified
  }

  // ----- Validation before the first durable write ------------------------

  ghost predicate StartedInBatch(m: Message, job: string) {
    exists i :: 0 <= i < |m.started| && m.started[i].Some? && Trim(m.started[i].value.jobId) == job
  }

  // No anonymous completion names a job that is starting or running.
  ghost predicate Accepts(m: Message, active: map<string, string>) {
    && m.hasStatistics
    && (forall i :: 0 <= i < |m.started| ==> m.started[i].Some? && !Blank(m.started[i].value.jobId))
    && (forall i :: 0 <= i < |m.completed| ==> AcceptsCompletion(m, active, i))
  }

  ghost predicate AcceptsCompletion(m: Message, active: map<string, string>, i: nat)
    requires i < |m.completed|
  {
    var validity := ValidateJobCompletion(m.completed[i]);
    && !validity.Invalid?
    && (validity.Unidentified? ==>
          var job := Trim(m.completed[i].value.jobId);
          !StartedInBatch(m, job) && job !in active.Values)
  }

  // ----- The events to persist, in order ----------------------------------

  const NOTHING := Patch("", "", "", "", "", NoPath, NoPath, 0, 0, 0, 0, 0, None, None)

  datatype Event = JobStarted(started: Started) | JobCompleted(completed: Completed)

  // EventSink's patches (catalog.go:228-240), stamped with the sink's clock.
  function PatchFor(pool: string, e: Event, clock: int): Patch {
    match e
    case JobStarted(s) =>
      NOTHING.(poolId := pool, runnerName := s.runnerName, jobId := s.jobId,
               runnerAssignedAt := s.assignTime, jobStartedAt := clock)
    case JobCompleted(c) =>
      NOTHING.(poolId := pool, runnerName := c.runnerName, jobId := c.jobId, result := c.result,
               runnerAssignedAt := c.assignTime, completedAt := clock)
  }

  function StartedEvents(started: seq<Option<Started>>): seq<Event> {
    if started == [] then []
    else
      var last := started[|started| - 1];
      StartedEvents(started[..|started| - 1]) + if last.Some? then [JobStarted(last.value)] else []
  }

  function CompletedEvents(completed: seq<Option<Completed>>): seq<Event> {
    if completed == [] then []
    else
      var last := completed[|completed| - 1];
      CompletedEvents(completed[..|completed| - 1])
      + if ValidateJobCompletion(last).Identified? then [JobCompleted(last.value)] else []
  }

  function Events(m: Message): seq<Event> {
    StartedEvents(m.started) + CompletedEvents(m.completed)
  }

  // ----- The durable index ------------------------------------------------

  // Validate refuses a catalog in which two records share a job.
  predicate UniqueJobs(m: map<Key, Record>) {
    forall a, b | a in m && b in m :: m[a].jobId == m[b].jobId != "" ==> a == b
  }

  // Upsert: saved only if it changes the catalog and the result validates.
  function Persist(index: map<Key, Record>, p: Patch, now: int): Option<map<Key, Record>> {
    var merged := Merge(Existing(index, PatchKey(p)), p, now);
    if merged.Rejected? then None
    else if PatchKey(p) in index && merged.record == index[PatchKey(p)] then Some(index)
    else
      var after := index[PatchKey(p) := merged.record];
      if UniqueJobs(after) then Some(after) else None
  }

  // A save whose catalog is replaced but whose assign-times sidecar is not: the
  // record is read back with the assign time the old sidecar has for its runner.
  function Tear(index: map<Key, Record>, p: Patch, now: int): (r: Option<map<Key, Record>>)
    ensures r.Some? <==> Persist(index, p, now).Some?
  {
    var saved := Persist(index, p, now);
    if saved.None? then None
    else
      var k := PatchKey(p);
      Some(saved.value[k := saved.value[k].(runnerAssignedAt := Existing(index, k).runnerAssignedAt)])
  }

  // What is saved is the job index's own upsert, kept only if no two records
  // share a job.
  lemma PersistUpserts(index: map<Key, Record>, p: Patch, now: int)
    requires UniqueJobs(index) && Persist(index, p, now).Some?
    ensures Persist(index, p, now).value == UpsertOne(index, p, now)
    ensures UniqueJobs(Persist(index, p, now).value)
  {
    hide Merge, UniqueJobs;
    var merged := Merge(Existing(index, PatchKey(p)), p, now);
    if PatchKey(p) in index && merged.record == index[PatchKey(p)] {
      assert index[PatchKey(p) := merged.record] == index;
    }
  }

  // The first k events persisted, each at its own time.
  function PersistAll(index: map<Key, Record>, pool: string, events: seq<Event>, clock: nat -> int, k: nat)
    : Option<map<Key, Record>>
    requires k <= |events|
  {
    if k == 0 then Some(index)
    else
      var before := PersistAll(index, pool, events, clock, k - 1);
      if before.None? then None
      else Persist(before.value, PatchFor(pool, events[k - 1], clock(k - 1)), clock(k - 1))
  }

  // ----- Same shape, whatever the clock -----------------------------------

  // Equal up to the values of nonzero times: same job, result and status.
  ghost predicate SameShape(a: Record, b: Record) {
    && a.poolId == b.poolId && a.runnerName == b.runnerName && a.containerId == b.containerId
    && a.jobId == b.jobId && a.result == b.result && a.logPath == b.logPath && a.diagnosticPath == b.diagnosticPath
    && a.open == b.open
    && (a.artifactStartedAt == 0 <==> b.artifactStartedAt == 0)
    && (a.runnerAssignedAt.None? <==> b.runnerAssignedAt.None?)
    && (a.jobStartedAt == 0 <==> b.jobStartedAt == 0)
    && (a.completedAt == 0 <==> b.completedAt == 0)
    && (a.finalizedAt == 0 <==> b.finalizedAt == 0)
    && (a.tombstonedAt.None? <==> b.tombstonedAt.None?)
  }

  ghost predicate SameIndex(a: map<Key, Record>, b: map<Key, Record>) {
    a.Keys == b.Keys && forall k :: k in a ==> SameShape(a[k], b[k])
  }

  // What the rest of the system reads of a runner's record is the same.
  lemma SameShapeSameStatus(a: Record, b: Record)
    requires SameShape(a, b)
    ensures a.jobId == b.jobId && a.result == b.result && a.Active() == b.Active()
  {
  }

  lemma FieldsSameShape(a: Record, b: Record, pool: string, e: Event, s: int, t: int)
    requires SameShape(a, b) && s != 0 && t != 0
    ensures var x, y := MergeFields(a, PatchFor(pool, e, s)), MergeFields(b, PatchFor(pool, e, t));
            (x.Merged? <==> y.Merged?) && (x.Merged? ==> SameShape(x.record, y.record))
  {
    match e
    case JobStarted(_) =>
    case JobCompleted(_) =>
  }

  // Events merge alike into records of the same shape, whenever they do.
  lemma MergeSameShape(a: Record, b: Record, pool: string, e: Event, s: int, t: int)
    requires SameShape(a, b) && s != 0 && t != 0
    ensures var x, y := Merge(a, PatchFor(pool, e, s), s), Merge(b, PatchFor(pool, e, t), t);
            (x.Merged? <==> y.Merged?) && (x.Merged? ==> SameShape(x.record, y.record))
  {
    hide MergeFields, Identify, PatchFor;
    var p, q := PatchFor(pool, e, s), PatchFor(pool, e, t);
    PatchAgrees(pool, e, s, t);
    IdentifySameShape(a, b, p, q, s, t);
    if Identify(a, p, s).Merged? {
      FieldsSameShape(Identify(a, p, s).record, Identify(b, q, t).record, pool, e, s, t);
    }
  }

  lemma IdentifySameShape(a: Record, b: Record, p: Patch, q: Patch, s: int, t: int)
    requires SameShape(a, b) && s != 0 && t != 0 && PatchKey(p) == PatchKey(q)
    ensures var x, y := Identify(a, p, s), Identify(b, q, t);
            (x.Merged? <==> y.Merged?) && (x.Merged? ==> SameShape(x.record, y.record))
  {
    hide Blank;
  }

  lemma PatchAgrees(pool: string, e: Event, s: int, t: int)
    ensures PatchKey(PatchFor(pool, e, s)) == PatchKey(PatchFor(pool, e, t))
  {
  }

  lemma SameIndexSameJobs(a: map<Key, Record>, b: map<Key, Record>)
    requires SameIndex(a, b) && UniqueJobs(a)
    ensures UniqueJobs(b)
  {
  }

  // ----- Persisting alike -------------------------------------------------

  lemma PersistSame(a: map<Key, Record>, b: map<Key, Record>, pool: string, e: Event, s: int, t: int)
    requires SameIndex(a, b) && UniqueJobs(a) && s != 0 && t != 0
    requires Persist(a, PatchFor(pool, e, s), s).Some?
    ensures var x, y := Persist(a, PatchFor(pool, e, s), s), Persist(b, PatchFor(pool, e, t), t);
            y.Some? && SameIndex(x.value, y.value) && UniqueJobs(x.value)
  {
    hide Merge, PatchFor, UniqueJobs;
    PatchAgrees(pool, e, s, t);
    var k := PatchKey(PatchFor(pool, e, s));
    var p, q := PatchFor(pool, e, s), PatchFor(pool, e, t);
    MergeSameShape(Existing(a, k), Existing(b, k), pool, e, s, t);
    var x := Persist(a, p, s).value;
    var y := b[k := Merge(Existing(b, k), q, t).record];
    assert SameIndex(x, y);
    SameIndexSameJobs(x, y);
    if k in b && Merge(b[k], q, t).record == b[k] { assert y == b; }
  }

  // ----- Replaying changes nothing ----------------------------------------

  // The first k events are in the index already.
  ghost predicate Holds(index: map<Key, Record>, pool: string, events: seq<Event>, k: nat)
    requires k <= |events|
  {
    forall i :: 0 <= i < k ==> HoldsEvent(index, pool, events[i])
  }

  ghost predicate HoldsEvent(index: map<Key, Record>, pool: string, e: Event) {
    var p := PatchFor(pool, e, 1);
    PatchKey(p) in index && Absorbed(index[PatchKey(p)], p)
  }

  lemma AbsorbedAnyClock(r: Record, pool: string, e: Event, s: int, t: int)
    requires s != 0 && t != 0
    ensures Absorbed(r, PatchFor(pool, e, s)) <==> Absorbed(r, PatchFor(pool, e, t))
  {
  }

  lemma PersistHeld(index: map<Key, Record>, pool: string, e: Event, now: int)
    requires HoldsEvent(index, pool, e) && now != 0
    ensures Persist(index, PatchFor(pool, e, now), now) == Some(index)
  {
    hide Merge, Absorbed;
    PatchAgrees(pool, e, 1, now);
    var p := PatchFor(pool, e, now);
    AbsorbedAnyClock(index[PatchKey(p)], pool, e, 1, now);
    AbsorbedNamed(index[PatchKey(p)], p);
    AbsorbedIffUnchanged(index[PatchKey(p)], p, now);
  }

  lemma AbsorbedNamed(r: Record, p: Patch)
    requires Absorbed(r, p)
    ensures r.poolId != ""
  {
  }

  lemma PersistHolds(index: map<Key, Record>, pool: string, e: Event, now: int)
    requires now != 0 && Persist(index, PatchFor(pool, e, now), now).Some?
    ensures HoldsEvent(Persist(index, PatchFor(pool, e, now), now).value, pool, e)
  {
    hide Merge, Absorbed, UniqueJobs;
    PatchAgrees(pool, e, 1, now);
    var p := PatchFor(pool, e, now);
    var existing := Existing(index, PatchKey(p));
    MergeAbsorbs(existing, p, now);
    AbsorbedAnyClock(Merge(existing, p, now).record, pool, e, now, 1);
  }

  lemma PersistKeepsHolding(index: map<Key, Record>, pool: string, held: Event, e: Event, now: int)
    requires HoldsEvent(index, pool, held) && Persist(index, PatchFor(pool, e, now), now).Some?
    ensures HoldsEvent(Persist(index, PatchFor(pool, e, now), now).value, pool, held)
  {
    hide Merge, Absorbed, UniqueJobs;
    var p, q := PatchFor(pool, held, 1), PatchFor(pool, e, now);
    if PatchKey(p) == PatchKey(q) {
      AbsorbedStays(index[PatchKey(p)], p, q, now);
    }
  }

  // A run over events of which the first r are held persists the rest only.
  lemma {:induction false} ReplaySkips(index: map<Key, Record>, pool: string, events: seq<Event>, clock: nat -> int,
                                       r: nat, k: nat)
    requires r <= |events| && k <= r && Holds(index, pool, events, r) && forall i: nat :: clock(i) != 0
    ensures PersistAll(index, pool, events, clock, k) == Some(index)
  {
    hide Persist, HoldsEvent;
    if k > 0 {
      ReplaySkips(index, pool, events, clock, r, k - 1);
      PersistHeld(index, pool, events[k - 1], clock(k - 1));
    }
  }

  lemma {:induction false} PersistAllHolds(index: map<Key, Record>, pool: string, events: seq<Event>,
                                           clock: nat -> int, k: nat)
    requires k <= |events| && PersistAll(index, pool, events, clock, k).Some? && forall i: nat :: clock(i) != 0
    ensures Holds(PersistAll(index, pool, events, clock, k).value, pool, events, k)
  {
    hide Persist, HoldsEvent;
    if k > 0 {
      PersistAllHolds(index, pool, events, clock, k - 1);
      var before := PersistAll(index, pool, events, clock, k - 1).value;
      PersistHolds(before, pool, events[k - 1], clock(k - 1));
      forall i | 0 <= i < k - 1
        ensures HoldsEvent(PersistAll(index, pool, events, clock, k).value, pool, events[i])
      {
        PersistKeepsHolding(before, pool, events[i], events[k - 1], clock(k - 1));
      }
    }
  }

  // Two runs that agree in shape after j events agree after every later one.
  lemma {:induction false} RunsAgree(index0: map<Key, Record>, index: map<Key, Record>, pool: string,
                                     events: seq<Event>,
                                     s: nat -> int, t: nat -> int, j: nat, k: nat)
    requires j <= k <= |events| && UniqueJobs(index0)
    requires forall i: nat :: s(i) != 0 && t(i) != 0
    requires PersistAll(index0, pool, events, s, k).Some? && PersistAll(index0, pool, events, s, j).Some?
    requires PersistAll(index, pool, events, t, j).Some?
    requires SameIndex(PersistAll(index0, pool, events, s, j).value, PersistAll(index, pool, events, t, j).value)
    ensures PersistAll(index, pool, events, t, k).Some?
    ensures SameIndex(PersistAll(index0, pool, events, s, k).value, PersistAll(index, pool, events, t, k).value)
    decreases k
  {
    hide Persist, SameIndex, UniqueJobs;
    if j < k {
      RunsAgree(index0, index, pool, events, s, t, j, k - 1);
      PersistAllUnique(index0, pool, events, s, k - 1);
      PersistSame(PersistAll(index0, pool, events, s, k - 1).value, PersistAll(index, pool, events, t, k - 1).value,
                  pool, events[k - 1], s(k - 1), t(k - 1));
    }
  }

  // A replay over an index that already holds the first r events reaches, event
  // by event, the shape of the uninterrupted run.
  lemma ResumeSame(index0: map<Key, Record>, index: map<Key, Record>, pool: string, events: seq<Event>,
                   s: nat -> int, t: nat -> int, r: nat, k: nat)
    requires r <= k <= |events| && UniqueJobs(index0)
    requires forall i: nat :: s(i) != 0 && t(i) != 0
    requires PersistAll(index0, pool, events, s, k).Some?
    requires PersistAll(index0, pool, events, s, r).Some?
    requires SameIndex(PersistAll(index0, pool, events, s, r).value, index) && Holds(index, pool, events, r)
    ensures PersistAll(index, pool, events, t, k).Some?
    ensures SameIndex(PersistAll(index0, pool, events, s, k).value, PersistAll(index, pool, events, t, k).value)
  {
    hide Persist, SameIndex, UniqueJobs, HoldsEvent;
    ReplaySkips(index, pool, events, t, r, r);
    RunsAgree(index0, index, pool, events, s, t, r, k);
  }

  lemma {:induction false} PersistAllUnique(index: map<Key, Record>, pool: string, events: seq<Event>,
                                            clock: nat -> int, k: nat)
    requires k <= |events| && UniqueJobs(index) && PersistAll(index, pool, events, clock, k).Some?
    ensures UniqueJobs(PersistAll(index, pool, events, clock, k).value)
  {
    hide UniqueJobs, Merge, PatchFor;
    if k > 0 { PersistAllUnique(index, pool, events, clock, k - 1); }
  }

  lemma {:induction false} PersistAllPrefix(index: map<Key, Record>, pool: string, events: seq<Event>,
                                            clock: nat -> int, j: nat, k: nat)
    requires j <= k <= |events| && PersistAll(index, pool, events, clock, k).Some?
    ensures PersistAll(index, pool, events, clock, j).Some?
    decreases k
  {
    hide Persist;
    if j < k { PersistAllPrefix(index, pool, events, clock, j, k - 1); }
  }

  lemma PersistAllStep(index: map<Key, Record>, pool: string, events: seq<Event>, clock: nat -> int, k: nat)
    requires k < |events| && PersistAll(index, pool, events, clock, k).Some?
    ensures PersistAll(index, pool, events, clock, k + 1)
         == Persist(PersistAll(index, pool, events, clock, k).value, PatchFor(pool, events[k], clock(k)), clock(k))
  {
    hide Persist, PatchFor;
  }

  // ----- A lost sidecar ---------------------------------------------------

  // The record a torn save leaves.
  function TornRecord(existing: Record, p: Patch, now: int): Merging {
    var merged := Merge(existing, p, now);
    if merged.Rejected? then merged
    else Merged(merged.record.(runnerAssignedAt := existing.runnerAssignedAt))
  }

  lemma PersistPuts(index: map<Key, Record>, p: Patch, now: int)
    requires Persist(index, p, now).Some?
    ensures var merged := Merge(Existing(index, PatchKey(p)), p, now);
            merged.Merged? && Persist(index, p, now).value == index[PatchKey(p) := merged.record]
  {
    hide Merge, UniqueJobs;
    var k, merged := PatchKey(p), Merge(Existing(index, PatchKey(p)), p, now);
    if k in index && merged.record == index[k] { assert index[k := merged.record] == index; }
  }

  lemma TearPuts(index: map<Key, Record>, p: Patch, now: int)
    requires Persist(index, p, now).Some?
    ensures var torn := TornRecord(Existing(index, PatchKey(p)), p, now);
            torn.Merged? && Tear(index, p, now) == Some(index[PatchKey(p) := torn.record])
  {
    hide Merge, UniqueJobs, Persist;
    PersistPuts(index, p, now);
    var k := PatchKey(p);
    var merged, torn := Merge(Existing(index, k), p, now).record, TornRecord(Existing(index, k), p, now).record;
    assert index[k := merged][k := torn] == index[k := torn];
  }

  lemma TornFields(x: Record, y: Record, pool: string, e: Event, s: int, t: int)
    requires s != 0 && t != 0 && MergeFields(x, PatchFor(pool, e, s)).Merged? && x.tombstonedAt.None?
    requires SameShape(MergeFields(x, PatchFor(pool, e, s)).record.(runnerAssignedAt := x.runnerAssignedAt), y)
    ensures y.tombstonedAt.None?
    ensures MergeFields(y, PatchFor(pool, e, t)).Merged?
    ensures SameShape(MergeFields(x, PatchFor(pool, e, s)).record, MergeFields(y, PatchFor(pool, e, t)).record)
  {
    match e
    case JobStarted(_) =>
    case JobCompleted(_) =>
  }

  lemma TornIdentified(x: Record, y: Record, p: Patch, q: Patch, s: int, t: int)
    requires s != 0 && t != 0 && PatchKey(p) == PatchKey(q)
    requires TornRecord(x, p, s).Merged? && SameShape(TornRecord(x, p, s).record, y)
    ensures Identify(x, p, s).Merged? && Identify(y, q, t) == Merged(y)
    ensures var i := Identify(x, p, s).record;
            && i.runnerAssignedAt == x.runnerAssignedAt
            && (x.runnerAssignedAt.None? <==> y.runnerAssignedAt.None?)
            && (i.tombstonedAt.Some? ==> y.tombstonedAt.Some? && TornRecord(x, p, s).record == i)
  {
    assert Blank("");
  }

  lemma SameButAssigned(a: Record, b: Record, x: Option<int>, y: Option<int>)
    requires SameShape(a, b) && (x.None? <==> y.None?)
    ensures SameShape(a.(runnerAssignedAt := x), b.(runnerAssignedAt := y))
  {
  }

  // Merging the event into what a torn save left completes the record.
  lemma TornMerges(x: Record, y: Record, pool: string, e: Event, s: int, t: int)
    requires s != 0 && t != 0 && TornRecord(x, PatchFor(pool, e, s), s).Merged?
    requires SameShape(TornRecord(x, PatchFor(pool, e, s), s).record, y)
    ensures Merge(y, PatchFor(pool, e, t), t).Merged?
    ensures SameShape(Merge(x, PatchFor(pool, e, s), s).record, Merge(y, PatchFor(pool, e, t), t).record)
    ensures SameShape(TornRecord(x, PatchFor(pool, e, s), s).record, TornRecord(y, PatchFor(pool, e, t), t).record)
  {
    hide MergeFields, PatchFor, Identify, Merge, TornRecord;
    var p, q := PatchFor(pool, e, s), PatchFor(pool, e, t);
    PatchAgrees(pool, e, s, t);
    TornIdentified(x, y, p, q, s, t);
    TornCompletes(x, y, pool, e, s, t);
    TornIsMerged(x, p, s);
    TornIsMerged(y, q, t);
    SameButAssigned(Merge(x, p, s).record, Merge(y, q, t).record, x.runnerAssignedAt, y.runnerAssignedAt);
  }

  lemma TornIsMerged(x: Record, p: Patch, now: int)
    requires Merge(x, p, now).Merged? || TornRecord(x, p, now).Merged?
    ensures Merge(x, p, now).Merged?
    ensures TornRecord(x, p, now) == Merged(Merge(x, p, now).record.(runnerAssignedAt := x.runnerAssignedAt))
  {
    hide Merge;
  }

  lemma TornCompletes(x: Record, y: Record, pool: string, e: Event, s: int, t: int)
    requires s != 0 && t != 0 && TornRecord(x, PatchFor(pool, e, s), s).Merged?
    requires SameShape(TornRecord(x, PatchFor(pool, e, s), s).record, y)
    ensures Merge(y, PatchFor(pool, e, t), t).Merged?
    ensures SameShape(Merge(x, PatchFor(pool, e, s), s).record, Merge(y, PatchFor(pool, e, t), t).record)
  {
    hide MergeFields, PatchFor, Identify;
    var p, q := PatchFor(pool, e, s), PatchFor(pool, e, t);
    PatchAgrees(pool, e, s, t);
    TornIdentified(x, y, p, q, s, t);
    if Identify(x, p, s).record.tombstonedAt.None? {
      TornFields(Identify(x, p, s).record, y, pool, e, s, t);
    }
  }

  // So persisting the event again, over a catalog torn at it, gives the shape
  // of one whole save; tearing it again changes nothing.
  lemma TornPersists(a: map<Key, Record>, b: map<Key, Record>, pool: string, e: Event, s: int, t: int)
    requires UniqueJobs(a) && s != 0 && t != 0 && Persist(a, PatchFor(pool, e, s), s).Some?
    requires SameIndex(Tear(a, PatchFor(pool, e, s), s).value, b)
    ensures var x, y := Persist(a, PatchFor(pool, e, s), s), Persist(b, PatchFor(pool, e, t), t);
            y.Some? && SameIndex(x.value, y.value)
    ensures SameIndex(Tear(a, PatchFor(pool, e, s), s).value, Tear(b, PatchFor(pool, e, t), t).value)
  {
    hide Merge, TornRecord, PatchFor, UniqueJobs, SameShape, Tear, Persist;
    var p, q := PatchFor(pool, e, s), PatchFor(pool, e, t);
    var k := PatchKey(p);
    PatchAgrees(pool, e, s, t);
    TearPuts(a, p, s);
    PersistPuts(a, p, s);
    TornMerges(Existing(a, k), b[k], pool, e, s, t);
    PersistUnique(a, p, s);
    SavedAlike(Persist(a, p, s).value, b, q, t);
    TearPuts(b, q, t);
    PersistPuts(b, q, t);
  }

  lemma PersistUnique(index: map<Key, Record>, p: Patch, now: int)
    requires UniqueJobs(index) && Persist(index, p, now).Some?
    ensures UniqueJobs(Persist(index, p, now).value)
  {
    hide Merge, UniqueJobs;
  }

  // A merge that gives the shape of a catalog without repeated jobs is saved.
  lemma SavedAlike(whole: map<Key, Record>, b: map<Key, Record>, q: Patch, t: int)
    requires UniqueJobs(whole) && Merge(Existing(b, PatchKey(q)), q, t).Merged?
    requires SameIndex(whole, b[PatchKey(q) := Merge(Existing(b, PatchKey(q)), q, t).record])
    ensures Persist(b, q, t).Some?
  {
    hide Merge, UniqueJobs, SameShape;
    SameIndexSameJobs(whole, b[PatchKey(q) := Merge(Existing(b, PatchKey(q)), q, t).record]);
  }

  // Torn saves of the same event over catalogs of the same shape have the same
  // shape.
  lemma TearSame(a: map<Key, Record>, b: map<Key, Record>, pool: string, e: Event, s: int, t: int)
    requires SameIndex(a, b) && UniqueJobs(a) && s != 0 && t != 0
    requires Persist(a, PatchFor(pool, e, s), s).Some?
    ensures Tear(b, PatchFor(pool, e, t), t).Some?
    ensures SameIndex(Tear(a, PatchFor(pool, e, s), s).value, Tear(b, PatchFor(pool, e, t), t).value)
  {
    hide Merge, PatchFor, UniqueJobs, Persist, Tear;
    var p, q := PatchFor(pool, e, s), PatchFor(pool, e, t);
    PatchAgrees(pool, e, s, t);
    PersistSame(a, b, pool, e, s, t);
    MergeSameShape(Existing(a, PatchKey(p)), Existing(b, PatchKey(p)), pool, e, s, t);
    TearPuts(a, p, s);
    TearPuts(b, q, t);
  }

  // A torn save takes back nothing the catalog held.
  lemma TearKeepsHolding(index: map<Key, Record>, pool: string, held: Event, e: Event, now: int)
    requires HoldsEvent(index, pool, held) && Persist(index, PatchFor(pool, e, now), now).Some?
    ensures HoldsEvent(Tear(index, PatchFor(pool, e, now), now).value, pool, held)
  {
    hide Merge, Absorbed, UniqueJobs;
    var p, q := PatchFor(pool, held, 1), PatchFor(pool, e, now);
    if PatchKey(p) == PatchKey(q) {
      AbsorbedStays(index[PatchKey(p)], p, q, now);
      TornAbsorbed(index[PatchKey(p)], p, q, now);
    }
  }

  lemma TornAbsorbed(r: Record, p: Patch, q: Patch, now: int)
    requires Absorbed(r, p) && Merge(r, q, now).Merged? && Absorbed(Merge(r, q, now).record, p)
    ensures Absorbed(TornRecord(r, q, now).record, p)
  {
    hide MergeFields;
  }

  // A torn save of an event already held changes nothing.
  lemma TearHeld(index: map<Key, Record>, pool: string, e: Event, now: int)
    requires HoldsEvent(index, pool, e) && now != 0
    ensures Tear(index, PatchFor(pool, e, now), now) == Some(index)
  {
    hide Merge, Absorbed, Persist;
    PersistHeld(index, pool, e, now);
    PatchAgrees(pool, e, 1, now);
    var k := PatchKey(PatchFor(pool, e, now));
    assert index[k := index[k]] == index;
  }

  // A replay over an index torn at event r, which holds those before it, reaches
  // the shape of the uninterrupted run once it is past r.
  lemma TornResumes(index0: map<Key, Record>, index: map<Key, Record>, pool: string, events: seq<Event>,
                    s: nat -> int, t: nat -> int, r: nat, k: nat)
    requires r < k <= |events| && UniqueJobs(index0)
    requires forall i: nat :: s(i) != 0 && t(i) != 0
    requires PersistAll(index0, pool, events, s, k).Some?
    requires PersistAll(index0, pool, events, s, r).Some?
    requires Torn(PersistAll(index0, pool, events, s, r).value, index, pool, events[r], s(r))
    requires Holds(index, pool, events, r)
    ensures PersistAll(index, pool, events, t, k).Some?
    ensures SameIndex(PersistAll(index0, pool, events, s, k).value, PersistAll(index, pool, events, t, k).value)
  {
    hide Persist, PersistAll, PatchFor, SameIndex, UniqueJobs, HoldsEvent, Tear;
    ReplaySkips(index, pool, events, t, r, r);
    PersistAllPrefix(index0, pool, events, s, r + 1, k);
    PersistAllStep(index0, pool, events, s, r);
    PersistAllStep(index, pool, events, t, r);
    PersistAllUnique(index0, pool, events, s, r);
    TornPersists(PersistAll(index0, pool, events, s, r).value, index, pool, events[r], s(r), t(r));
    RunsAgree(index0, index, pool, events, s, t, r + 1, k);
  }

  // The shape a torn save of the event leaves of the catalog before it.
  ghost predicate Torn(before: map<Key, Record>, index: map<Key, Record>, pool: string, e: Event, now: int) {
    var torn := Tear(before, PatchFor(pool, e, now), now);
    torn.Some? && SameIndex(torn.value, index)
  }
}
