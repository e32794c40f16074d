/** Job records and how patches merge into them (internal/jobindex/catalog.go).
    Times are integers, zero being Go's zero time. */
module JobRecords {
  import opened Basics

  datatype Record = Record(
    poolId: string,
    runnerName: string,
    containerId: string,
    jobId: string,
    result: string,
    logPath: string,
    diagnosticPath: string,
    artifactStartedAt: int,
    runnerAssignedAt: Option<int>,
    jobStartedAt: int,
    completedAt: int,
    finalizedAt: int,
    updatedAt: int,
    open: bool,
    tombstonedAt: Option<int>)
  {
    // What Catalog.ActiveJob reports of a live record.
    predicate Active() {
      tombstonedAt.None? && jobId != "" && jobStartedAt != 0 && completedAt == 0
    }
  }

  const EMPTY := Record("", "", "", "", "", "", "", 0, None, 0, 0, 0, 0, false, None)

  // A path argument as filepath.IsAbs and filepath.Clean see it.
  datatype Path = NoPath | Relative | Absolute(clean: string)

  datatype Patch = Patch(
    poolId: string,
    runnerName: string,
    containerId: string,
    jobId: string,
    result: string,
    logPath: Path,
    diagnosticPath: Path,
    artifactStartedAt: int,
    runnerAssignedAt: int,
    jobStartedAt: int,
    completedAt: int,
    finalizedAt: int,
    open: Option<bool>,
    tombstonedAt: Option<int>)

  datatype Merging = Merged(record: Record) | Rejected

  predicate IsSpace(c: char) {
    c == ' ' || '\t' <= c <= '\r' || c == 0x85 as char || c == 0xA0 as char
  }

  predicate Blank(s: string) {
    forall i :: 0 <= i < |s| ==> IsSpace(s[i])
  }

  function MergeImmutable(current: string, incoming: string): Option<string> {
    if incoming == "" then Some(current)
    else if current != "" && current != incoming then None
    else Some(incoming)
  }

  function MergePath(current: string, incoming: Path): Option<string> {
    match incoming
    case NoPath => Some(current)
    case Relative => None
    case Absolute(clean) => MergeImmutable(current, clean)
  }

  function MergeTime(current: int, incoming: int): int {
    if current == 0 && incoming != 0 then incoming else current
  }

  function MergeOptionalTime(current: Option<int>, incoming: int): Option<int> {
    if current.Some? || incoming == 0 then current else Some(incoming)
  }

  // The identity checks of Merge: whose record it is, if anyone's.
  function Identify(existing: Record, patch: Patch, now: int): Merging {
    if Blank(patch.poolId) || Blank(patch.runnerName) || now == 0 then Rejected
    else if existing.poolId == "" then Merged(existing.(poolId := patch.poolId, runnerName := patch.runnerName))
    else if existing.poolId != patch.poolId || existing.runnerName != patch.runnerName then Rejected
    else Merged(existing)
  }

  // Field by field, ignoring the update time.
  function MergeFields(r: Record, patch: Patch): Merging {
    var container := MergeImmutable(r.containerId, patch.containerId);
    var job := MergeImmutable(r.jobId, patch.jobId);
    var result := MergeImmutable(r.result, patch.result);
    var log := MergePath(r.logPath, patch.logPath);
    var diagnostic := MergePath(r.diagnosticPath, patch.diagnosticPath);
    if container.None? || job.None? || result.None? || log.None? || diagnostic.None? then Rejected
    else Merged(Record(
      r.poolId, r.runnerName, container.value, job.value, result.value, log.value, diagnostic.value,
      MergeTime(r.artifactStartedAt, patch.artifactStartedAt),
      MergeOptionalTime(r.runnerAssignedAt, patch.runnerAssignedAt),
      MergeTime(r.jobStartedAt, patch.jobStartedAt),
      MergeTime(r.completedAt, patch.completedAt),
      MergeTime(r.finalizedAt, patch.finalizedAt),
      r.updatedAt,
      if patch.tombstonedAt.Some? then false else if patch.open.Some? then patch.open.value else r.open,
      if patch.tombstonedAt.Some? then patch.tombstonedAt else r.tombstonedAt))
  }

  function Merge(existing: Record, patch: Patch, now: int): Merging {
    var identified := Identify(existing, patch, now);
    if identified.Rejected? || identified.record.tombstonedAt.Some? then identified
    else
      var fields := MergeFields(identified.record, patch);
      if fields.Rejected? || fields.record == existing then fields
      else Merged(fields.record.(updatedAt := now))
  }

  // ----- Absorption -------------------------------------------------------

  predicate TextAbsorbed(current: string, incoming: string) {
    incoming == "" || current == incoming
  }

  predicate PathAbsorbed(current: string, incoming: Path) {
    incoming.NoPath? || (incoming.Absolute? && TextAbsorbed(current, incoming.clean))
  }

  // The record already says everything the patch does.
  predicate Absorbed(r: Record, p: Patch) {
    && r.poolId == p.poolId && r.runnerName == p.runnerName && !Blank(p.poolId) && !Blank(p.runnerName)
    && (r.tombstonedAt.None? ==>
          && TextAbsorbed(r.containerId, p.containerId)
          && TextAbsorbed(r.jobId, p.jobId)
          && TextAbsorbed(r.result, p.result)
          && PathAbsorbed(r.logPath, p.logPath)
          && PathAbsorbed(r.diagnosticPath, p.diagnosticPath)
          && (p.artifactStartedAt != 0 ==> r.artifactStartedAt != 0)
          && (p.runnerAssignedAt != 0 ==> r.runnerAssignedAt.Some?)
          && (p.jobStartedAt != 0 ==> r.jobStartedAt != 0)
          && (p.completedAt != 0 ==> r.completedAt != 0)
          && (p.finalizedAt != 0 ==> r.finalizedAt != 0)
          && (p.open.Some? ==> r.open == p.open.value)
          && p.tombstonedAt.None?)
  }

  lemma MergeAbsorbs(e: Record, p: Patch, now: int)
    requires Merge(e, p, now).Merged?
    ensures Absorbed(Merge(e, p, now).record, p)
  {
  }

  // Merging an absorbed patch, at any later time, changes nothing; and only
  // absorbed patches change nothing.
  lemma AbsorbedIffUnchanged(r: Record, p: Patch, now: int)
    requires now != 0 && r.poolId != ""
    ensures Absorbed(r, p) <==> Merge(r, p, now) == Merged(r)
  {
  }

  // Merge is idempotent, even with a later clock.
  lemma MergeIdempotent(e: Record, p: Patch, now: int, later: int)
    requires Merge(e, p, now).Merged? && later != 0
    ensures Merge(Merge(e, p, now).record, p, later) == Merge(e, p, now)
  {
    MergeAbsorbs(e, p, now);
    var r := Merge(e, p, now).record;
    assert r.poolId != "";
    AbsorbedIffUnchanged(r, p, later);
  }

  // The update time moves exactly when some field of a live record does.
  lemma MergeStamps(e: Record, p: Patch, now: int)
    requires e.tombstonedAt.None? && Merge(e, p, now).Merged?
    ensures var r := Merge(e, p, now).record;
            r == e || (r.updatedAt == now && r.(updatedAt := e.updatedAt) != e)
  {
  }

  // A tombstone absorbs every later patch to its record.
  lemma TombstoneAbsorbs(r: Record, p: Patch, now: int)
    requires r.tombstonedAt.Some? && r.poolId != ""
    ensures Merge(r, p, now).Merged? ==> Merge(r, p, now).record == r
  {
  }

  // What a merge never undoes.
  ghost predicate Persists(before: Record, after: Record) {
    && (before.poolId != "" ==> after.poolId == before.poolId && after.runnerName == before.runnerName)
    && (before.jobId != "" ==> after.jobId == before.jobId)
    && (before.result != "" ==> after.result == before.result)
    && (before.containerId != "" ==> after.containerId == before.containerId)
    && (before.logPath != "" ==> after.logPath == before.logPath)
    && (before.diagnosticPath != "" ==> after.diagnosticPath == before.diagnosticPath)
    && (before.artifactStartedAt != 0 ==> after.artifactStartedAt == before.artifactStartedAt)
    && (before.runnerAssignedAt.Some? ==> after.runnerAssignedAt == before.runnerAssignedAt)
    && (before.jobStartedAt != 0 ==> after.jobStartedAt == before.jobStartedAt)
    && (before.completedAt != 0 ==> after.completedAt == before.completedAt)
    && (before.finalizedAt != 0 ==> after.finalizedAt == before.finalizedAt)
    && (before.tombstonedAt.Some? ==> after == before)
  }

  lemma MergePersists(e: Record, p: Patch, now: int)
    requires e.poolId != "" && Merge(e, p, now).Merged?
    ensures Persists(e, Merge(e, p, now).record)
  {
  }

  // A patch once absorbed stays absorbed, unless it takes sides on openness.
  lemma AbsorbedStays(r: Record, p: Patch, q: Patch, now: int)
    requires Absorbed(r, p) && p.open.None? && Merge(r, q, now).Merged?
    ensures Absorbed(Merge(r, q, now).record, p)
  {
  }

  // ----- Merge sequences --------------------------------------------------

  datatype Timed = Timed(patch: Patch, now: int)

  // Patches that fail to merge are skipped.
  function Apply(r: Record, t: Timed): Record {
    var merged := Merge(r, t.patch, t.now);
    if merged.Merged? then merged.record else r
  }

  function ApplyAll(r: Record, patches: seq<Timed>): Record {
    if patches == [] then r
    else Apply(ApplyAll(r, patches[..|patches| - 1]), patches[|patches| - 1])
  }

  // Once completed, or once tombstoned, a record is never active again,
  // whatever is merged into it.
  lemma {:induction false} NeverActiveAgain(r: Record, patches: seq<Timed>)
    requires r.poolId != "" && (r.completedAt != 0 || r.tombstonedAt.Some?)
    ensures var after := ApplyAll(r, patches);
            && after.poolId != "" && !after.Active()
            && (after.completedAt != 0 || after.tombstonedAt.Some?)
            && Persists(r, after)
  {
    if patches != [] {
      var before := ApplyAll(r, patches[..|patches| - 1]);
      NeverActiveAgain(r, patches[..|patches| - 1]);
      var t := patches[|patches| - 1];
      if Merge(before, t.patch, t.now).Merged? {
        MergePersists(before, t.patch, t.now);
      }
    }
  }
}
