/** The retention sweep over finalized worker artifacts
    (internal/runtime/docker/artifacts.go:473-478, 507-536, 559-564, 696-701). */
module Sweep {
  import opened Basics

  // ----- Candidates -------------------------------------------------------

  // What removing one artifact does: bytes gone from disk, and whether it failed.
  datatype Removal = Removal(bytes: nat, ok: bool)

  // Its log, its diagnostics and its resource evidence.
  datatype Candidate = Candidate(finalizedAt: int, artifacts: seq<Removal>)

  datatype Policy = Policy(now: int, retention: int, protectedBytes: nat, cap: nat)

  const MIN_DURATION := -0x8000_0000_0000_0000

  // Oldest first.
  ghost predicate Ordered(cs: seq<Candidate>) {
    forall i, j :: 0 <= i < j < |cs| ==> cs[i].finalizedAt <= cs[j].finalizedAt
  }

  // Time.Sub saturates at the largest and smallest durations.
  function Age(now: int, at: int): int {
    Max(MIN_DURATION, Min(MAX_INT, now - at))
  }

  predicate Expired(p: Policy, c: Candidate) {
    Age(p.now, c.finalizedAt) >= p.retention
  }

  function SaturatingSub(left: nat, right: nat): nat {
    if left <= right then 0 else left - right
  }

  predicate CapPressure(p: Policy, total: nat) {
    total > p.cap && SaturatingSub(total, p.protectedBytes) > p.cap
  }

  predicate Doomed(p: Policy, c: Candidate, total: nat) {
    Expired(p, c) || CapPressure(p, total)
  }

  // ----- One candidate removed --------------------------------------------

  function Reclaim(total: nat, artifacts: seq<Removal>): (after: nat)
    ensures after <= total
  {
    if artifacts == [] then total
    else SaturatingSub(Reclaim(total, artifacts[..|artifacts| - 1]), artifacts[|artifacts| - 1].bytes)
  }

  predicate AllRemoved(artifacts: seq<Removal>) {
    forall i :: 0 <= i < |artifacts| ==> artifacts[i].ok
  }

  // ----- The reference: every candidate looked at ----------------------------

  // The bytes left, the candidates removed and those to be tombstoned.
  datatype Swept = Swept(total: nat, removed: seq<nat>, tombstones: seq<nat>)

  function FullScan(p: Policy, cs: seq<Candidate>, total: nat, k: nat): Swept
    requires k <= |cs|
  {
    if k == 0 then Swept(total, [], [])
    else
      var s := FullScan(p, cs, total, k - 1);
      if Doomed(p, cs[k - 1], s.total) then Removed(s, k - 1, cs[k - 1]) else s
  }

  function Removed(s: Swept, i: nat, c: Candidate): Swept {
    Swept(Reclaim(s.total, c.artifacts), s.removed + [i],
          if AllRemoved(c.artifacts) then s.tombstones + [i] else s.tombstones)
  }

  /** Once one candidate is kept, every later one is: it is no older, and the
      total no longer shrinks. */
  lemma {:induction false} KeptStaysKept(p: Policy, cs: seq<Candidate>, total: nat, i: nat, k: nat)
    requires i < k <= |cs| && Ordered(cs)
    requires !Doomed(p, cs[i], FullScan(p, cs, total, i).total)
    ensures FullScan(p, cs, total, k) == FullScan(p, cs, total, i)
    decreases k
  {
    hide CapPressure;
    if i + 1 < k {
      KeptStaysKept(p, cs, total, i, k - 1);
      assert cs[i].finalizedAt <= cs[k - 1].finalizedAt;
    }
  }

  // The removed candidates are the oldest ones, the expired among them, and a
  // removed candidate that was not expired was under cap pressure.
  lemma {:induction false} RemovesOldest(p: Policy, cs: seq<Candidate>, total: nat, k: nat)
    requires k <= |cs| && Ordered(cs)
    ensures var s := FullScan(p, cs, total, k);
            && |s.removed| <= k
            && (forall i :: 0 <= i < |s.removed| ==> s.removed[i] == i)
            && (forall i :: 0 <= i < k && Expired(p, cs[i]) ==> i < |s.removed|)
            && (forall i :: 0 <= i < |s.removed| ==>
                  Expired(p, cs[i]) || CapPressure(p, FullScan(p, cs, total, i).total))
            && (|s.removed| < k ==> !CapPressure(p, s.total))
  {
    hide CapPressure, Expired;
    if k > 0 {
      RemovesOldest(p, cs, total, k - 1);
      var s := FullScan(p, cs, total, k - 1);
      if |s.removed| < k - 1 {
        StillKept(p, cs, total, |s.removed|, k - 1);
      }
    }
  }

  lemma StillKept(p: Policy, cs: seq<Candidate>, total: nat, i: nat, j: nat)
    requires i < j < |cs| && Ordered(cs) && !Expired(p, cs[i])
    ensures !Expired(p, cs[j])
  {
  }

  // ----- The code: stop at the first kept ---------------------------------

  method RemoveArtifacts(total: nat, artifacts: seq<Removal>) returns (after: nat, ok: bool)
    ensures after == Reclaim(total, artifacts) && ok == AllRemoved(artifacts)
  {
    after, ok := total, true;
    for i := 0 to |artifacts|
      invariant after == Reclaim(total, artifacts[..i])
      invariant ok <==> forall j :: 0 <= j < i ==> artifacts[j].ok
    {
      assert artifacts[..i + 1][..i] == artifacts[..i];
      after := SaturatingSub(after, artifacts[i].bytes);
      if !artifacts[i].ok { ok := false; }
    }
    assert artifacts[..|artifacts|] == artifacts;
  }

  /** The sweep removes and tombstones exactly what looking at every candidate
      would, whichever removals fail part-way. A context that ends before
      candidate c leaves the files of the first c as they come to be, and
      tombstones none of them. */
  method RunSweep(p: Policy, cs: seq<Candidate>, total: nat, cancelledAt: Option<nat>)
    returns (s: Swept, cancelled: bool)
    requires Ordered(cs)
    // The context ends before a candidate that the sweep gets to.
    ensures cancelled <==>
              && cancelledAt.Some? && cancelledAt.value < |cs|
              && |FullScan(p, cs, total, cancelledAt.value).removed| == cancelledAt.value
    ensures !cancelled ==> s == FullScan(p, cs, total, |cs|)
    ensures cancelled ==> s == FullScan(p, cs, total, cancelledAt.value).(tombstones := [])
  {
    hide Doomed;
    s := Swept(total, [], []);
    cancelled := false;
    var i := 0;
    while i < |cs|
      invariant 0 <= i <= |cs|
      invariant s == FullScan(p, cs, total, i) && |s.removed| == i
      invariant cancelledAt.Some? ==> i <= cancelledAt.value
    {
      if cancelledAt == Some(i) { return s.(tombstones := []), true; }
      var doomed := IsDoomed(p, cs[i], s.total);
      if !doomed {
        KeptStaysKept(p, cs, total, i, |cs|);
        if cancelledAt.Some? && i < cancelledAt.value < |cs| { KeptStaysKept(p, cs, total, i, cancelledAt.value); }
        break;
      }
      s := RemoveCandidate(s, i, cs[i]);
      i := i + 1;
    }
  }

  method IsDoomed(p: Policy, c: Candidate, total: nat) returns (doomed: bool)
    ensures doomed == Doomed(p, c, total)
  {
    var expired := Age(p.now, c.finalizedAt) >= p.retention;
    doomed := expired || CapPressure(p, total);
  }

  method RemoveCandidate(s: Swept, i: nat, c: Candidate) returns (after: Swept)
    ensures after == Removed(s, i, c)
  {
    var total, ok := RemoveArtifacts(s.total, c.artifacts);
    after := Swept(total, s.removed + [i], if ok then s.tombstones + [i] else s.tombstones);
  }
}
