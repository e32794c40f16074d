/** Fitting jobs.json under its save cap (file_store.go:353-479): tombstones go
    first, then closed terminal records, oldest first, until it fits. */
module Compaction {
  import opened Basics
  import opened JobRecords
  import opened JobIndex

  // ----- What may go, and in which order ----------------------------------

  function TerminalTime(r: Record): int {
    if r.finalizedAt != 0 then r.finalizedAt else r.completedAt
  }

  predicate Compactable(r: Record) {
    || r.tombstonedAt.Some?
    || (!r.open && TerminalTime(r) != 0 && (r.jobId == "" || r.jobStartedAt == 0 || r.completedAt != 0))
  }

  datatype Tier = Tombstones | Completed
  {
    predicate Has(r: Record) {
      match this
      case Tombstones => r.tombstonedAt.Some?
      case Completed => r.tombstonedAt.None? && Compactable(r)
    }

    function Age(r: Record): int
      requires Has(r)
    {
      if Tombstones? then r.tombstonedAt.value else TerminalTime(r)
    }

    // The comparison both tiers sort by: time, then pool, then runner.
    predicate Older(a: Record, b: Record)
      requires Has(a) && Has(b)
    {
      || Age(a) < Age(b)
      || (Age(a) == Age(b)
          && (StringLess(a.poolId, b.poolId) || (a.poolId == b.poolId && StringLess(a.runnerName, b.runnerName))))
    }
  }

  lemma OlderTotal(t: Tier, a: Record, b: Record)
    requires t.Has(a) && t.Has(b) && KeyOf(a) != KeyOf(b)
    ensures t.Older(a, b) != t.Older(b, a)
  {
    StringLessTrichotomy(a.poolId, b.poolId);
    StringLessTrichotomy(a.runnerName, b.runnerName);
  }

  lemma OlderTransitive(t: Tier, a: Record, b: Record, c: Record)
    requires t.Has(a) && t.Has(b) && t.Has(c) && t.Older(a, b) && t.Older(b, c)
    ensures t.Older(a, c)
  {
    if StringLess(a.poolId, b.poolId) && StringLess(b.poolId, c.poolId) {
      StringLessTransitive(a.poolId, b.poolId, c.poolId);
    }
    if StringLess(a.runnerName, b.runnerName) && StringLess(b.runnerName, c.runnerName) {
      StringLessTransitive(a.runnerName, b.runnerName, c.runnerName);
    }
  }

  // ----- Sorting a tier ---------------------------------------------------

  ghost predicate InTier(t: Tier, s: seq<Record>) {
    forall i :: 0 <= i < |s| ==> t.Has(s[i])
  }

  ghost predicate OldestFirst(t: Tier, s: seq<Record>) {
    InTier(t, s) && forall i, j :: 0 <= i < j < |s| ==> t.Older(s[i], s[j])
  }

  function Insert(t: Tier, r: Record, s: seq<Record>): (after: seq<Record>)
    requires t.Has(r) && InTier(t, s)
    ensures |after| == |s| + 1 && InTier(t, after)
    ensures forall x :: x in after <==> x == r || x in s
  {
    if s == [] then [r]
    else
      assert s == s[..|s| - 1] + [s[|s| - 1]];
      if t.Older(r, s[|s| - 1]) then Insert(t, r, s[..|s| - 1]) + [s[|s| - 1]] else s + [r]
  }

  // The tier's records, oldest first.
  function Sorted(t: Tier, records: seq<Record>): (s: seq<Record>)
    ensures InTier(t, s) && |s| <= |records|
    ensures forall x :: x in s <==> x in records && t.Has(x)
  {
    if records == [] then []
    else
      assert records == records[..|records| - 1] + [records[|records| - 1]];
      var rest := Sorted(t, records[..|records| - 1]);
      if t.Has(records[|records| - 1]) then Insert(t, records[|records| - 1], rest) else rest
  }

  lemma {:induction false} InsertOrders(t: Tier, r: Record, s: seq<Record>)
    requires t.Has(r) && OldestFirst(t, s) && forall x :: x in s ==> KeyOf(x) != KeyOf(r)
    ensures OldestFirst(t, Insert(t, r, s))
  {
    hide Tier.Older, Tier.Has;
    if s != [] {
      var n := |s| - 1;
      assert s[n] in s;
      if t.Older(r, s[n]) {
        InsertOrders(t, r, s[..n]);
        var rest := Insert(t, r, s[..n]);
        forall i | 0 <= i < |rest|
          ensures t.Older(rest[i], s[n])
        {
          assert rest[i] in rest;
        }
      } else {
        OlderTotal(t, r, s[n]);
        forall i | 0 <= i < |s|
          ensures t.Older(s[i], r)
        {
          if i < n { OlderTransitive(t, s[i], s[n], r); }
        }
      }
    }
  }

  lemma {:induction false} SortedOrders(t: Tier, records: seq<Record>)
    requires UniqueKeys(records)
    ensures OldestFirst(t, Sorted(t, records))
  {
    hide Tier.Older, Tier.Has;
    if records != [] {
      var n := |records| - 1;
      SortedOrders(t, records[..n]);
      if t.Has(records[n]) {
        forall x | x in Sorted(t, records[..n])
          ensures KeyOf(x) != KeyOf(records[n])
        {
          assert x in records[..n];
        }
        InsertOrders(t, records[n], Sorted(t, records[..n]));
      }
    }
  }

  // ----- Removing by key --------------------------------------------------

  function Keys(s: seq<Record>): set<Key> {
    set r | r in s :: KeyOf(r)
  }

  // The records left once some keys are gone, in their order.
  function Without(records: seq<Record>, gone: set<Key>): (kept: seq<Record>)
    ensures |kept| <= |records|
  {
    if records == [] then []
    else
      var rest := Without(records[..|records| - 1], gone);
      if KeyOf(records[|records| - 1]) in gone then rest else rest + [records[|records| - 1]]
  }

  lemma {:induction false} WithoutTwice(records: seq<Record>, first: set<Key>, second: set<Key>)
    ensures Without(Without(records, first), second) == Without(records, first + second)
  {
    if records != [] {
      var rest, r := records[..|records| - 1], records[|records| - 1];
      WithoutTwice(rest, first, second);
      assert (Without(rest, first) + [r])[..|Without(rest, first)|] == Without(rest, first);
    }
  }

  lemma {:induction false} WithoutNone(records: seq<Record>)
    ensures Without(records, {}) == records
  {
    if records != [] { WithoutNone(records[..|records| - 1]); }
  }

  lemma {:induction false} WithoutUnique(records: seq<Record>, gone: set<Key>)
    requires UniqueKeys(records)
    ensures UniqueKeys(Without(records, gone))
  {
    if records != [] {
      var rest := records[..|records| - 1];
      WithoutUnique(rest, gone);
      SplitMembers(rest, gone);
      forall i | 0 <= i < |Without(rest, gone)|
        ensures KeyOf(Without(rest, gone)[i]) != KeyOf(records[|records| - 1])
      {
        assert Without(rest, gone)[i] in rest;
      }
    }
  }

  lemma {:induction false} WithoutShrinks(records: seq<Record>, gone: set<Key>, r: Record)
    requires r in records && KeyOf(r) in gone
    ensures |Without(records, gone)| < |records|
  {
    var n := |records| - 1;
    if records[n] != r {
      assert records == records[..n] + [records[n]];
      WithoutShrinks(records[..n], gone, r);
    }
  }

  // The records that go, in catalog order.
  function Only(records: seq<Record>, gone: set<Key>): (removed: seq<Record>)
    ensures |removed| <= |records|
  {
    if records == [] then []
    else
      var rest := Only(records[..|records| - 1], gone);
      if KeyOf(records[|records| - 1]) in gone then rest + [records[|records| - 1]] else rest
  }

  lemma {:induction false} SplitMembers(records: seq<Record>, gone: set<Key>)
    ensures forall x :: x in Without(records, gone) <==> x in records && KeyOf(x) !in gone
    ensures forall x :: x in Only(records, gone) <==> x in records && KeyOf(x) in gone
  {
    if records != [] {
      SplitMembers(records[..|records| - 1], gone);
      assert records == records[..|records| - 1] + [records[|records| - 1]];
    }
  }

  // ----- One round --------------------------------------------------------

  // How many to drop, from the average encoded record.
  function DropCount(size: nat, cap: nat, records: nat, tier: nat): (count: nat)
    requires size > cap && records > 0 && tier > 0
    ensures 1 <= count <= tier
  {
    Min((size - cap) / Max(size / records, 1) + 1, tier)
  }

  function OldestKeys(t: Tier, records: seq<Record>, count: nat): set<Key>
    requires count <= |Sorted(t, records)|
  {
    Keys(Sorted(t, records)[..count])
  }

  // The keys a round over a nonempty tier evicts.
  function Round(t: Tier, records: seq<Record>, size: nat, cap: nat): set<Key>
    requires size > cap && Sorted(t, records) != []
  {
    var sorted := Sorted(t, records);
    OldestKeys(t, records, DropCount(size, cap, |records|, |sorted|))
  }

  // Evicted records of a tier are older than those it keeps.
  ghost predicate OldestGone(t: Tier, records: seq<Record>, gone: set<Key>) {
    forall e, k :: e in records && k in records && t.Has(e) && t.Has(k) && KeyOf(e) in gone && KeyOf(k) !in gone ==>
                     t.Older(e, k)
  }

  ghost predicate OnlyTier(t: Tier, records: seq<Record>, gone: set<Key>) {
    forall r :: r in records && KeyOf(r) in gone ==> t.Has(r)
  }

  lemma SameKeySameRecord(records: seq<Record>, a: Record, b: Record)
    requires UniqueKeys(records) && a in records && b in records && KeyOf(a) == KeyOf(b)
    ensures a == b
  {
  }

  lemma RoundEvicts(t: Tier, records: seq<Record>, size: nat, cap: nat)
    requires UniqueKeys(records) && size > cap && Sorted(t, records) != []
    ensures var gone := Round(t, records, size, cap);
            OldestGone(t, records, gone) && OnlyTier(t, records, gone)
    ensures |Without(records, Round(t, records, size, cap))| < |records|
  {
    hide Tier.Older, Tier.Has;
    var sorted, gone := Sorted(t, records), Round(t, records, size, cap);
    var count := DropCount(size, cap, |records|, |sorted|);
    SortedOrders(t, records);
    forall r | r in records && KeyOf(r) in gone
      ensures r in sorted[..count]
    {
      var x :| x in sorted[..count] && KeyOf(x) == KeyOf(r);
      assert x in sorted;
      SameKeySameRecord(records, x, r);
    }
    forall e, k | e in records && k in records && t.Has(e) && t.Has(k) && KeyOf(e) in gone && KeyOf(k) !in gone
      ensures t.Older(e, k)
    {
      var i :| 0 <= i < count && sorted[i] == e;
      assert k in sorted && k !in sorted[..count];
      var j :| 0 <= j < |sorted| && sorted[j] == k;
      assert count <= j;
    }
    assert sorted[0] in sorted && sorted[0] in sorted[..count];
    WithoutShrinks(records, gone, sorted[0]);
  }

  lemma RoundShrinks(t: Tier, records: seq<Record>, size: nat, cap: nat)
    requires size > cap && Sorted(t, records) != []
    ensures |Without(records, Round(t, records, size, cap))| < |records|
  {
    var sorted := Sorted(t, records);
    assert sorted[0] in sorted && sorted[0] in sorted[..DropCount(size, cap, |records|, |sorted|)];
    WithoutShrinks(records, Round(t, records, size, cap), sorted[0]);
  }

  // ----- All rounds -------------------------------------------------------

  datatype Outcome = Outcome(ok: bool, kept: seq<Record>, dropped: seq<Record>)

  // encodeWithinCapacity, for any size function: every round evicts someone.
  function Compacted(records: seq<Record>, size: seq<Record> -> nat, cap: nat): Outcome
    decreases |records|
  {
    if size(records) <= cap then Outcome(true, records, [])
    else if Sorted(Tombstones, records) != [] then
      RoundShrinks(Tombstones, records, size(records), cap);
      Compacted(Without(records, Round(Tombstones, records, size(records), cap)), size, cap)
    else if Sorted(Completed, records) != [] then
      var gone := Round(Completed, records, size(records), cap);
      RoundShrinks(Completed, records, size(records), cap);
      var rest := Compacted(Without(records, gone), size, cap);
      rest.(dropped := Only(records, gone) + rest.dropped)
    else Outcome(false, records, [])
  }

  ghost predicate AllCompactable(records: seq<Record>, gone: set<Key>) {
    forall r :: r in records && KeyOf(r) in gone ==> Compactable(r)
  }

  // Each evicted record that is not a tombstone as often as it was there.
  ghost predicate Reported(records: seq<Record>, dropped: seq<Record>, gone: set<Key>) {
    forall r :: multiset(dropped)[r] == if KeyOf(r) in gone && r.tombstonedAt.None? then multiset(records)[r] else 0
  }

  // Completed records go only once every tombstone has gone.
  ghost predicate TombstonesFirst(records: seq<Record>, gone: set<Key>) {
    forall e, k :: e in records && k in records && KeyOf(e) in gone && e.tombstonedAt.None? && k.tombstonedAt.Some? ==>
                     KeyOf(k) in gone
  }

  // Everything a compaction may claim about the keys it let go.
  ghost predicate Explains(records: seq<Record>, o: Outcome, gone: set<Key>) {
    && o.kept == Without(records, gone)
    && AllCompactable(records, gone) && Reported(records, o.dropped, gone)
    && OldestGone(Tombstones, records, gone) && OldestGone(Completed, records, gone)
    && TombstonesFirst(records, gone)
  }

  lemma ExplainsNothing(records: seq<Record>, ok: bool)
    ensures Explains(records, Outcome(ok, records, []), {})
  {
    WithoutNone(records);
  }

  // A round and what follows it, put together.
  lemma ExplainsRound(t: Tier, records: seq<Record>, first: set<Key>, rest: Outcome, later: set<Key>,
                      dropped: seq<Record>)
    requires OldestGone(t, records, first) && OnlyTier(t, records, first)
    requires Explains(Without(records, first), rest, later)
    requires t.Completed? ==> forall r :: r in records ==> r.tombstonedAt.None?
    requires dropped == if t.Completed? then Only(records, first) + rest.dropped else rest.dropped
    ensures Explains(records, rest.(dropped := dropped), first + later)
  {
    hide AllCompactable, Reported, OldestGone, OnlyTier, TombstonesFirst;
    WithoutTwice(records, first, later);
    CompactableRound(t, records, first, later);
    ReportedRound(t, records, first, rest.dropped, later, dropped);
    OldestRound(Tombstones, t, records, first, later);
    OldestRound(Completed, t, records, first, later);
    FirstRound(t, records, first, later);
  }

  lemma CompactableRound(t: Tier, records: seq<Record>, first: set<Key>, later: set<Key>)
    requires OnlyTier(t, records, first) && AllCompactable(Without(records, first), later)
    ensures AllCompactable(records, first + later)
  {
    SplitMembers(records, first);
    forall r | r in records && KeyOf(r) in first + later
      ensures Compactable(r)
    {
      if KeyOf(r) !in first { assert r in Without(records, first); }
    }
  }

  lemma ReportedRound(t: Tier, records: seq<Record>, first: set<Key>, before: seq<Record>, later: set<Key>,
                      dropped: seq<Record>)
    requires OnlyTier(t, records, first) && Reported(Without(records, first), before, later)
    requires dropped == if t.Completed? then Only(records, first) + before else before
    ensures Reported(records, dropped, first + later)
  {
    forall r: Record
      ensures multiset(dropped)[r]
           == if KeyOf(r) in first + later && r.tombstonedAt.None? then multiset(records)[r] else 0
    {
      SplitCounts(records, first, r);
      assert multiset(before)[r]
          == if KeyOf(r) in later && r.tombstonedAt.None? then multiset(Without(records, first))[r] else 0;
      assert KeyOf(r) in first && r in multiset(records) ==> t.Has(r);
    }
  }

  lemma {:induction false} SplitCounts(records: seq<Record>, gone: set<Key>, r: Record)
    ensures multiset(Without(records, gone))[r] == if KeyOf(r) in gone then 0 else multiset(records)[r]
    ensures multiset(Only(records, gone))[r] == if KeyOf(r) in gone then multiset(records)[r] else 0
  {
    if records != [] {
      SplitCounts(records[..|records| - 1], gone, r);
      assert records == records[..|records| - 1] + [records[|records| - 1]];
    }
  }

  lemma FirstRound(t: Tier, records: seq<Record>, first: set<Key>, later: set<Key>)
    requires OnlyTier(t, records, first) && TombstonesFirst(Without(records, first), later)
    requires t.Completed? ==> forall r :: r in records ==> r.tombstonedAt.None?
    ensures TombstonesFirst(records, first + later)
  {
    SplitMembers(records, first);
  }

  lemma OldestRound(u: Tier, t: Tier, records: seq<Record>, first: set<Key>, later: set<Key>)
    requires OldestGone(t, records, first) && OnlyTier(t, records, first)
    requires OldestGone(u, Without(records, first), later)
    ensures OldestGone(u, records, first + later)
  {
    SplitMembers(records, first);
    hide Tier.Older;
  }

  // Kept and evicted records together are the original catalog.
  lemma {:induction false} WithoutAndOnly(records: seq<Record>, gone: set<Key>)
    ensures multiset(Without(records, gone)) + multiset(Only(records, gone)) == multiset(records)
  {
    if records != [] {
      var front, last := records[..|records| - 1], records[|records| - 1];
      WithoutAndOnly(front, gone);
      assert records == front + [last];
      if KeyOf(last) in gone {
        assert Without(records, gone) == Without(front, gone) && Only(records, gone) == Only(front, gone) + [last];
      } else {
        assert Without(records, gone) == Without(front, gone) + [last] && Only(records, gone) == Only(front, gone);
      }
    }
  }

  lemma ExplainsKeptAndEvicted(records: seq<Record>, o: Outcome, gone: set<Key>)
    requires Explains(records, o, gone)
    ensures multiset(o.kept) + multiset(Only(records, gone)) == multiset(records)
  {
    WithoutAndOnly(records, gone);
  }

  // Compaction keeps order, evicts only what may go, oldest first in each tier
  // over all its rounds, and reports exactly the non-tombstones it evicted. It
  // ends within the cap, or with nothing compactable left.
  lemma {:induction false} CompactedExplained(records: seq<Record>, size: seq<Record> -> nat, cap: nat)
    returns (gone: set<Key>)
    requires UniqueKeys(records)
    ensures var o := Compacted(records, size, cap);
            && Explains(records, o, gone)
            && multiset(o.kept) + multiset(Only(records, gone)) == multiset(records)
            && (o.ok ==> size(o.kept) <= cap)
            && (!o.ok ==> size(o.kept) > cap && forall r :: r in o.kept ==> !Compactable(r))
    decreases |records|
  {
    hide OldestGone, OnlyTier, Explains;
    if size(records) <= cap {
      gone := {};
      ExplainsNothing(records, true);
    } else if Sorted(Tombstones, records) != [] {
      var first := Round(Tombstones, records, size(records), cap);
      RoundEvicts(Tombstones, records, size(records), cap);
      WithoutUnique(records, first);
      var later := CompactedExplained(Without(records, first), size, cap);
      var rest := Compacted(Without(records, first), size, cap);
      ExplainsRound(Tombstones, records, first, rest, later, rest.dropped);
      gone := first + later;
    } else if Sorted(Completed, records) != [] {
      var first := Round(Completed, records, size(records), cap);
      RoundEvicts(Completed, records, size(records), cap);
      WithoutUnique(records, first);
      var later := CompactedExplained(Without(records, first), size, cap);
      var rest := Compacted(Without(records, first), size, cap);
      NoTombstones(records);
      ExplainsRound(Completed, records, first, rest, later, Only(records, first) + rest.dropped);
      gone := first + later;
    } else {
      gone := {};
      ExplainsNothing(records, false);
      NoneCompactable(records);
    }
    ExplainsKeptAndEvicted(records, Compacted(records, size, cap), gone);
  }

  lemma NoTombstones(records: seq<Record>)
    requires Sorted(Tombstones, records) == []
    ensures forall r :: r in records ==> r.tombstonedAt.None?
  {
    forall r | r in records
      ensures r.tombstonedAt.None?
    {
      assert r !in Sorted(Tombstones, records);
    }
  }

  lemma NoneCompactable(records: seq<Record>)
    requires Sorted(Tombstones, records) == [] && Sorted(Completed, records) == []
    ensures forall r :: r in records ==> !Compactable(r)
  {
    NoTombstones(records);
    forall r | r in records
      ensures !Compactable(r)
    {
      assert r !in Sorted(Completed, records);
    }
  }

  // ----- The active-job mapping -------------------------------------------

  // Catalog.ActiveJob (file_store.go:143-156): the first live record decides.
  method ActiveJob(records: seq<Record>, pool: string, runner: string) returns (job: string, active: bool)
    requires UniqueKeys(records)
    ensures active <==> IsActive(records, pool, runner)
    ensures active ==> exists r :: r in records && KeyOf(r) == (pool, runner) && r.jobId == job && r.Active()
  {
    if pool == "" || runner == "" { return "", false; }
    var i := 0;
    while i < |records|
      invariant 0 <= i <= |records|
      invariant forall j :: 0 <= j < i ==> KeyOf(records[j]) != (pool, runner) || records[j].tombstonedAt.Some?
    {
      var r := records[i];
      if r.poolId == pool && r.runnerName == runner && r.tombstonedAt.None? {
        if !r.Active() {
          forall x | x in records && KeyOf(x) == (pool, runner)
            ensures !x.Active()
          {
            SameKeySameRecord(records, x, r);
          }
        }
        return r.jobId, r.jobId != "" && r.jobStartedAt != 0 && r.completedAt == 0;
      }
      i := i + 1;
    }
    return "", false;
  }

  ghost predicate IsActive(records: seq<Record>, pool: string, runner: string) {
    pool != "" && runner != "" && exists r :: r in records && KeyOf(r) == (pool, runner) && r.Active()
  }

  // No compaction, successful or not, changes whether a runner has a job.
  lemma CompactionKeepsActive(records: seq<Record>, size: seq<Record> -> nat, cap: nat, pool: string, runner: string)
    requires UniqueKeys(records)
    ensures IsActive(Compacted(records, size, cap).kept, pool, runner) <==> IsActive(records, pool, runner)
  {
    hide Compacted;
    var gone := CompactedExplained(records, size, cap);
    var kept := Compacted(records, size, cap).kept;
    SplitMembers(records, gone);
    if r :| r in records && KeyOf(r) == (pool, runner) && r.Active() {
      assert !Compactable(r);
      assert r in kept;
    }
  }

  // ----- Filtering in place -----------------------------------------------

  function KeptAt(s: seq<Record>, drop: set<int>, i: nat): (kept: seq<Record>)
    requires i <= |s|
    ensures |kept| <= i
  {
    if i == 0 then [] else KeptAt(s, drop, i - 1) + (if i - 1 in drop then [] else [s[i - 1]])
  }

  function RemovedAt(s: seq<Record>, drop: set<int>, i: nat): seq<Record>
    requires i <= |s|
  {
    if i == 0 then [] else RemovedAt(s, drop, i - 1) + (if i - 1 in drop then [s[i - 1]] else [])
  }

  // The filter loop of compactOldestFirst writes the kept records over the
  // front of the slice it is reading (file_store.go:467-478).
  method FilterInPlace(a: array<Record>, drop: set<int>) returns (kept: nat, removed: seq<Record>)
    modifies a
    ensures kept <= a.Length
    ensures a[..kept] == KeptAt(old(a[..]), drop, a.Length)
    ensures removed == RemovedAt(old(a[..]), drop, a.Length)
  {
    kept, removed := 0, [];
    var i := 0;
    while i < a.Length
      invariant 0 <= kept <= i <= a.Length
      invariant a[..kept] == KeptAt(old(a[..]), drop, i)
      invariant a[i..] == old(a[..])[i..]
      invariant removed == RemovedAt(old(a[..]), drop, i)
    {
      var record := a[i];
      assert record == old(a[..])[i];
      if i !in drop {
        a[kept] := record;
        kept := kept + 1;
      } else {
        removed := removed + [record];
      }
      i := i + 1;
    }
  }

  lemma SplitLast(records: seq<Record>, r: Record, gone: set<Key>)
    ensures Without(records + [r], gone) == Without(records, gone) + if KeyOf(r) in gone then [] else [r]
    ensures Only(records + [r], gone) == Only(records, gone) + if KeyOf(r) in gone then [r] else []
  {
    assert (records + [r])[..|records|] == records;
  }

  lemma SplitNothing(gone: set<Key>)
    ensures Without([], gone) == [] && Only([], gone) == []
  {
  }

  // Dropping the positions of some keys is removing the records of those keys.
  lemma {:induction false} FilterByPosition(s: seq<Record>, gone: set<Key>, drop: set<int>, i: nat)
    requires i <= |s| && forall j :: 0 <= j < |s| ==> (j in drop <==> KeyOf(s[j]) in gone)
    ensures KeptAt(s, drop, i) == Without(s[..i], gone)
    ensures RemovedAt(s, drop, i) == Only(s[..i], gone)
  {
    hide Without, Only;
    if i == 0 {
      SplitNothing(gone);
    } else {
      FilterByPosition(s, gone, drop, i - 1);
      SplitLast(s[..i - 1], s[i - 1], gone);
      assert s[..i] == s[..i - 1] + [s[i - 1]];
    }
  }

  // ----- Positions of a tier, oldest first --------------------------------

  ghost predicate Positions(records: seq<Record>, ps: seq<int>) {
    forall k :: 0 <= k < |ps| ==> 0 <= ps[k] < |records|
  }

  // The records at some positions.
  function Picked(records: seq<Record>, ps: seq<int>): (picked: seq<Record>)
    requires Positions(records, ps)
    ensures |picked| == |ps|
    ensures forall k :: 0 <= k < |ps| ==> picked[k] == records[ps[k]]
  {
    seq(|ps|, k requires 0 <= k < |ps| => records[ps[k]])
  }

  // One position into its place after those of older records.
  function InsertPosition(t: Tier, records: seq<Record>, p: int, ps: seq<int>): (after: seq<int>)
    requires Positions(records, ps) && 0 <= p < |records| && t.Has(records[p]) && InTier(t, Picked(records, ps))
    ensures Positions(records, after)
  {
    if ps == [] then [p]
    else
      var last := ps[|ps| - 1];
      assert t.Has(Picked(records, ps)[|ps| - 1]);
      if t.Older(records[p], records[last]) then
        assert Picked(records, ps[..|ps| - 1]) == Picked(records, ps)[..|ps| - 1];
        InsertPosition(t, records, p, ps[..|ps| - 1]) + [last]
      else ps + [p]
  }

  lemma {:induction false} InsertPositionPicks(t: Tier, records: seq<Record>, p: int, ps: seq<int>)
    requires Positions(records, ps) && 0 <= p < |records| && t.Has(records[p]) && InTier(t, Picked(records, ps))
    ensures Picked(records, InsertPosition(t, records, p, ps)) == Insert(t, records[p], Picked(records, ps))
  {
    hide Tier.Older, Tier.Has;
    if ps != [] {
      var n := |ps| - 1;
      assert Picked(records, ps[..n]) == Picked(records, ps)[..n];
      if t.Older(records[p], records[ps[n]]) { InsertPositionPicks(t, records, p, ps[..n]); }
    }
  }

  // The index lists of compactOldestTombstones and compactOldestCompleted
  // (file_store.go:388-406, 436-455).
  method TierPositions(t: Tier, records: seq<Record>) returns (ps: seq<int>)
    ensures Positions(records, ps) && Picked(records, ps) == Sorted(t, records)
  {
    hide Tier.Older, Tier.Has, Insert, InsertPosition;
    ps := [];
    for i := 0 to |records|
      invariant Positions(records, ps) && Picked(records, ps) == Sorted(t, records[..i])
    {
      assert records[..i + 1][..i] == records[..i];
      if t.Has(records[i]) {
        InsertPositionPicks(t, records, i, ps);
        ps := InsertPosition(t, records, i, ps);
      }
    }
    assert records[..|records|] == records;
  }

  // The drop set of compactOldestFirst (file_store.go:465-468): with unique
  // keys, the positions of the chosen records and no others.
  method DropSet(records: seq<Record>, ps: seq<int>, count: nat) returns (drop: set<int>)
    requires UniqueKeys(records) && Positions(records, ps) && count <= |ps|
    ensures forall j :: 0 <= j < |records| ==> (j in drop <==> KeyOf(records[j]) in Keys(Picked(records, ps)[..count]))
  {
    drop := {};
    for i := 0 to count
      invariant drop == set k | 0 <= k < i :: ps[k]
    {
      drop := drop + {ps[i]};
    }
    forall j | 0 <= j < |records|
      ensures j in drop <==> KeyOf(records[j]) in Keys(Picked(records, ps)[..count])
    {
      DropsExactly(records, ps, count, drop, j);
    }
  }

  lemma DropsExactly(records: seq<Record>, ps: seq<int>, count: nat, drop: set<int>, j: nat)
    requires UniqueKeys(records) && Positions(records, ps) && count <= |ps| && j < |records|
    requires drop == set k | 0 <= k < count :: ps[k]
    ensures j in drop <==> KeyOf(records[j]) in Keys(Picked(records, ps)[..count])
  {
    var chosen := Picked(records, ps)[..count];
    if j in drop {
      var k :| 0 <= k < count && ps[k] == j;
      assert chosen[k] == records[j];
    }
    if KeyOf(records[j]) in Keys(chosen) {
      var r :| r in chosen && KeyOf(r) == KeyOf(records[j]);
      var k :| 0 <= k < count && chosen[k] == r;
      assert records[ps[k]] == r;
    }
  }

  // ----- As the store runs it ---------------------------------------------

  class Catalog {
    var records: seq<Record>

    constructor (records: seq<Record>)
      ensures this.records == records
    {
      this.records := records;
    }

    // One compaction attempt of a tier; removed is empty when the tier is.
    method CompactOldest(t: Tier, size: nat, cap: nat) returns (removed: seq<Record>)
      requires size > cap && UniqueKeys(records)
      modifies this
      ensures UniqueKeys(records)
      ensures Sorted(t, old(records)) == [] ==> removed == [] && records == old(records)
      ensures Sorted(t, old(records)) != [] ==>
                var gone := Round(t, old(records), size, cap);
                && records == Without(old(records), gone) && |records| < |old(records)|
                && removed == Only(old(records), gone) && removed != []
    {
      hide Sorted, Without, Only, KeptAt, RemovedAt;
      var oldestFirst := TierPositions(t, records);
      if oldestFirst == [] { return []; }
      var average := Max(size / |records|, 1);
      var dropCount := Min((size - cap) / average + 1, |oldestFirst|);
      var drop := DropSet(records, oldestFirst, dropCount);
      var slice := new Record[|records|](i requires 0 <= i < |records| reads this => records[i]);
      assert slice[..] == records;
      var kept;
      kept, removed := FilterInPlace(slice, drop);
      RoundFilters(t, records, size, cap, drop);
      records := slice[..kept];
    }

    // encodeWithinCapacity (file_store.go:355-375): a failure returns nothing.
    method EncodeWithinCapacity(size: seq<Record> -> nat, cap: nat) returns (ok: bool, dropped: seq<Record>)
      requires UniqueKeys(records)
      modifies this
      ensures UniqueKeys(records)
      ensures var o := Compacted(old(records), size, cap);
              ok == o.ok && records == o.kept && dropped == if ok then o.dropped else []
    {
      hide Compacted, Without, Only, Round, Sorted, UniqueKeys;
      dropped := [];
      PrependNothing(Compacted(records, size, cap));
      while true
        invariant UniqueKeys(records)
        invariant Compacted(old(records), size, cap) == Prepend(dropped, Compacted(records, size, cap))
        decreases |records|
      {
        ghost var before := records;
        var encoded := size(records);
        CompactedStep(before, size, cap);
        if encoded <= cap { return true, dropped; }
        var removed := CompactOldest(Tombstones, encoded, cap);
        if removed == [] {
          removed := CompactOldest(Completed, encoded, cap);
          if removed == [] { return false, []; }
          PrependTwice(dropped, removed, Compacted(records, size, cap));
          dropped := dropped + removed;
        }
      }
    }
  }

  // What filtering by the round's positions leaves and removes.
  lemma RoundFilters(t: Tier, records: seq<Record>, size: nat, cap: nat, drop: set<int>)
    requires UniqueKeys(records) && size > cap && Sorted(t, records) != []
    requires forall j :: 0 <= j < |records| ==> (j in drop <==> KeyOf(records[j]) in Round(t, records, size, cap))
    ensures var gone := Round(t, records, size, cap);
            && KeptAt(records, drop, |records|) == Without(records, gone)
            && RemovedAt(records, drop, |records|) == Only(records, gone)
            && UniqueKeys(Without(records, gone)) && |Without(records, gone)| < |records| && Only(records, gone) != []
  {
    hide Sorted, Without, Only, KeptAt, RemovedAt;
    var gone := Round(t, records, size, cap);
    FilterByPosition(records, gone, drop, |records|);
    assert records[..|records|] == records;
    WithoutUnique(records, gone);
    RoundShrinks(t, records, size, cap);
    var sorted := Sorted(t, records);
    assert sorted[0] in sorted && sorted[0] in sorted[..DropCount(size, cap, |records|, |sorted|)];
    SplitMembers(records, gone);
    assert sorted[0] in Only(records, gone);
  }

  function Prepend(dropped: seq<Record>, o: Outcome): Outcome {
    o.(dropped := dropped + o.dropped)
  }

  lemma PrependNothing(o: Outcome)
    ensures Prepend([], o) == o
  {
  }

  lemma PrependTwice(first: seq<Record>, second: seq<Record>, o: Outcome)
    ensures Prepend(first, Prepend(second, o)) == Prepend(first + second, o)
  {
  }

  lemma CompactedStep(records: seq<Record>, size: seq<Record> -> nat, cap: nat)
    ensures var n := size(records);
            Compacted(records, size, cap)
              == if n <= cap then Outcome(true, records, [])
                 else if Sorted(Tombstones, records) != []
                      then Compacted(Without(records, Round(Tombstones, records, n, cap)), size, cap)
                 else if Sorted(Completed, records) != []
                      then var gone := Round(Completed, records, n, cap);
                           Prepend(Only(records, gone), Compacted(Without(records, gone), size, cap))
                 else Outcome(false, records, [])
  {
  }
}
