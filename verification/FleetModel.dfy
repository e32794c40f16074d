/** Workers and targets (internal/model/model.go, internal/config/config.go)
    and the order targets are served in. */
module FleetModel {
  import opened Basics

  type PoolId = string

  datatype WorkerState = Starting | Idle | Busy | Unregistered | Exited

  datatype Worker = Worker(
    id: string,
    pool: PoolId,
    name: string,
    state: WorkerState,
    jobId: string,
    runnerId: int,
    memoryLimit: int)
  {
    predicate Nonbusy() {
      state.Starting? || state.Idle?
    }

    predicate Active() {
      Nonbusy() || state.Busy?
    }

    predicate Gone() {
      state.Exited? || state.Unregistered?
    }
  }

  // ----- Selections from an inventory -------------------------------------

  datatype Filter = InPool(pool: PoolId) | AreBusy | AreNonbusy | AreActive | AreGone
  {
    predicate Matches(w: Worker) {
      match this
      case InPool(pool) => w.pool == pool
      case AreBusy => w.state.Busy?
      case AreNonbusy => w.Nonbusy()
      case AreActive => w.Active()
      case AreGone => w.Gone()
    }
  }

  function Select(ws: seq<Worker>, f: Filter): (r: seq<Worker>)
    ensures forall i :: 0 <= i < |r| ==> f.Matches(r[i])
  {
    if ws == [] then []
    else
      var rest := Select(ws[..|ws| - 1], f);
      if f.Matches(ws[|ws| - 1]) then rest + [ws[|ws| - 1]] else rest
  }

  lemma {:induction false} SelectMembers(ws: seq<Worker>, f: Filter)
    ensures forall w :: w in Select(ws, f) <==> w in ws && f.Matches(w)
  {
    if ws != [] {
      SelectMembers(ws[..|ws| - 1], f);
      assert ws == ws[..|ws| - 1] + [ws[|ws| - 1]];
    }
  }

  function CountIn(ws: seq<Worker>, pool: PoolId, f: Filter): nat {
    |Select(Select(ws, InPool(pool)), f)|
  }

  lemma {:induction false} SelectAppend(xs: seq<Worker>, ys: seq<Worker>, f: Filter)
    ensures Select(xs + ys, f) == Select(xs, f) + Select(ys, f)
  {
    if ys == [] {
      assert xs + ys == xs;
    } else {
      assert (xs + ys)[..|xs + ys| - 1] == xs + ys[..|ys| - 1];
      SelectAppend(xs, ys[..|ys| - 1], f);
    }
  }

  lemma {:induction false} SelectAll(ws: seq<Worker>, f: Filter)
    requires forall i :: 0 <= i < |ws| ==> f.Matches(ws[i])
    ensures Select(ws, f) == ws
  {
    if ws != [] { SelectAll(ws[..|ws| - 1], f); }
  }

  lemma {:induction false} SelectNone(ws: seq<Worker>, f: Filter)
    requires forall i :: 0 <= i < |ws| ==> !f.Matches(ws[i])
    ensures Select(ws, f) == []
  {
    if ws != [] { SelectNone(ws[..|ws| - 1], f); }
  }

  lemma {:induction false} ActiveSplits(ws: seq<Worker>)
    ensures |Select(ws, AreActive)| == |Select(ws, AreBusy)| + |Select(ws, AreNonbusy)|
  {
    if ws != [] { ActiveSplits(ws[..|ws| - 1]); }
  }

  function Counts(ws: seq<Worker>, ids: seq<PoolId>, f: Filter): (c: seq<int>)
    ensures |c| == |ids|
  {
    seq(|ids|, i requires 0 <= i < |ids| => CountIn(ws, ids[i], f))
  }

  ghost predicate Distinct<T(!new)>(s: seq<T>) {
    forall i, j :: 0 <= i < j < |s| ==> s[i] != s[j]
  }

  lemma SelectLast(ws: seq<Worker>, f: Filter)
    requires ws != []
    ensures |Select(ws, f)| == |Select(ws[..|ws| - 1], f)| + if f.Matches(ws[|ws| - 1]) then 1 else 0
  {
  }

  lemma CountInLast(ws: seq<Worker>, pool: PoolId, f: Filter)
    requires ws != []
    ensures var w := ws[|ws| - 1];
            CountIn(ws, pool, f) == CountIn(ws[..|ws| - 1], pool, f) + if w.pool == pool && f.Matches(w) then 1 else 0
  {
    var w := ws[|ws| - 1];
    var rest := Select(ws[..|ws| - 1], InPool(pool));
    assert (rest + [w])[..|rest|] == rest;
  }

  lemma DistinctLast<T(!new)>(s: seq<T>, x: T)
    requires Distinct(s) && s != []
    ensures Distinct(s[..|s| - 1])
    ensures x in s <==> x == s[|s| - 1] || x in s[..|s| - 1]
    ensures x == s[|s| - 1] ==> x !in s[..|s| - 1]
  {
    assert s == s[..|s| - 1] + [s[|s| - 1]];
  }

  lemma OneMore(before: seq<int>, after: seq<int>, ids: seq<PoolId>, pool: PoolId, hit: bool)
    requires Distinct(ids) && |before| == |after| == |ids|
    requires forall i :: 0 <= i < |ids| ==> after[i] == before[i] + if ids[i] == pool && hit then 1 else 0
    ensures Sum(after) <= Sum(before) + if hit then 1 else 0
  {
    if hit && pool in ids {
      var i :| 0 <= i < |ids| && ids[i] == pool;
      assert after == before[i := before[i] + 1];
      SumUpdate(before, i, before[i] + 1);
    } else {
      assert after == before;
    }
  }

  // Distinct pools share the inventory: their counts add up to no more than it.
  lemma {:induction false} CountsWithin(ws: seq<Worker>, ids: seq<PoolId>, f: Filter)
    requires Distinct(ids)
    ensures Sum(Counts(ws, ids, f)) <= |Select(ws, f)|
  {
    if ws == [] {
      SumZero(Counts(ws, ids, f));
    } else {
      hide CountIn, Sum, Select, Filter.Matches;
      var n, w := |ws| - 1, ws[|ws| - 1];
      SelectLast(ws, f);
      CountsWithin(ws[..n], ids, f);
      forall i | 0 <= i < |ids|
        ensures CountIn(ws, ids[i], f)
             == CountIn(ws[..n], ids[i], f) + if ids[i] == w.pool && f.Matches(w) then 1 else 0
      {
        CountInLast(ws, ids[i], f);
      }
      OneMore(Counts(ws[..n], ids, f), Counts(ws, ids, f), ids, w.pool, f.Matches(w));
    }
  }

  // ----- Targets ----------------------------------------------------------

  // workerMemory is the profile override, if the target has one.
  datatype Target = Target(id: PoolId, warmIdle: int, maxCapacity: int, priority: int, workerMemory: Option<nat>)
  {
    // EffectiveWorker(defaults).Memory
    function Memory(default_: nat): nat {
      if workerMemory.Some? then workerMemory.value else default_
    }
  }

  predicate Before(a: Target, b: Target) {
    a.priority < b.priority || (a.priority == b.priority && StringLess(a.id, b.id))
  }

  lemma BeforeSkips(a: Target, b: Target, c: Target)
    requires Before(a, b) && !Before(c, b)
    ensures Before(a, c) && !Before(b, a)
  {
    StringLessTrichotomy(a.id, b.id);
    StringLessTrichotomy(b.id, c.id);
    if b.id != c.id && StringLess(a.id, b.id) && StringLess(b.id, c.id) {
      StringLessTransitive(a.id, b.id, c.id);
    }
  }

  function Insert(t: Target, s: seq<Target>): (r: seq<Target>)
    ensures |r| == |s| + 1
    ensures forall x :: x in r <==> x == t || x in s
  {
    if s != [] && Before(t, s[|s| - 1]) then
      assert s == s[..|s| - 1] + [s[|s| - 1]];
      Insert(t, s[..|s| - 1]) + [s[|s| - 1]]
    else s + [t]
  }

  // sortedTargetsByPriority, as a stable insertion sort.
  function Sorted(targets: seq<Target>): (r: seq<Target>)
    ensures |r| == |targets|
    ensures forall x :: x in r <==> x in targets
  {
    if targets == [] then []
    else
      assert targets == targets[..|targets| - 1] + [targets[|targets| - 1]];
      Insert(targets[|targets| - 1], Sorted(targets[..|targets| - 1]))
  }

  ghost predicate InOrder(s: seq<Target>) {
    forall i, j :: 0 <= i < j < |s| ==> !Before(s[j], s[i])
  }

  ghost predicate DistinctIds(s: seq<Target>) {
    forall i, j :: 0 <= i < j < |s| ==> s[i].id != s[j].id
  }

  function Ids(targets: seq<Target>): (ids: seq<PoolId>)
    ensures |ids| == |targets|
    ensures forall i :: 0 <= i < |ids| ==> ids[i] == targets[i].id
    ensures DistinctIds(targets) ==> Distinct(ids)
  {
    seq(|targets|, i requires 0 <= i < |targets| => targets[i].id)
  }

  lemma {:induction false} InsertKeepsOrder(t: Target, s: seq<Target>)
    requires InOrder(s)
    ensures InOrder(Insert(t, s))
  {
    hide Before;
    var r, n := Insert(t, s), |s| - 1;
    if s != [] && Before(t, s[n]) {
      InsertKeepsOrder(t, s[..n]);
      assert !Before(s[n], s[n]) by { BeforeIrreflexive(s[n]); }
      BeforeSkips(t, s[n], s[n]);
      forall i | 0 <= i < n + 1
        ensures !Before(s[n], r[i])
      {
        assert r[i] == Insert(t, s[..n])[i] && r[i] in Insert(t, s[..n]);
      }
    } else {
      forall i | 0 <= i < |s|
        ensures !Before(t, s[i])
      {
        if Before(t, s[i]) && i < n { BeforeSkips(t, s[i], s[n]); }
      }
    }
  }

  lemma BeforeIrreflexive(t: Target)
    ensures !Before(t, t)
  {
    StringLessTrichotomy(t.id, t.id);
  }

  lemma {:induction false} InsertKeepsDistinct(t: Target, s: seq<Target>)
    requires DistinctIds(s) && forall i :: 0 <= i < |s| ==> s[i].id != t.id
    ensures DistinctIds(Insert(t, s))
  {
    hide Before;
    var r, n := Insert(t, s), |s| - 1;
    if s != [] && Before(t, s[n]) {
      InsertKeepsDistinct(t, s[..n]);
      forall i | 0 <= i < n + 1
        ensures r[i].id != s[n].id
      {
        assert r[i] == Insert(t, s[..n])[i] && r[i] in Insert(t, s[..n]);
      }
    }
  }

  lemma LastApart(targets: seq<Target>, x: Target)
    requires DistinctIds(targets) && targets != [] && x in targets[..|targets| - 1]
    ensures x.id != targets[|targets| - 1].id
  {
  }

  // Lower priority values come first, ties by ID, and no target is lost.
  lemma {:induction false} SortedInOrder(targets: seq<Target>)
    requires DistinctIds(targets)
    ensures InOrder(Sorted(targets)) && DistinctIds(Sorted(targets))
  {
    if targets == [] {
      assert InOrder([]);
    } else {
      hide Insert, InOrder, DistinctIds;
      var n := |targets| - 1;
      var rest := Sorted(targets[..n]);
      PrefixDistinct(targets);
      SortedInOrder(targets[..n]);
      forall i | 0 <= i < |rest|
        ensures rest[i].id != targets[n].id
      {
        assert rest[i] in rest;
        LastApart(targets, rest[i]);
      }
      InsertKeepsOrder(targets[n], rest);
      InsertKeepsDistinct(targets[n], rest);
    }
  }

  lemma PrefixDistinct(targets: seq<Target>)
    requires DistinctIds(targets) && targets != []
    ensures DistinctIds(targets[..|targets| - 1])
  {
  }
}
