/** The job index (internal/jobindex/file_store.go): a list of records kept
    with a key index, and the map it stands for. */
module JobIndex {
  import opened JobRecords

  type Key = (string, string)

  function KeyOf(r: Record): Key {
    (r.poolId, r.runnerName)
  }

  function PatchKey(p: Patch): Key {
    (p.poolId, p.runnerName)
  }

  // ----- The list and its map ---------------------------------------------

  ghost predicate UniqueKeys(records: seq<Record>) {
    forall i, j :: 0 <= i < j < |records| ==> KeyOf(records[i]) != KeyOf(records[j])
  }

  // Loaded catalogs pass Validate: keys are unique and complete.
  ghost predicate Keyed(records: seq<Record>) {
    UniqueKeys(records) && forall i :: 0 <= i < |records| ==> records[i].poolId != ""
  }

  function AsMap(records: seq<Record>): map<Key, Record> {
    if records == [] then map[]
    else AsMap(records[..|records| - 1])[KeyOf(records[|records| - 1]) := records[|records| - 1]]
  }

  ghost predicate Agrees(index: map<Key, int>, records: seq<Record>) {
    && (forall k :: k in index ==> 0 <= index[k] < |records| && KeyOf(records[index[k]]) == k)
    && (forall i :: 0 <= i < |records| ==> KeyOf(records[i]) in index && index[KeyOf(records[i])] == i)
  }

  lemma {:induction false} AsMapAt(records: seq<Record>, i: nat)
    requires UniqueKeys(records) && i < |records|
    ensures KeyOf(records[i]) in AsMap(records) && AsMap(records)[KeyOf(records[i])] == records[i]
  {
    var n := |records| - 1;
    if i < n {
      AsMapAt(records[..n], i);
      assert KeyOf(records[i]) != KeyOf(records[n]);
    }
  }

  lemma {:induction false} AsMapFrom(records: seq<Record>, k: Key) returns (i: nat)
    requires k in AsMap(records)
    ensures i < |records| && KeyOf(records[i]) == k
  {
    var n := |records| - 1;
    if KeyOf(records[n]) == k {
      i := n;
    } else {
      i := AsMapFrom(records[..n], k);
    }
  }

  lemma {:induction false} AsMapUpdate(records: seq<Record>, i: nat, r: Record)
    requires UniqueKeys(records) && i < |records| && KeyOf(r) == KeyOf(records[i])
    ensures AsMap(records[i := r]) == AsMap(records)[KeyOf(r) := r]
  {
    var n := |records| - 1;
    if i < n {
      AsMapUpdate(records[..n], i, r);
      assert records[i := r][..n] == records[..n][i := r];
      assert KeyOf(records[n]) != KeyOf(r);
    } else {
      assert records[i := r][..n] == records[..n];
    }
  }

  lemma AsMapAppend(records: seq<Record>, r: Record)
    ensures AsMap(records + [r]) == AsMap(records)[KeyOf(r) := r]
  {
    assert (records + [r])[..|records|] == records;
  }

  // ----- The reference: a fold of Merge over a map ------------------------

  function Existing(m: map<Key, Record>, k: Key): Record {
    if k in m then m[k] else EMPTY
  }

  function UpsertOne(m: map<Key, Record>, p: Patch, now: int): map<Key, Record> {
    var merged := Merge(Existing(m, PatchKey(p)), p, now);
    if merged.Merged? then m[PatchKey(p) := merged.record] else m
  }

  function UpsertAll(m: map<Key, Record>, patches: seq<Patch>, now: int): map<Key, Record> {
    if patches == [] then m
    else UpsertOne(UpsertAll(m, patches[..|patches| - 1], now), patches[|patches| - 1], now)
  }

  lemma MergeKeys(e: Record, p: Patch, now: int)
    requires Merge(e, p, now).Merged? && (e == EMPTY || KeyOf(e) == PatchKey(p))
    ensures KeyOf(Merge(e, p, now).record) == PatchKey(p) && p.poolId != ""
  {
  }

  // ----- UpsertMany -------------------------------------------------------

  // The index is built once (file_store.go:180-183).
  method BuildIndex(records: seq<Record>) returns (index: map<Key, int>)
    requires UniqueKeys(records)
    ensures Agrees(index, records)
  {
    index := map[];
    var i := 0;
    while i < |records|
      invariant 0 <= i <= |records|
      invariant forall k :: k in index ==> 0 <= index[k] < i && KeyOf(records[index[k]]) == k
      invariant forall j :: 0 <= j < i ==> KeyOf(records[j]) in index && index[KeyOf(records[j])] == j
    {
      index := index[KeyOf(records[i]) := i];
      i := i + 1;
    }
  }

  lemma Lookup(records: seq<Record>, index: map<Key, int>, k: Key)
    requires UniqueKeys(records) && Agrees(index, records)
    ensures Existing(AsMap(records), k) == if k in index then records[index[k]] else EMPTY
    ensures k in index <==> k in AsMap(records)
  {
    hide AsMap;
    if k in index { AsMapAt(records, index[k]); }
    if k in AsMap(records) {
      var i := AsMapFrom(records, k);
    }
  }

  lemma ReplaceKeeps(records: seq<Record>, index: map<Key, int>, i: nat, r: Record)
    requires Keyed(records) && Agrees(index, records)
    requires i < |records| && KeyOf(r) == KeyOf(records[i])
    ensures Keyed(records[i := r]) && Agrees(index, records[i := r])
  {
  }

  lemma AppendKeeps(records: seq<Record>, index: map<Key, int>, r: Record)
    requires Keyed(records) && Agrees(index, records) && KeyOf(r) !in index && r.poolId != ""
    ensures Keyed(records + [r]) && Agrees(index[KeyOf(r) := |records|], records + [r])
  {
    forall i | 0 <= i < |records|
      ensures KeyOf(records[i]) != KeyOf(r)
    {
      assert KeyOf(records[i]) in index;
    }
  }

  // One patch of the loop: the list and the index move together.
  method UpsertPatch(records: seq<Record>, index: map<Key, int>, p: Patch, now: int)
    returns (after: seq<Record>, next: map<Key, int>, result: Merging, changed: bool)
    requires Keyed(records) && Agrees(index, records)
    ensures Keyed(after) && Agrees(next, after)
    ensures result == Merge(Existing(AsMap(records), PatchKey(p)), p, now)
    ensures AsMap(after) == UpsertOne(AsMap(records), p, now)
    ensures changed <==> after != records
  {
    hide Merge, AsMap;
    var key := PatchKey(p);
    Lookup(records, index, key);
    var found, current := key in index, EMPTY;
    if found { current := records[index[key]]; }
    result := Merge(current, p, now);
    if result.Rejected? { return records, index, result, false; }
    var merged := result.record;
    MergeKeys(current, p, now);
    if found && merged == current {
      return records, index, result, false;
    }
    changed := true;
    if found {
      AsMapUpdate(records, index[key], merged);
      ReplaceKeeps(records, index, index[key], merged);
      after, next := records[index[key] := merged], index;
      assert after[index[key]] != records[index[key]];
    } else {
      AsMapAppend(records, merged);
      AppendKeeps(records, index, merged);
      after, next := records + [merged], index[key := |records|];
    }
  }

  // What the i-th patch merges to, after the patches before it.
  function ResultAt(m: map<Key, Record>, patches: seq<Patch>, now: int, i: nat): Merging
    requires i < |patches|
  {
    Merge(Existing(UpsertAll(m, patches[..i], now), PatchKey(patches[i])), patches[i], now)
  }

  lemma UpsertNext(m: map<Key, Record>, patches: seq<Patch>, now: int, i: nat)
    requires i < |patches|
    ensures UpsertAll(m, patches[..i + 1], now) == UpsertOne(UpsertAll(m, patches[..i], now), patches[i], now)
  {
    assert patches[..i + 1][..i] == patches[..i];
  }

  // UpsertMany up to the save: the list it is about to sort and encode is the
  // left-to-right fold of Merge, failing patches skipped, and nothing is saved
  // when the fold changed nothing.
  method UpsertMany(records: seq<Record>, patches: seq<Patch>, now: int)
    returns (after: seq<Record>, results: seq<Merging>, changed: bool)
    requires Keyed(records)
    ensures Keyed(after)
    ensures AsMap(after) == UpsertAll(AsMap(records), patches, now)
    ensures |results| == |patches|
    ensures forall i :: 0 <= i < |patches| ==> results[i] == ResultAt(AsMap(records), patches, now, i)
    ensures !changed ==> after == records
  {
    hide Merge, AsMap, UpsertOne, Keyed, Agrees;
    KeyedUnique(records);
    var index := BuildIndex(records);
    after, results, changed := records, [], false;
    var i := 0;
    while i < |patches|
      invariant 0 <= i <= |patches| && |results| == i
      invariant Keyed(after) && Agrees(index, after)
      invariant AsMap(after) == UpsertAll(AsMap(records), patches[..i], now)
      invariant forall j :: 0 <= j < i ==> results[j] == ResultAt(AsMap(records), patches, now, j)
      invariant !changed ==> after == records
    {
      var result, moved;
      UpsertNext(AsMap(records), patches, now, i);
      after, index, result, moved := UpsertPatch(after, index, patches[i], now);
      results := results + [result];
      changed := changed || moved;
      i := i + 1;
    }
    assert patches[..i] == patches;
  }

  lemma KeyedUnique(records: seq<Record>)
    requires Keyed(records)
    ensures UniqueKeys(records)
  {
  }

  // ----- Laws of the fold -------------------------------------------------

  // A patch the fold merged, that takes no side on openness, is still absorbed
  // when the fold is done: upserting it again changes nothing.
  lemma {:induction false} UpsertAbsorbed(m: map<Key, Record>, patches: seq<Patch>, now: int, i: nat)
    requires i < |patches| && patches[i].open.None?
    requires ResultAt(m, patches, now, i).Merged?
    ensures PatchKey(patches[i]) in UpsertAll(m, patches, now)
    ensures Absorbed(UpsertAll(m, patches, now)[PatchKey(patches[i])], patches[i])
    decreases |patches|
  {
    hide Merge, Absorbed, Complete;
    var n := |patches| - 1;
    var before := UpsertAll(m, patches[..n], now);
    if i == n {
      assert patches[..i] == patches[..n];
      MergeAbsorbs(Existing(before, PatchKey(patches[n])), patches[n], now);
    } else {
      assert patches[..n][..i] == patches[..i];
      UpsertAbsorbed(m, patches[..n], now, i);
      var k := PatchKey(patches[i]);
      if PatchKey(patches[n]) == k && Merge(before[k], patches[n], now).Merged? {
        AbsorbedStays(before[k], patches[i], patches[n], now);
      }
    }
  }

  // Every entry is filed under its own, nonempty key.
  ghost predicate Complete(m: map<Key, Record>) {
    forall k :: k in m ==> KeyOf(m[k]) == k && m[k].poolId != ""
  }

  lemma {:induction false} UpsertComplete(m: map<Key, Record>, patches: seq<Patch>, now: int)
    requires Complete(m)
    ensures Complete(UpsertAll(m, patches, now))
  {
    if patches != [] {
      var n := |patches| - 1;
      UpsertComplete(m, patches[..n], now);
      var before := UpsertAll(m, patches[..n], now);
      var e := Existing(before, PatchKey(patches[n]));
      if Merge(e, patches[n], now).Merged? { MergeKeys(e, patches[n], now); }
    }
  }
}
