/** The workers a serving plan lists for removal (plan.go:383-451). */
module Departures {
  import opened Basics
  import opened FleetModel

  function TakeFirst(ws: seq<Worker>, n: int): (r: seq<Worker>)
    ensures |r| == Max(0, Min(n, |ws|))
  {
    ws[..Max(0, Min(n, |ws|))]
  }

  // One pool's removals: its gone workers, then its first nonbusy ones.
  function Departing(ws: seq<Worker>, drop: map<PoolId, int>, gone: bool, pool: PoolId): seq<Worker> {
    var mine := Select(ws, InPool(pool));
    (if gone then Select(mine, AreGone) else []) + TakeFirst(Select(mine, AreNonbusy), Get(drop, pool))
  }

  function AllDeparting(order: seq<PoolId>, ws: seq<Worker>, drop: map<PoolId, int>, gone: bool): seq<Worker> {
    if order == [] then []
    else AllDeparting(order[..|order| - 1], ws, drop, gone) + Departing(ws, drop, gone, order[|order| - 1])
  }

  // Gone workers of pools no target names; every other such worker stays.
  function Orphans(ws: seq<Worker>, known: seq<PoolId>): (r: seq<Worker>)
    ensures forall i :: 0 <= i < |r| ==> r[i].Gone() && r[i].pool !in known && r[i] in ws
  {
    if ws == [] then []
    else
      var w := ws[|ws| - 1];
      var rest := Orphans(ws[..|ws| - 1], known);
      if w.pool !in known && w.Gone() then rest + [w] else rest
  }

  lemma DepartingMembers(ws: seq<Worker>, drop: map<PoolId, int>, gone: bool, pool: PoolId)
    ensures var d := Departing(ws, drop, gone, pool);
            forall i :: 0 <= i < |d| ==> d[i].pool == pool && d[i] in ws && !d[i].state.Busy?
  {
    hide Select;
    var mine := Select(ws, InPool(pool));
    var d := Departing(ws, drop, gone, pool);
    SelectMembers(ws, InPool(pool));
    SelectMembers(mine, AreGone);
    SelectMembers(mine, AreNonbusy);
    forall i | 0 <= i < |d|
      ensures d[i].pool == pool && d[i] in ws && !d[i].state.Busy?
    {
      assert d[i] in Select(mine, AreGone) || d[i] in Select(mine, AreNonbusy);
    }
  }

  lemma DepartingFacts(ws: seq<Worker>, drop: map<PoolId, int>, gone: bool, pool: PoolId)
    ensures var d := Departing(ws, drop, gone, pool);
            && |Select(d, AreNonbusy)| == Max(0, Min(Get(drop, pool), CountIn(ws, pool, AreNonbusy)))
            && Select(d, AreBusy) == []
            && (gone ==> |Select(d, AreGone)| == CountIn(ws, pool, AreGone))
  {
    hide Select;
    var mine := Select(ws, InPool(pool));
    var out := if gone then Select(mine, AreGone) else [];
    var first := TakeFirst(Select(mine, AreNonbusy), Get(drop, pool));
    assert forall i :: 0 <= i < |out| ==> out[i].Gone();
    assert forall i :: 0 <= i < |first| ==> first[i].Nonbusy();
    SelectAppend(out, first, AreNonbusy);
    SelectAppend(out, first, AreBusy);
    SelectAppend(out, first, AreGone);
    SelectAll(first, AreNonbusy);
    SelectNone(out, AreNonbusy);
    SelectNone(out, AreBusy);
    SelectNone(first, AreBusy);
    SelectNone(first, AreGone);
    SelectAll(out, AreGone);
  }

  lemma DepartingPool(ws: seq<Worker>, drop: map<PoolId, int>, gone: bool, pool: PoolId, other: PoolId)
    ensures Select(Departing(ws, drop, gone, pool), InPool(other))
         == if pool == other then Departing(ws, drop, gone, pool) else []
  {
    hide Select, Departing;
    var d := Departing(ws, drop, gone, pool);
    DepartingMembers(ws, drop, gone, pool);
    if pool == other { SelectAll(d, InPool(other)); } else { SelectNone(d, InPool(other)); }
  }

  lemma AllDepartingLast(order: seq<PoolId>, ws: seq<Worker>, drop: map<PoolId, int>, gone: bool)
    requires order != []
    ensures AllDeparting(order, ws, drop, gone)
         == AllDeparting(order[..|order| - 1], ws, drop, gone) + Departing(ws, drop, gone, order[|order| - 1])
  {
    hide Departing;
  }

  lemma {:induction false} DepartingOf(order: seq<PoolId>, ws: seq<Worker>, drop: map<PoolId, int>, gone: bool,
                                       pool: PoolId)
    requires Distinct(order)
    ensures Select(AllDeparting(order, ws, drop, gone), InPool(pool))
         == if pool in order then Departing(ws, drop, gone, pool) else []
  {
    if order == [] {
      hide Departing;
    } else {
      hide Select, Departing, Distinct, AllDeparting;
      var n := |order| - 1;
      AllDepartingLast(order, ws, drop, gone);
      DistinctLast(order, pool);
      DepartingOf(order[..n], ws, drop, gone, pool);
      SelectAppend(AllDeparting(order[..n], ws, drop, gone), Departing(ws, drop, gone, order[n]), InPool(pool));
      DepartingPool(ws, drop, gone, order[n], pool);
    }
  }

  lemma {:induction false} NoneBusy(order: seq<PoolId>, ws: seq<Worker>, drop: map<PoolId, int>, gone: bool)
    ensures forall w :: w in AllDeparting(order, ws, drop, gone) ==> w in ws && !w.state.Busy?
  {
    if order != [] {
      hide Departing;
      NoneBusy(order[..|order| - 1], ws, drop, gone);
      DepartingMembers(ws, drop, gone, order[|order| - 1]);
    }
  }

  // The whole list: orphans, decided removals, then burst candidates let go.
  function Removals(ids: seq<PoolId>, ws: seq<Worker>, drop: map<PoolId, int>, burst: seq<PoolId>,
                    burstDrop: map<PoolId, int>)
    : seq<Worker>
  {
    Orphans(ws, ids) + AllDeparting(ids, ws, drop, true) + AllDeparting(burst, ws, burstDrop, false)
  }

  // A configured pool loses all its gone workers and as many nonbusy ones as
  // the two lists say; nobody busy is ever listed.
  lemma RemovalsCount(ids: seq<PoolId>, ws: seq<Worker>, drop: map<PoolId, int>, burst: seq<PoolId>,
                      burstDrop: map<PoolId, int>, pool: PoolId)
    requires Distinct(ids) && Distinct(burst) && pool in ids
    ensures var removed := Removals(ids, ws, drop, burst, burstDrop);
            var idle := CountIn(ws, pool, AreNonbusy);
            && CountIn(removed, pool, AreNonbusy)
                 == Max(0, Min(Get(drop, pool), idle))
                    + (if pool in burst then Max(0, Min(Get(burstDrop, pool), idle)) else 0)
            && CountIn(removed, pool, AreBusy) == 0
  {
    hide Select, Departing, AllDeparting, Orphans;
    var orphans, decided := Orphans(ws, ids), AllDeparting(ids, ws, drop, true);
    var bursts := AllDeparting(burst, ws, burstDrop, false);
    SelectAppend(orphans + decided, bursts, InPool(pool));
    SelectAppend(orphans, decided, InPool(pool));
    assert Select(orphans, InPool(pool)) == [] by { SelectNone(orphans, InPool(pool)); }
    DepartingOf(ids, ws, drop, true, pool);
    DepartingOf(burst, ws, burstDrop, false, pool);
    DepartingFacts(ws, drop, true, pool);
    DepartingFacts(ws, burstDrop, false, pool);
    var first := Departing(ws, drop, true, pool);
    var second := if pool in burst then Departing(ws, burstDrop, false, pool) else [];
    assert Select(Removals(ids, ws, drop, burst, burstDrop), InPool(pool)) == first + second;
    SelectAppend(first, second, AreNonbusy);
    SelectAppend(first, second, AreBusy);
    SelectNone([], AreNonbusy);
    SelectNone([], AreBusy);
  }

  lemma RemovalsNotBusy(ids: seq<PoolId>, ws: seq<Worker>, drop: map<PoolId, int>, burst: seq<PoolId>,
                        burstDrop: map<PoolId, int>)
    ensures forall w :: w in Removals(ids, ws, drop, burst, burstDrop) ==> w in ws && !w.state.Busy?
  {
    NoneBusy(ids, ws, drop, true);
    NoneBusy(burst, ws, burstDrop, false);
  }
}
