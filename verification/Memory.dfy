/** How many workers a memory budget funds (plan.go, affordableWorkerCount and
    affordableWorkerCountWithMargin). */
module Memory {
  import opened Basics

  function Affordable(available: int, worker: nat): (slots: int)
    ensures 0 <= available ==> 0 <= slots && slots * worker <= available
    ensures slots <= MAX_INT
    // Short of the MaxInt clamp, one more worker would not fit.
    ensures 0 <= available && 0 < worker && slots < MAX_INT ==> available < (slots + 1) * worker
  {
    if worker == 0 then 0
    else
      assert available == available / worker * worker + available % worker;
      var slots := available / worker;
      if slots > MAX_INT then
        ScaleMonotone(MAX_INT, slots, worker);
        MAX_INT
      else
        assert (slots + 1) * worker == slots * worker + worker;
        slots
  }

  function AffordableWithMargin(available: int, worker: nat, margin: nat): (slots: int)
    ensures 0 <= slots <= MAX_INT
    ensures 0 < slots ==> slots * worker + margin <= available
    ensures 0 < worker && slots < MAX_INT ==> available < margin + (slots + 1) * worker
  {
    if worker == 0 || available <= margin then
      0
    else
      Affordable(available - margin, worker)
  }

  lemma ScaleMonotone(x: int, y: int, k: nat)
    requires x <= y
    ensures x * k <= y * k
  {
  }

  // A count is affordable exactly when its cost fits.
  lemma AffordsIffFits(available: nat, worker: nat, count: int)
    requires 0 < worker && 0 <= count <= MAX_INT
    ensures count <= Affordable(available, worker) <==> count * worker <= available
  {
    var slots := Affordable(available, worker);
    if count <= slots {
      ScaleMonotone(count, slots, worker);
    } else {
      ScaleMonotone(slots + 1, count, worker);
    }
  }
}
