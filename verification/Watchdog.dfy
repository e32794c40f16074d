/** The deadline of one reconcile Step (internal/app/controller_main.go:221-343):
    a worst-case sum in 64-bit integers that saturate. */
module Watchdog {
  import opened Basics
  import opened Retry

  // ----- 64-bit arithmetic ------------------------------------------------

  const TWO_63: int := 0x8000_0000_0000_0000

  predicate Int64(x: int) {
    -TWO_63 <= x <= MAX_INT
  }

  // What an int64 operation yields for an exact result.
  function Signed(x: int): (r: int)
    ensures Int64(r)
    ensures Int64(x) ==> r == x
    ensures x > MAX_INT ==> r < x
  {
    (x + TWO_63) % TWO_64 - TWO_63
  }

  // Go division truncates toward zero.
  function Quotient(a: int, b: int): int
    requires b > 0
  {
    if a >= 0 then a / b else -((-a) / b)
  }

  function Clamp(x: int): int {
    Min(x, MAX_INT)
  }

  // saturatingMulInt.
  function SaturatingMul(left: int, right: int): int {
    if left <= 0 || right <= 0 then 0
    else
      var product := Signed(left * right);
      if Quotient(product, left) != right then MAX_INT else product
  }

  // saturatingAddInt and saturatingAddDuration.
  function SaturatingAdd(left: int, right: int): int {
    if left < 0 || right < 0 then 0
    else
      var sum := Signed(left + right);
      if sum < left then MAX_INT else sum
  }

  // saturatingScaleDuration.
  function SaturatingScale(unit: int, count: int): int {
    if unit <= 0 || count <= 0 then 0
    else if unit > MAX_INT / count then MAX_INT
    else Signed(unit * count)
  }

  lemma QuotientOfProduct(left: int, right: int)
    requires left > 0 && right > 0
    ensures Quotient(left * right, left) == right
  {
    assert left * right >= 0;
    DivisionExact(left, right);
  }

  lemma CancelLess(x: int, y: int, k: int)
    requires k > 0 && x * k < y * k
    ensures x < y
  {
  }

  lemma DivisionExact(left: int, right: int)
    requires left > 0
    ensures left * right / left == right
  {
    var q := left * right / left;
    assert left * right == q * left + left * right % left;
    Distribute(q, 1, left);
    CancelLess(right, q + 1, left);
    Distribute(right, 1, left);
    CancelLess(q, right + 1, left);
  }

  lemma QuotientBelow(p: int, left: int, right: int)
    requires left > 0 && right > 0 && p < left * right
    ensures Quotient(p, left) != right
  {
    if p >= 0 {
      assert p == (p / left) * left + p % left;
      CancelLess(p / left, right, left);
    }
  }

  // The division test catches every overflow.
  lemma SaturatingMulClamps(left: int, right: int)
    requires 0 <= left <= MAX_INT && 0 <= right <= MAX_INT
    ensures SaturatingMul(left, right) == Clamp(left * right)
  {
    hide Quotient, Signed;
    if left > 0 && right > 0 {
      if left * right <= MAX_INT {
        QuotientOfProduct(left, right);
        assert left * right > 0;
      } else {
        QuotientBelow(Signed(left * right), left, right);
      }
    }
  }

  lemma SaturatingAddClamps(left: int, right: int)
    requires 0 <= left <= MAX_INT && 0 <= right <= MAX_INT
    ensures SaturatingAdd(left, right) == Clamp(left + right)
  {
  }

  lemma SaturatingScaleClamps(unit: int, count: int)
    requires 0 <= unit <= MAX_INT && 0 <= count <= MAX_INT
    ensures SaturatingScale(unit, count) == Clamp(unit * count)
  {
    hide Signed;
    if unit > 0 && count > 0 {
      if unit > MAX_INT / count {
        ProductOrder(MAX_INT / count + 1, unit, count);
        assert MAX_INT == count * (MAX_INT / count) + MAX_INT % count;
        Distribute(MAX_INT / count, 1, count);
      } else {
        ProductOrder(unit, MAX_INT / count, count);
        assert MAX_INT == count * (MAX_INT / count) + MAX_INT % count;
        assert unit * count > 0;
      }
    }
  }

  lemma ProductOrder(x: int, y: int, k: int)
    requires x <= y && k >= 0
    ensures x * k <= y * k
  {
  }

  // ----- Clamping commutes with sums and products -------------------------

  lemma ClampedProduct(x: int, y: int)
    requires 0 <= x && 0 < y
    ensures Clamp(Clamp(x) * y) == Clamp(x * y)
  {
    if x > MAX_INT {
      ProductOrder(MAX_INT, x, y);
      ProductOrder(1, y, MAX_INT);
    }
  }

  // ----- The configuration ------------------------------------------------

  const MIN_RETRY_ATTEMPTS := 3
  const OPS_PER_TARGET := 4
  const JIT_OPS_PER_WORKER := 2
  const JIT_FLOOR_WORKERS := 64
  const RETIREMENT_OPS_PER_WORKER := 1
  const REGISTRATION_OPS_PER_WORKER := 1
  const IDLE_WAITS_PER_WORKER := 2
  const DESKTOP_START_ATTEMPTS := 2

  datatype Config = Config(
    retry: Policy, requestTimeout: int, targets: nat, workers: int,
    startTimeout: int, stopTimeout: int, pullTimeout: int, idleWindow: int)
  {
    // What loading the configuration checks (internal/config/config.go:588-602,
    // 668-670, 712-722), the 64-bit fields, and a target list that fits in memory.
    predicate Valid() {
      && retry.Valid() && requestTimeout > 0 && workers > 0
      && startTimeout > 0 && stopTimeout > 0 && pullTimeout >= 0 && idleWindow > 0
      && Int64(retry.maximum) && Int64(retry.maxAttempts) && Int64(requestTimeout) && Int64(workers)
      && Int64(startTimeout) && Int64(stopTimeout) && Int64(pullTimeout) && Int64(idleWindow)
      && Int64(OPS_PER_TARGET * targets)
    }

    function Attempts(): int { Max(retry.maxAttempts, MIN_RETRY_ATTEMPTS) }

    function StaticCap(): int { Max(workers, 1) }

    // One attempt and the longest wait after it.
    function ExactPerAttempt(): int { requestTimeout + retry.MaxJittered() }

    // The same as the code adds it up; SaturatingScale takes no negative unit.
    function Unit(): int { Max(Signed(requestTimeout + Signed(retry.MaxJittered())), 0) }
  }

  // ----- The code ---------------------------------------------------------

  function StepTimeout(c: Config, effective: int): int {
    var stepOps := OPS_PER_TARGET * Max(c.targets, 1);
    var jitOps := SaturatingMul(JIT_OPS_PER_WORKER, Max(effective, JIT_FLOOR_WORKERS));
    var retirementOps := RETIREMENT_OPS_PER_WORKER * c.StaticCap();
    var registrationOps := REGISTRATION_OPS_PER_WORKER * c.StaticCap();
    var totalOps := SaturatingAdd(stepOps, SaturatingAdd(jitOps, SaturatingAdd(retirementOps, registrationOps)));
    var units := SaturatingMul(totalOps, c.Attempts());
    var perAttempt := Signed(c.requestTimeout + Signed(c.retry.MaxJittered()));
    var retryBudget := SaturatingScale(perAttempt, units);
    var githubBudget := SaturatingAdd(retryBudget, retryBudget / 2);
    SaturatingAdd(SaturatingAdd(githubBudget, DesktopBudget(c)), IdleBudget(c))
  }

  function DesktopBudget(c: Config): int {
    SaturatingAdd(SaturatingAdd(SaturatingScale(c.startTimeout, DESKTOP_START_ATTEMPTS), c.stopTimeout), c.pullTimeout)
  }

  function IdleBudget(c: Config): int {
    SaturatingScale(c.idleWindow, SaturatingMul(IDLE_WAITS_PER_WORKER, c.StaticCap()))
  }

  // ----- The exact sum ----------------------------------------------------

  // The GitHub calls a Step may make.
  function ExactOps(c: Config, effective: int): int {
    OPS_PER_TARGET * Max(c.targets, 1) + JIT_OPS_PER_WORKER * Max(effective, JIT_FLOOR_WORKERS)
    + (RETIREMENT_OPS_PER_WORKER + REGISTRATION_OPS_PER_WORKER) * c.StaticCap()
  }

  // The retry budget, given what one attempt may take.
  function RetryBudget(c: Config, effective: int, unit: int): int {
    unit * (ExactOps(c, effective) * c.Attempts())
  }

  function ExactDesktop(c: Config): int {
    DESKTOP_START_ATTEMPTS * c.startTimeout + c.stopTimeout + c.pullTimeout
  }

  function ExactIdle(c: Config): int {
    c.idleWindow * (IDLE_WAITS_PER_WORKER * c.StaticCap())
  }

  function TimeoutWith(c: Config, effective: int, unit: int): int {
    var retry := RetryBudget(c, effective, unit);
    retry + retry / 2 + ExactDesktop(c) + ExactIdle(c)
  }

  function ExactTimeout(c: Config, effective: int): int {
    TimeoutWith(c, effective, c.ExactPerAttempt())
  }

  // The exact sum but for the attempt budget, which may have wrapped.
  function WrappedTimeout(c: Config, effective: int): int {
    TimeoutWith(c, effective, c.Unit())
  }

  lemma DesktopClamps(c: Config)
    requires c.Valid()
    ensures DesktopBudget(c) == Clamp(ExactDesktop(c))
  {
    hide Signed, SaturatingAdd, SaturatingScale;
    SaturatingScaleClamps(c.startTimeout, DESKTOP_START_ATTEMPTS);
    SaturatingAddClamps(Clamp(c.startTimeout * DESKTOP_START_ATTEMPTS), c.stopTimeout);
    SaturatingAddClamps(Clamp(c.startTimeout * DESKTOP_START_ATTEMPTS + c.stopTimeout), c.pullTimeout);
  }

  lemma IdleClamps(c: Config)
    requires c.Valid()
    ensures IdleBudget(c) == Clamp(ExactIdle(c))
  {
    hide Signed, SaturatingMul, SaturatingScale;
    var waits := IDLE_WAITS_PER_WORKER * c.StaticCap();
    SaturatingMulClamps(IDLE_WAITS_PER_WORKER, c.StaticCap());
    SaturatingScaleClamps(c.idleWindow, Clamp(waits));
    ClampedProduct(waits, c.idleWindow);
  }

  lemma OpsClamp(c: Config, effective: int)
    requires c.Valid() && Int64(effective)
    ensures SaturatingAdd(OPS_PER_TARGET * Max(c.targets, 1),
              SaturatingAdd(SaturatingMul(JIT_OPS_PER_WORKER, Max(effective, JIT_FLOOR_WORKERS)),
                SaturatingAdd(RETIREMENT_OPS_PER_WORKER * c.StaticCap(), REGISTRATION_OPS_PER_WORKER * c.StaticCap())))
            == Clamp(ExactOps(c, effective))
  {
    hide Signed, SaturatingAdd, SaturatingMul;
    var cap, jit := c.StaticCap(), JIT_OPS_PER_WORKER * Max(effective, JIT_FLOOR_WORKERS);
    SaturatingMulClamps(JIT_OPS_PER_WORKER, Max(effective, JIT_FLOOR_WORKERS));
    SaturatingAddClamps(cap, cap);
    SaturatingAddClamps(Clamp(jit), Clamp(cap + cap));
    SaturatingAddClamps(OPS_PER_TARGET * Max(c.targets, 1), Clamp(jit + cap + cap));
  }

  lemma RetryClamps(unit: int, ops: int, attempts: int)
    requires unit <= MAX_INT && 0 <= ops && 0 < attempts <= MAX_INT
    ensures SaturatingScale(unit, SaturatingMul(Clamp(ops), attempts)) == Clamp(Max(unit, 0) * (ops * attempts))
  {
    hide Signed, SaturatingMul;
    SaturatingMulClamps(Clamp(ops), attempts);
    ClampedProduct(ops, attempts);
    ProductOrder(0, ops, attempts);
    if 0 < unit {
      SaturatingScaleClamps(unit, Clamp(ops * attempts));
      ClampedProduct(ops * attempts, unit);
    }
  }

  lemma GithubClamps(retry: int)
    requires 0 <= retry
    ensures SaturatingAdd(Clamp(retry), Clamp(retry) / 2) == Clamp(retry + retry / 2)
  {
    hide Signed, SaturatingAdd;
    SaturatingAddClamps(Clamp(retry), Clamp(retry) / 2);
  }

  lemma PerAttemptExact(c: Config)
    requires c.Valid()
    ensures 0 < c.ExactPerAttempt()
    ensures c.ExactPerAttempt() <= MAX_INT ==> c.Unit() == c.ExactPerAttempt()
  {
    MaxJitteredAtLeast(c.retry);
  }

  // For every configuration the deadline is the clamped sum around the attempt
  // budget as it came out.
  lemma TimeoutWraps(c: Config, effective: int)
    requires c.Valid() && Int64(effective)
    ensures StepTimeout(c, effective) == Clamp(WrappedTimeout(c, effective))
  {
    hide Signed, SaturatingAdd, SaturatingMul, SaturatingScale, DesktopBudget, IdleBudget, ExactOps, ExactIdle,
      c.retry.MaxJittered;
    OpsClamp(c, effective);
    OpsPositive(c, effective);
    RetryClamps(Signed(c.requestTimeout + Signed(c.retry.MaxJittered())), ExactOps(c, effective), c.Attempts());
    var retry := RetryBudget(c, effective, c.Unit());
    RetryNonNegative(c, effective, c.Unit());
    GithubClamps(retry);
    DesktopClamps(c);
    IdleClamps(c);
    IdleNonNegative(c);
    SaturatingAddClamps(Clamp(retry + retry / 2), Clamp(ExactDesktop(c)));
    SaturatingAddClamps(Clamp(retry + retry / 2 + ExactDesktop(c)), Clamp(ExactIdle(c)));
  }

  // The attempt budget is a duration, or the deadline is the longest one anyway.
  ghost predicate Sufficient(c: Config, effective: int) {
    c.ExactPerAttempt() <= MAX_INT || WrappedTimeout(c, effective) >= MAX_INT
  }

  /** The deadline is the exact worst-case sum, clamped to the longest duration,
      if and only if one attempt's budget is itself a duration or the rest of the
      sum reaches the longest one without it. */
  lemma TimeoutExact(c: Config, effective: int)
    requires c.Valid() && Int64(effective)
    ensures StepTimeout(c, effective) == Clamp(ExactTimeout(c, effective)) <==> Sufficient(c, effective)
  {
    hide StepTimeout, ExactOps, ExactIdle, c.retry.MaxJittered, c.retry.Valid;
    TimeoutWraps(c, effective);
    PerAttemptExact(c);
    if c.ExactPerAttempt() > MAX_INT { OversizedTimeout(c, effective); }
  }

  lemma OversizedTimeout(c: Config, effective: int)
    requires c.Valid() && c.ExactPerAttempt() > MAX_INT
    ensures ExactTimeout(c, effective) > MAX_INT
  {
    hide ExactOps, ExactIdle, c.retry.MaxJittered, c.retry.Valid;
    OpsPositive(c, effective);
    IdleNonNegative(c);
    ProductOrder(1, ExactOps(c, effective), c.Attempts());
    ProductOrder(1, ExactOps(c, effective) * c.Attempts(), c.ExactPerAttempt());
  }

  lemma OpsPositive(c: Config, effective: int)
    requires c.Valid()
    ensures 0 < ExactOps(c, effective)
  {
  }

  lemma RetryNonNegative(c: Config, effective: int, unit: int)
    requires c.Valid() && 0 <= unit
    ensures 0 <= RetryBudget(c, effective, unit)
  {
    hide ExactOps;
    OpsPositive(c, effective);
    ProductOrder(0, ExactOps(c, effective), c.Attempts());
    ProductOrder(0, unit, ExactOps(c, effective) * c.Attempts());
  }

  lemma IdleNonNegative(c: Config)
    requires c.Valid()
    ensures 0 <= ExactIdle(c)
  {
    ProductOrder(0, c.idleWindow, IDLE_WAITS_PER_WORKER * c.StaticCap());
  }

  lemma OpsMonotone(c: Config, workers: int, low: int, high: int)
    requires c.workers <= workers && low <= high
    ensures ExactOps(c, low) <= ExactOps(c.(workers := workers), high)
  {
  }

  lemma RetryMonotone(c: Config, workers: int, low: int, high: int, unit: int)
    requires c.workers <= workers && low <= high && 0 <= unit && 0 < c.Attempts()
    ensures RetryBudget(c, low, unit) <= RetryBudget(c.(workers := workers), high, unit)
  {
    hide ExactOps;
    var d := c.(workers := workers);
    OpsMonotone(c, workers, low, high);
    ProductOrder(ExactOps(c, low), ExactOps(d, high), c.Attempts());
    ProductOrder(ExactOps(c, low) * c.Attempts(), ExactOps(d, high) * c.Attempts(), unit);
  }

  lemma IdleMonotone(c: Config, workers: int)
    requires c.workers <= workers && 0 <= c.idleWindow
    ensures ExactIdle(c) <= ExactIdle(c.(workers := workers))
  {
    ProductOrder(c.StaticCap(), Max(workers, 1), IDLE_WAITS_PER_WORKER);
    ProductOrder(IDLE_WAITS_PER_WORKER * c.StaticCap(), IDLE_WAITS_PER_WORKER * Max(workers, 1), c.idleWindow);
  }

  /** Raising either worker cap never shortens the deadline. */
  lemma TimeoutMonotone(c: Config, workers: int, low: int, high: int)
    requires c.Valid() && c.workers <= workers && Int64(workers)
    requires low <= high && Int64(low) && Int64(high)
    ensures StepTimeout(c, low) <= StepTimeout(c.(workers := workers), high)
  {
    hide StepTimeout, RetryBudget, ExactIdle, Signed, c.retry.MaxJittered, c.retry.Valid;
    TimeoutWraps(c, low);
    TimeoutWraps(c.(workers := workers), high);
    RetryMonotone(c, workers, low, high, c.Unit());
    IdleMonotone(c, workers);
  }

  lemma {:induction false} SumWithin(s: seq<int>, most: int)
    requires forall i :: 0 <= i < |s| ==> s[i] <= most
    ensures Sum(s) <= |s| * most
  {
    if s != [] {
      SumWithin(s[..|s| - 1], most);
      Distribute(|s| - 1, 1, most);
    }
  }

  // What a Step may legitimately spend: GitHub calls that each end within their
  // retry bound, Desktop and image waits, and idle confirmations.
  ghost predicate Legitimate(c: Config, effective: int, calls: seq<int>, desktop: int, waits: seq<int>) {
    && |calls| <= ExactOps(c, effective)
    && (forall i :: 0 <= i < |calls| ==> calls[i] <= c.retry.maxAttempts * c.ExactPerAttempt())
    && desktop <= ExactDesktop(c)
    && |waits| <= IDLE_WAITS_PER_WORKER * c.StaticCap()
    && (forall i :: 0 <= i < |waits| ==> waits[i] <= c.idleWindow)
  }

  ghost predicate NeverInterrupts(c: Config, effective: int) {
    forall calls, desktop, waits | Legitimate(c, effective, calls, desktop, waits) ::
      Clamp(Sum(calls) + desktop + Sum(waits)) <= StepTimeout(c, effective)
  }

  /** The deadline never interrupts a legitimate Step, up to the longest duration,
      if and only if it is the exact sum. */
  lemma CoversLegitimateStep(c: Config, effective: int)
    requires c.Valid() && Int64(effective)
    ensures NeverInterrupts(c, effective) <==> Sufficient(c, effective)
  {
    hide StepTimeout, Sufficient, ExactOps, Legitimate, ExactTimeout, Sum;
    TimeoutExact(c, effective);
    if Sufficient(c, effective) {
      forall calls, desktop, waits | Legitimate(c, effective, calls, desktop, waits)
        ensures Clamp(Sum(calls) + desktop + Sum(waits)) <= StepTimeout(c, effective)
      {
        LegitimateWithin(c, effective, calls, desktop, waits);
      }
    } else {
      LongCall(c, effective);
      var calls := [c.retry.maxAttempts * c.ExactPerAttempt()];
      assert Legitimate(c, effective, calls, 0, []);
    }
  }

  lemma LegitimateWithin(c: Config, effective: int, calls: seq<int>, desktop: int, waits: seq<int>)
    requires c.Valid() && Legitimate(c, effective, calls, desktop, waits)
    ensures Sum(calls) + desktop + Sum(waits) <= ExactTimeout(c, effective)
  {
    hide ExactOps, c.retry.MaxJittered, c.retry.Valid, Sum;
    PerAttemptExact(c);
    OpsPositive(c, effective);
    var unit := c.ExactPerAttempt();
    var most := c.Attempts() * unit;
    ProductOrder(c.retry.maxAttempts, c.Attempts(), unit);
    ProductOrder(0, c.Attempts(), unit);
    SumWithin(calls, most);
    ProductOrder(|calls|, ExactOps(c, effective), most);
    Associate(ExactOps(c, effective), c.Attempts(), unit);
    SumWithin(waits, c.idleWindow);
    ProductOrder(|waits|, IDLE_WAITS_PER_WORKER * c.StaticCap(), c.idleWindow);
    RetryNonNegative(c, effective, unit);
  }

  // One call that uses up its retries is enough to outlast a wrapped deadline.
  lemma LongCall(c: Config, effective: int)
    requires c.Valid() && Int64(effective) && !Sufficient(c, effective)
    ensures var calls := [c.retry.maxAttempts * c.ExactPerAttempt()];
            && Legitimate(c, effective, calls, 0, [])
            && Clamp(Sum(calls) + 0 + Sum([])) > StepTimeout(c, effective)
  {
    hide StepTimeout, ExactOps, WrappedTimeout, c.retry.MaxJittered;
    OpsPositive(c, effective);
    TimeoutWraps(c, effective);
    var call := c.retry.maxAttempts * c.ExactPerAttempt();
    ProductOrder(1, c.retry.maxAttempts, c.ExactPerAttempt());
    assert Sum([call]) == call && Sum([]) == 0;
  }

  lemma Associate(x: int, y: int, z: int)
    ensures x * (y * z) == z * (x * y)
  {
  }

  /** The condition matters: an attempt budget past the longest duration wraps,
      and the deadline loses the GitHub calls altogether. */
  lemma OversizedAttemptLosesBudget()
    ensures var policy := Policy(1, MAX_INT, 1.0, 0.0, 1, false);
            var c := Config(policy, 1, 1, 1, 1, 1, 0, 1);
            && c.Valid() && c.ExactPerAttempt() == MAX_INT + 1
            && StepTimeout(c, 1) == 5 < Clamp(ExactTimeout(c, 1)) == MAX_INT
  {
    var policy := Policy(1, MAX_INT, 1.0, 0.0, 1, false);
    var c := Config(policy, 1, 1, 1, 1, 1, 0, 1);
    assert policy.MaxJittered() == MAX_INT;
    assert Signed(MAX_INT + 1) < 0;
  }
}
