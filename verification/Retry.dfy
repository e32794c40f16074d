/** Bounded retries with jittered exponential backoff
    (internal/controller/retry.go:14-110). Durations are nanoseconds; the
    backoff is computed over exact reals. */
module Retry {
  import opened Basics

  const SECOND := 1_000_000_000

  datatype Policy = Policy(
    initial: int, maximum: int, multiplier: real, jitterRatio: real, maxAttempts: int, jitters: bool)
  {
    predicate Valid() {
      && initial > 0 && maximum >= initial && multiplier >= 1.0
      && 0.0 <= jitterRatio <= 1.0 && maxAttempts > 0
    }

    // The longest wait jitter can make of the maximum (internal/app/controller_main.go:289-294).
    function MaxJittered(): int {
      maximum + (maximum as real * jitterRatio).Floor
    }
  }

  // ----- The backoff ------------------------------------------------------

  function Capped(x: real, p: Policy): real {
    if x >= p.maximum as real then p.maximum as real else x
  }

  function Next(p: Policy, delay: real): real {
    Capped(delay * p.multiplier, p)
  }

  // The delay after k growths.
  function Grown(p: Policy, k: nat): real {
    if k == 0 then p.initial as real else Next(p, Grown(p, k - 1))
  }

  lemma NextBounds(p: Policy, delay: real)
    requires p.Valid() && 1.0 <= delay <= p.maximum as real
    ensures delay <= Next(p, delay) <= p.maximum as real
  {
    ProductGrows(delay, p.multiplier);
  }

  lemma {:induction false} GrownBounds(p: Policy, k: nat)
    requires p.Valid()
    ensures 1.0 <= Grown(p, k) <= p.maximum as real
  {
    hide Next;
    if k > 0 {
      GrownBounds(p, k - 1);
      NextBounds(p, Grown(p, k - 1));
    }
  }

  lemma ProductGrows(x: real, m: real)
    requires x >= 0.0 && m >= 1.0
    ensures x * m >= x
  {
    assert x * m - x == x * (m - 1.0);
  }

  // At the maximum the delay stops growing.
  lemma {:induction false} GrownStays(p: Policy, j: nat, k: nat)
    requires p.Valid() && j <= k && Grown(p, j) == p.maximum as real
    ensures Grown(p, k) == p.maximum as real
    decreases k
  {
    hide Next;
    if j < k {
      GrownStays(p, j, k - 1);
      NextBounds(p, p.maximum as real);
    }
  }

  const BUCKETS := 1_000_001

  // The draw is None if the random source failed.
  function CryptoJitter(base: int, ratio: real, draw: Option<nat>): int {
    if draw.None? then base
    else
      var unit := (draw.value as real) / ((BUCKETS - 1) as real) * 2.0 - 1.0;
      var result := (base as real * (1.0 + unit * ratio)).Floor;
      if result <= 0 then 1 else result
  }

  lemma JitterBounded(base: int, maximum: int, ratio: real, draw: Option<nat>)
    requires 1 <= base <= maximum && 0.0 <= ratio <= 1.0 && (draw.Some? ==> draw.value < BUCKETS)
    ensures 1 <= CryptoJitter(base, ratio, draw) <= maximum + (maximum as real * ratio).Floor
  {
    var b, m := base as real, maximum as real;
    ProductMonotone(0.0, m, ratio);
    FloorMonotone(0.0, m * ratio);
    if draw.Some? {
      var unit := (draw.value as real) / ((BUCKETS - 1) as real) * 2.0 - 1.0;
      JitteredProduct(b, m, ratio, unit);
      FloorMonotone(b * (1.0 + unit * ratio), m + m * ratio);
      FloorShift(maximum, m * ratio);
    }
  }

  lemma JitteredProduct(b: real, m: real, ratio: real, unit: real)
    requires 0.0 <= b <= m && 0.0 <= ratio && unit <= 1.0
    ensures b * (1.0 + unit * ratio) <= m + m * ratio
  {
    ProductMonotone(unit, 1.0, ratio);
    ProductMonotone(1.0 + unit * ratio, 1.0 + ratio, b);
    ProductMonotone(b, m, 1.0 + ratio);
  }

  lemma FloorShift(n: int, x: real)
    ensures (n as real + x).Floor == n + x.Floor
  {
  }

  lemma ProductMonotone(x: real, y: real, k: real)
    requires x <= y && k >= 0.0
    ensures x * k <= y * k
  {
    assert y * k - x * k == (y - x) * k;
  }

  lemma FloorMonotone(x: real, y: real)
    requires x <= y
    ensures x.Floor <= y.Floor
  {
  }

  lemma MaxJitteredAtLeast(p: Policy)
    requires p.Valid()
    ensures p.MaxJittered() >= p.maximum
  {
    ProductMonotone(0.0, p.maximum as real, p.jitterRatio);
    FloorMonotone(0.0, p.maximum as real * p.jitterRatio);
  }

  // A failed attempt: whether it may be retried, and the server's Retry-After
  // in seconds (0 for none).
  datatype Failure = Failure(retryable: bool, retryAfter: int)

  method Grow(p: Policy, delay: real) returns (next: real, capped: bool)
    ensures next == Next(p, delay)
    ensures capped ==> next == p.maximum as real
  {
    next := delay * p.multiplier;
    capped := next >= p.maximum as real;
    if capped { next := p.maximum as real; }
  }

  method GrowDelay(p: Policy, attempt: int) returns (delay: real)
    requires p.Valid() && attempt >= 1
    ensures delay == Grown(p, attempt - 1)
  {
    hide Next;
    delay := p.initial as real;
    var i := 1;
    while i < attempt
      invariant 1 <= i <= attempt
      invariant delay == Grown(p, i - 1)
    {
      var capped;
      delay, capped := Grow(p, delay);
      if capped {
        GrownStays(p, i, attempt - 1);
        break;
      }
      i := i + 1;
    }
  }

  method CappedRetryAfter(maximum: int, seconds: int) returns (wait: int)
    requires maximum > 0
    ensures wait == Min(maximum, seconds * SECOND)
  {
    wait := maximum;
    if seconds <= maximum / SECOND { wait := seconds * SECOND; }
  }

  /** A wait is never longer than the jittered maximum, and never shorter than
      the server asked, up to the maximum. */
  method Delay(p: Policy, attempt: int, failure: Failure, draw: Option<nat>) returns (base: int)
    requires p.Valid() && attempt >= 1 && (draw.Some? ==> draw.value < BUCKETS)
    ensures 1 <= base <= p.MaxJittered()
    ensures failure.retryAfter > 0 ==> base >= Min(p.maximum, failure.retryAfter * SECOND)
  {
    hide CryptoJitter;
    var delay := GrowDelay(p, attempt);
    GrownBounds(p, attempt - 1);
    base := delay.Floor;
    if base > p.maximum { base := p.maximum; }
    MaxJitteredAtLeast(p);
    if p.jitters && p.jitterRatio > 0.0 {
      JitterBounded(base, p.maximum, p.jitterRatio, draw);
      base := CryptoJitter(base, p.jitterRatio, draw);
    }
    if failure.retryAfter > 0 {
      var retryAfter := CappedRetryAfter(p.maximum, failure.retryAfter);
      if retryAfter > base { base := retryAfter; }
    }
  }

  // ----- The retry loop ---------------------------------------------------

  // What happens at one attempt: the context may be over before it, the call
  // lasts some time and succeeds or fails, and the wait after it may be cut.
  datatype Attempt = Attempt(
    cancelled: bool, lasts: nat, ok: bool, failure: Failure, draw: Option<nat>, cutShort: Option<nat>)
  {
    predicate Drawn() { draw.Some? ==> draw.value < BUCKETS }

    // The loop goes on to the next attempt.
    predicate Retried() { !cancelled && !ok && failure.retryable && cutShort.None? }
  }

  datatype Outcome = Invalid | Cancelled | Succeeded | GaveUp

  /** A run makes at most maxAttempts calls; it returns the first success that
      only retried failures precede, and if no call outlasts the request timeout
      it ends within the calls made times request timeout plus longest wait. */
  method RetryValue(p: Policy, world: nat -> Attempt, ghost request: nat)
    returns (outcome: Outcome, calls: nat, elapsed: nat)
    requires forall i: nat :: world(i).Drawn()
    ensures outcome.Invalid? <==> !p.Valid()
    ensures outcome.Invalid? ==> calls == 0
    ensures calls <= Max(p.maxAttempts, 0)
    ensures forall i: nat :: 1 <= i < calls ==> world(i).Retried()
    ensures outcome.Succeeded? <==> p.Valid() && calls >= 1 && !world(calls).cancelled && world(calls).ok
    ensures outcome.GaveUp? ==>
              calls >= 1 && !world(calls).ok && (calls == p.maxAttempts || !world(calls).failure.retryable)
    ensures (forall i: nat :: world(i).lasts <= request) ==> elapsed <= calls * (request + Max(p.MaxJittered(), 0))
  {
    calls, elapsed := 0, 0;
    if !p.Valid() { return Invalid, 0, 0; }
    ghost var unit := request + p.MaxJittered();
    MaxJitteredAtLeast(p);
    var attempt := 1;
    while attempt <= p.maxAttempts
      invariant 1 <= attempt <= p.maxAttempts && calls == attempt - 1
      invariant forall i: nat :: 1 <= i < attempt ==> world(i).Retried()
      invariant (forall i: nat :: world(i).lasts <= request) ==> elapsed <= calls * unit
    {
      var a := world(attempt);
      if a.cancelled { return Cancelled, calls, elapsed; }
      Distribute(calls, 1, unit);
      calls, elapsed := attempt, elapsed + a.lasts;
      if a.ok { return Succeeded, calls, elapsed; }
      if attempt == p.maxAttempts || !a.failure.retryable { return GaveUp, calls, elapsed; }
      var delay := Delay(p, attempt, a.failure, a.draw);
      if a.cutShort.Some? { return Cancelled, calls, elapsed + Min(a.cutShort.value, delay); }
      elapsed := elapsed + delay;
      attempt := attempt + 1;
    }
    assert false;
  }
}
