/** Retries, backoff and rate limiting (src/limpiador/observability/retry.py), over
    reals.  Wall-clock time only moves forward, and a sleep lasts at least as long
    as asked. */
module Retry {

  /** The clock and the wait.  `lag(n)` is the extra time that passes at the `n`-th
      interaction; a clock with no lag moves only by the sleeps asked for. */
  class World {
    const lag: nat -> real
    var now: real
    var step: nat

    ghost predicate Valid()
      reads this
    {
      forall n :: lag(n) >= 0.0
    }

    ghost predicate Exact() {
      forall n :: lag(n) == 0.0
    }

    constructor (lag: nat -> real, start: real)
      ensures this.lag == lag && now == start
    {
      this.lag, now, step := lag, start, 0;
    }

    method Clock() returns (t: real)
      requires Valid()
      modifies this
      ensures Valid() && t == now == old(now) + lag(old(step)) >= old(now) && step == old(step) + 1
      ensures Exact() ==> now == old(now)
    {
      now := now + lag(step);
      step := step + 1;
      t := now;
    }

    method Sleep(duration: real)
      requires Valid() && duration >= 0.0
      modifies this
      ensures Valid() && now == old(now) + duration + lag(old(step)) >= old(now) + duration && step == old(step) + 1
      ensures Exact() ==> now == old(now) + duration
    {
      now := now + duration + lag(step);
      step := step + 1;
    }
  }

  function MinR(a: real, b: real): (m: real)
    ensures m <= a && m <= b && (m == a || m == b)
  {
    if a <= b then a else b
  }

  /** What a bucket holds some time after it held `tokens`. */
  ghost function Available(rate: real, capacity: real, tokens: real, elapsed: real): real {
    var accrued := tokens + rate * elapsed;
    if capacity <= accrued then capacity else accrued
  }

  /** How long an amount takes to accrue. */
  ghost function TimeFor(rate: real, amount: real): real
    requires rate > 0.0
  {
    amount / rate
  }

  function Refilled(rate: real, capacity: real, tokens: real, elapsed: real): real {
    MinR(capacity, tokens + elapsed * rate)
  }

  // ---- the token bucket --------------------------------------------------------------

  /** One acquisition: when it was granted, and the total spent before and after. */
  datatype Grant = Grant(at: real, before: real, after: real)

  class TokenBucket {
    const rate: real
    const capacity: real
    const world: World
    var tokens: real
    var last: real
    ghost var history: seq<Grant>
    ghost var spent: real

    /** Tokens are within [0, burst]; and from any past grant on, what was spent plus
        what is left is at most a burst plus what time has accrued since. */
    ghost predicate Valid()
      reads this, world
    {
      && world.Valid() && rate > 0.0 && capacity >= 0.0
      && 0.0 <= tokens <= capacity && last <= world.now
      && Accounted(rate, capacity, tokens, last, history, spent)
      && RateBound(rate, capacity, history)
      && Consecutive(history, spent)
    }

    constructor (rate: real, burst: nat, world: World)
      requires world.Valid() && rate > 0.0
      modifies world
      ensures Valid() && this.rate == rate && this.capacity == burst as real && this.world == world
      ensures tokens == capacity && history == [] && last == world.now
      ensures world.Exact() ==> world.now == old(world.now)
    {
      this.rate, this.capacity, this.world := rate, burst as real, world;
      tokens := burst as real;
      var now := world.Clock();
      last := now;
      history, spent := [], 0.0;
    }

    /** Refills by the elapsed time, never beyond the capacity. */
    method Refill()
      requires world.Valid() && rate > 0.0 && last <= world.now && tokens <= capacity
      modifies this`tokens, this`last, world
      ensures world.Valid() && last == world.now == old(world.now) + world.lag(old(world.step)) >= old(world.now)
      ensures world.step == old(world.step) + 1
      ensures world.Exact() ==> world.now == old(world.now)
      ensures tokens == Refilled(rate, capacity, old(tokens), last - old(last))
    {
      hide MinR;
      var now := world.Clock();
      var elapsed := now - last;
      last := now;
      tokens := MinR(capacity, tokens + elapsed * rate);
      assert elapsed == last - old(last) && tokens == Refilled(rate, capacity, old(tokens), elapsed);
    }

    /** Spends `cost`, waiting for it to accrue.  The bucket stays valid exactly for the
        costs a full bucket can cover.  It never sleeps when what has accrued up to its
        first look at the clock covers the cost, and else for exactly what is missing. */
    method Acquire(cost: real)
      requires Valid() && 0.0 <= cost
      modifies this, world
      ensures world.Valid() && last == world.now >= old(world.now)
      ensures cost <= capacity <==> tokens >= 0.0
      ensures cost <= capacity ==> Valid()
      ensures history == old(history) + [Grant(last, old(spent), old(spent) + cost)] && spent == old(spent) + cost
      ensures var first := old(world.now) + world.lag(old(world.step));
        var available := Available(rate, capacity, old(tokens), first - old(last));
        if cost <= available
        then world.step == old(world.step) + 1 && world.now == first && tokens == available - cost
        else
          && world.step == old(world.step) + 3
          && world.now == first + TimeFor(rate, cost - available)
                          + world.lag(old(world.step) + 1) + world.lag(old(world.step) + 2)
          && tokens == Available(rate, capacity, available, world.now - first) - cost
      ensures world.Exact() && cost <= capacity ==>
        var available := Available(rate, capacity, old(tokens), old(world.now) - old(last));
        if cost <= available
        then world.now == old(world.now) && tokens == available - cost
        else world.now == old(world.now) + TimeFor(rate, cost - available) && tokens == 0.0
    {
      hide Accounted, RateBound, Refilled, Available, TimeFor, MinR;
      ghost var t0, l0 := tokens, last;
      Refill();
      RefillIs(rate, capacity, t0, last - l0);
      RefillKeeps(rate, capacity, t0, l0, last, history, spent);
      RefillBounds(rate, capacity, t0, l0, last);
      if tokens < cost {
        var wait := (cost - tokens) / rate;
        ghost var t1, l1 := tokens, last;
        WaitAccrues(rate, cost - t1, wait);
        world.Sleep(wait);
        Refill();
        RefillIs(rate, capacity, t1, last - l1);
        RefillKeeps(rate, capacity, t1, l1, last, history, spent);
        RefillAfterWait(rate, capacity, t1, l1, last, cost, wait);
      }
      if cost <= tokens {
        GrantKeeps(rate, capacity, tokens, last, history, spent, cost);
      }
      tokens := tokens - cost;
      history := history + [Grant(last, spent, spent + cost)];
      spent := spent + cost;
    }
  }

  /** `n` acquisitions in a row from a full bucket, when only the bucket's own sleeps
      move the clock, take exactly the time the part beyond the burst needs. */
  method AcquireBackToBack(bucket: TokenBucket, burst: nat, n: nat)
    requires bucket.Valid() && bucket.world.Exact() && burst >= 1 && bucket.capacity == burst as real
    requires bucket.tokens == bucket.capacity && bucket.last == bucket.world.now
    modifies bucket, bucket.world
    ensures bucket.Valid() && |bucket.history| == |old(bucket.history)| + n
    ensures bucket.world.now - old(bucket.world.now) == (if n <= burst then 0.0 else (n - burst) as real / bucket.rate)
  {
    hide Available, Accounted, RateBound, Consecutive, Overrun;
    NoOverrun(burst, bucket.rate);
    for k := 0 to n
      invariant bucket.Valid() && bucket.last == bucket.world.now
      invariant |bucket.history| == |old(bucket.history)| + k
      invariant bucket.tokens == if k <= burst then (burst - k) as real else 0.0
      invariant bucket.world.now - old(bucket.world.now) == Overrun(k, burst, bucket.rate)
    {
      OverrunStep(k, burst, bucket.rate);
      NothingAccrued(bucket.rate, bucket.capacity, bucket.tokens, bucket.world.now - bucket.last);
      bucket.Acquire(1.0);
    }
  }

  ghost function Overrun(k: nat, burst: nat, rate: real): real
    requires rate > 0.0
  {
    if k <= burst then 0.0 else (k - burst) as real / rate
  }

  lemma NoOverrun(burst: nat, rate: real)
    requires rate > 0.0
    ensures forall k: nat :: Overrun(k, burst, rate) == if k <= burst then 0.0 else (k - burst) as real / rate
  {
  }

  lemma OverrunStep(k: nat, burst: nat, rate: real)
    requires rate > 0.0
    ensures Overrun(k + 1, burst, rate) == Overrun(k, burst, rate) + if k < burst then 0.0 else 1.0 / rate
  {
    if k >= burst {
      assert (k + 1 - burst) as real == (k - burst) as real + 1.0;
      DivideSum((k - burst) as real, 1.0, rate);
      if k == burst { assert 0.0 / rate == 0.0; }
    }
  }

  lemma DivideSum(a: real, b: real, r: real)
    requires r > 0.0
    ensures (a + b) / r == a / r + b / r
  {
    var x, y, z := (a + b) / r, a / r, b / r;
    assert x * r == a + b && y * r == a && z * r == b;
    assert (x - y - z) * r == 0.0;
  }

  /** Over any window of the run the grants add up to at most a burst plus the rate
      times the length of the window. */
  ghost predicate RateBound(rate: real, capacity: real, history: seq<Grant>) {
    forall i, j | 0 <= i <= j < |history| :: WindowBound(rate, capacity, history[i], history[j])
  }

  ghost predicate WindowBound(rate: real, capacity: real, first: Grant, final: Grant) {
    final.after - first.before <= capacity + rate * (final.at - first.at)
  }

  /** Each grant starts from the total the one before it left. */
  ghost predicate Consecutive(history: seq<Grant>, spent: real) {
    && (forall i | 0 < i < |history| :: history[i].before == history[i - 1].after)
    && (history != [] ==> history[|history| - 1].after == spent)
  }

  /** In a run of unit costs the number of grants in a window obeys the bound. */
  lemma {:induction false} UnitGrantsInWindow(rate: real, capacity: real, history: seq<Grant>, spent: real, i: nat, j: nat)
    requires RateBound(rate, capacity, history) && Consecutive(history, spent)
    requires i <= j < |history| && forall k | i <= k <= j :: history[k].after == history[k].before + 1.0
    ensures (j - i + 1) as real <= capacity + rate * (history[j].at - history[i].at)
  {
    UnitTotal(history, spent, i, j);
    assert WindowBound(rate, capacity, history[i], history[j]);
  }

  lemma {:induction false} UnitTotal(history: seq<Grant>, spent: real, i: nat, j: nat)
    requires Consecutive(history, spent)
    requires i <= j < |history| && forall k | i <= k <= j :: history[k].after == history[k].before + 1.0
    ensures history[j].after - history[i].before == (j - i + 1) as real
    decreases j - i
  {
    if i < j { UnitTotal(history, spent, i, j - 1); }
  }

  ghost predicate AccountedSince(rate: real, capacity: real, tokens: real, last: real, g: Grant, spent: real) {
    g.at <= last && spent - g.before + tokens <= capacity + rate * (last - g.at)
  }

  ghost predicate Accounted(rate: real, capacity: real, tokens: real, last: real, history: seq<Grant>, spent: real) {
    forall i | 0 <= i < |history| :: AccountedSince(rate, capacity, tokens, last, history[i], spent)
  }

  lemma Distribute(rate: real, a: real, b: real)
    ensures rate * (a + b) == rate * a + rate * b
  {
  }

  /** Refilling adds no more than the rate allows for the time that passed. */
  lemma RefillKeeps(rate: real, capacity: real, tokens: real, last: real, now: real, history: seq<Grant>, spent: real)
    requires Accounted(rate, capacity, tokens, last, history, spent) && last <= now && rate > 0.0
    ensures Accounted(rate, capacity, Refilled(rate, capacity, tokens, now - last), now, history, spent)
  {
    forall i | 0 <= i < |history|
      ensures AccountedSince(rate, capacity, Refilled(rate, capacity, tokens, now - last), now, history[i], spent)
    {
      assert AccountedSince(rate, capacity, tokens, last, history[i], spent);
      Distribute(rate, last - history[i].at, now - last);
    }
  }

  lemma SpendingBalances(rate: real, capacity: real, tokens: real, last: real, g: Grant, spent: real, cost: real)
    requires AccountedSince(rate, capacity, tokens, last, g, spent)
    ensures AccountedSince(rate, capacity, tokens - cost, last, g, spent + cost)
  {
  }

  lemma FreshGrant(rate: real, capacity: real, tokens: real, g: Grant, cost: real)
    requires tokens <= capacity && g.after == g.before + cost
    ensures AccountedSince(rate, capacity, tokens - cost, g.at, g, g.after)
  {
    assert rate * (g.at - g.at) == 0.0;
  }

  lemma WindowClosed(rate: real, capacity: real, tokens: real, first: Grant, final: Grant)
    requires AccountedSince(rate, capacity, tokens, final.at, first, final.after) && tokens >= 0.0
    ensures WindowBound(rate, capacity, first, final)
  {
  }

  /** Granting what the bucket holds keeps the accounts, and with them the bound. */
  lemma GrantKeeps(rate: real, capacity: real, tokens: real, last: real, history: seq<Grant>, spent: real, cost: real)
    requires Accounted(rate, capacity, tokens, last, history, spent) && RateBound(rate, capacity, history)
    requires 0.0 <= cost <= tokens <= capacity
    ensures var h := history + [Grant(last, spent, spent + cost)];
      Accounted(rate, capacity, tokens - cost, last, h, spent + cost) && RateBound(rate, capacity, h)
  {
    hide AccountedSince, WindowBound;
    var g := Grant(last, spent, spent + cost);
    var h := history + [g];
    forall i | 0 <= i < |h| ensures AccountedSince(rate, capacity, tokens - cost, last, h[i], spent + cost) {
      if i < |history| { SpendingBalances(rate, capacity, tokens, last, h[i], spent, cost); }
      else { FreshGrant(rate, capacity, tokens, g, cost); }
    }
    forall i, j | 0 <= i <= j < |h| ensures WindowBound(rate, capacity, h[i], h[j]) {
      if j == |history| { WindowClosed(rate, capacity, tokens - cost, h[i], g); }
    }
  }

  lemma Product(a: real, b: real)
    requires a >= 0.0 && b >= 0.0
    ensures a * b >= 0.0 && (a == 0.0 ==> a * b == 0.0)
  {
  }

  lemma Swapped(a: real, b: real)
    ensures a * b == b * a
  {
  }

  lemma NothingAccrued(rate: real, capacity: real, tokens: real, elapsed: real)
    requires elapsed == 0.0 && tokens <= capacity
    ensures Available(rate, capacity, tokens, elapsed) == tokens
  {
  }

  lemma RefillIs(rate: real, capacity: real, tokens: real, elapsed: real)
    ensures Refilled(rate, capacity, tokens, elapsed) == Available(rate, capacity, tokens, elapsed)
  {
    Swapped(rate, elapsed);
  }

  lemma WaitAccrues(rate: real, missing: real, wait: real)
    requires rate > 0.0 && missing >= 0.0 && wait == missing / rate
    ensures wait >= 0.0 && wait == TimeFor(rate, missing)
  {
  }

  lemma RefillBounds(rate: real, capacity: real, tokens: real, last: real, now: real)
    requires rate > 0.0 && tokens <= capacity && last <= now
    ensures tokens <= Refilled(rate, capacity, tokens, now - last) <= capacity
    ensures now == last ==> Refilled(rate, capacity, tokens, now - last) == tokens
  {
    Product(now - last, rate);
  }

  /** After sleeping for what is missing, the bucket covers the cost if it can at all. */
  lemma RefillAfterWait(rate: real, capacity: real, tokens: real, last: real, now: real, cost: real, wait: real)
    requires rate > 0.0 && tokens <= capacity && tokens < cost && wait == TimeFor(rate, cost - tokens)
    requires now - last >= wait >= 0.0
    ensures var t := Refilled(rate, capacity, tokens, now - last);
      && t <= capacity && (cost <= capacity <==> cost <= t)
      && (now - last == wait && cost <= capacity ==> t == cost)
  {
    var elapsed := now - last;
    assert wait * rate == cost - tokens;
    Product(elapsed - wait, rate);
    Distribute(rate, wait, elapsed - wait);
    assert wait + (elapsed - wait) == elapsed;
    Swapped(rate, wait);
    Swapped(rate, elapsed - wait);
    Swapped(rate, elapsed);
  }

  // ---- exponential backoff -------------------------------------------------------------

  datatype RetryPolicy = RetryPolicy(maxAttempts: int, baseDelay: real, maxDelay: real)

  function PowerOfTwo(n: nat): (r: real)
    ensures r >= 1.0
  {
    if n == 0 then 1.0 else 2.0 * PowerOfTwo(n - 1)
  }

  /** The wait after the given attempt (counted from one) fails. */
  function DelayFor(p: RetryPolicy, failedAttempt: nat): real
    requires failedAttempt >= 1
  {
    MinR(p.maxDelay, p.baseDelay * PowerOfTwo(failedAttempt - 1))
  }

  /** The waits after the first `k` failed attempts, in order. */
  function Delays(p: RetryPolicy, k: nat): (r: seq<real>)
    ensures |r| == k
  {
    if k == 0 then [] else Delays(p, k - 1) + [DelayFor(p, k)]
  }

  function Sum(waits: seq<real>): real {
    if waits == [] then 0.0 else Sum(waits[..|waits| - 1]) + waits[|waits| - 1]
  }

  function TotalBackoff(p: RetryPolicy, k: nat): real {
    Sum(Delays(p, k))
  }

  lemma OneMoreDelay(p: RetryPolicy, k: nat)
    ensures TotalBackoff(p, k + 1) == TotalBackoff(p, k) + DelayFor(p, k + 1)
    ensures Delays(p, k + 1) == Delays(p, k) + [DelayFor(p, k + 1)]
  {
    assert Delays(p, k + 1)[..k] == Delays(p, k);
  }

  lemma DelayBounds(p: RetryPolicy, k: nat)
    requires k >= 1
    ensures DelayFor(p, k) <= p.maxDelay
    ensures DelayFor(p, k) <= p.baseDelay * PowerOfTwo(k - 1)
  {
  }

  lemma OneMore(a: real, b: real, m: real)
    requires b == a + 1.0
    ensures b * m == a * m + m
  {
  }

  lemma NoDelays(p: RetryPolicy)
    ensures Delays(p, 0) == [] && TotalBackoff(p, 0) == 0.0
  {
  }

  /** Total backoff is bounded both by the cap and by the geometric sum. */
  lemma {:induction false} BackoffBounded(p: RetryPolicy, k: nat)
    ensures TotalBackoff(p, k) <= k as real * p.maxDelay
    ensures TotalBackoff(p, k) <= p.baseDelay * (PowerOfTwo(k) - 1.0)
  {
    hide DelayFor, TotalBackoff;
    if k > 0 {
      BackoffBounded(p, k - 1);
      OneMoreDelay(p, k - 1);
      DelayBounds(p, k);
      var a, b := (k - 1) as real, k as real;
      OneMore(a, b, p.maxDelay);
      assert TotalBackoff(p, k - 1) <= a * p.maxDelay;
      assert DelayFor(p, k) <= p.maxDelay;
      assert TotalBackoff(p, k) <= a * p.maxDelay + p.maxDelay;
      assert TotalBackoff(p, k) <= b * p.maxDelay;
      var two := PowerOfTwo(k - 1);
      Distribute(p.baseDelay, two - 1.0, two);
      assert (two - 1.0) + two == PowerOfTwo(k) - 1.0;
    } else {
      NoDelays(p);
      assert PowerOfTwo(0) - 1.0 == 0.0;
      assert p.baseDelay * 0.0 == 0.0;
    }
  }

  /** The first wait is the base delay and each later one twice the one before, until the
      cap is reached. */
  lemma BackoffDoubles(p: RetryPolicy, k: nat)
    requires k >= 1 && p.maxDelay >= 0.0
    ensures DelayFor(p, 1) == MinR(p.maxDelay, p.baseDelay)
    ensures DelayFor(p, k + 1) == MinR(p.maxDelay, 2.0 * DelayFor(p, k))
  {
    hide MinR;
    var x, y := PowerOfTwo(k - 1), PowerOfTwo(k);
    assert PowerOfTwo(0) == 1.0 && p.baseDelay * 1.0 == p.baseDelay;
    Doubled(p.baseDelay, x, y);
    CappedTwice(p.maxDelay, p.baseDelay * x);
  }

  lemma CappedTwice(cap: real, delay: real)
    requires cap >= 0.0
    ensures MinR(cap, 2.0 * delay) == MinR(cap, 2.0 * MinR(cap, delay))
  {
  }

  lemma Doubled(base: real, x: real, y: real)
    requires y == 2.0 * x
    ensures base * y == 2.0 * (base * x)
  {
  }

  /** Backoff never shrinks from one attempt to a later one. */
  lemma {:induction false} BackoffGrows(p: RetryPolicy, i: nat, j: nat)
    requires 1 <= i <= j && p.baseDelay >= 0.0
    ensures DelayFor(p, i) <= DelayFor(p, j)
    decreases j
  {
    if i < j {
      BackoffGrows(p, i, j - 1);
      DelayStep(p, j - 1);
    }
  }

  lemma DelayStep(p: RetryPolicy, k: nat)
    requires k >= 1 && p.baseDelay >= 0.0
    ensures DelayFor(p, k) <= DelayFor(p, k + 1)
  {
    var x, y := PowerOfTwo(k - 1), PowerOfTwo(k);
    assert y == 2.0 * x;
    PowerGrows(p.baseDelay, x, y);
    assert DelayFor(p, k) == MinR(p.maxDelay, p.baseDelay * x);
    assert DelayFor(p, k + 1) == MinR(p.maxDelay, p.baseDelay * y);
  }

  lemma PowerGrows(base: real, x: real, y: real)
    requires base >= 0.0 && x >= 0.0 && y == 2.0 * x
    ensures base * x <= base * y
  {
  }

  // ---- the retry loop -------------------------------------------------------------------

  datatype Attempted<+V, +E> = Value(value: V) | Transient | Fatal(error: E)

  datatype Reply<+V, +E> =
    | Returned(value: V)
    | Raised(error: E)
    | GaveUp(attempts: int)
    | NeverTried  // the AssertionError below the loop, reached when max_attempts < 1

  /** The first of `n` attempts, from number `from`, that is not a transient failure;
      `n` when there is none. */
  function FirstSettled<V, E>(outcomes: nat -> Attempted<V, E>, from: nat, n: nat): (k: nat)
    ensures k <= n
    ensures forall i: nat | from <= i < from + k :: outcomes(i).Transient?
    ensures k < n ==> !outcomes(from + k).Transient?
    decreases n
  {
    if n == 0 then 0
    else if !outcomes(from).Transient? then 0
    else 1 + FirstSettled(outcomes, from + 1, n - 1)
  }

  /** A call through the boundary: a rate limiter in front of an operation whose
      outcomes are arbitrary and which takes arbitrary time.  `waits` records what the
      retry loop's own `sleep` was asked for. */
  class Boundary<V, E> {
    const limiter: TokenBucket
    const outcomes: nat -> Attempted<V, E>
    const duration: nat -> real
    var attempts: nat
    ghost var waits: seq<real>

    ghost predicate Valid()
      reads this, limiter, limiter.world
    {
      limiter.Valid() && limiter.capacity >= 1.0 && forall n :: duration(n) >= 0.0
    }

    constructor (limiter: TokenBucket, outcomes: nat -> Attempted<V, E>, duration: nat -> real)
      requires limiter.Valid() && limiter.capacity >= 1.0 && forall n :: duration(n) >= 0.0
      ensures Valid() && this.limiter == limiter && this.outcomes == outcomes && attempts == 0 && waits == []
    {
      this.limiter, this.outcomes, this.duration := limiter, outcomes, duration;
      attempts, waits := 0, [];
    }

    method Attempt() returns (r: Attempted<V, E>)
      requires Valid()
      modifies this`attempts, limiter, limiter.world
      ensures Valid() && attempts == old(attempts) + 1 && r == outcomes(old(attempts))
      ensures |limiter.history| == |old(limiter.history)| + 1 && limiter.spent == old(limiter.spent) + 1.0
      ensures limiter.history[|old(limiter.history)|].at >= old(limiter.world.now)
      ensures limiter.world.now >= limiter.history[|old(limiter.history)|].at + duration(old(attempts))
    {
      limiter.Acquire(1.0);
      limiter.world.Sleep(duration(attempts));
      r := outcomes(attempts);
      attempts := attempts + 1;
    }

    method Wait(delay: real)
      requires Valid() && delay >= 0.0
      modifies this`waits, limiter.world
      ensures Valid() && waits == old(waits) + [delay]
      ensures limiter.world.now >= old(limiter.world.now) + delay
    {
      limiter.world.Sleep(delay);
      waits := waits + [delay];
    }
  }

  /** `resilient_call`: the first settled outcome among the allowed attempts decides;
      every attempt spends one token; between attempts it waits exactly the policy's
      delays, one per retry. */
  method ResilientCall<V, E>(call: Boundary<V, E>, policy: RetryPolicy) returns (r: Reply<V, E>)
    requires call.Valid() && policy.baseDelay >= 0.0 && policy.maxDelay >= 0.0
    modifies call, call.limiter, call.limiter.world
    ensures call.Valid()
    ensures policy.maxAttempts < 1 ==>
      r == NeverTried && call.attempts == old(call.attempts) && call.waits == old(call.waits)
    ensures policy.maxAttempts >= 1 ==>
      var k := FirstSettled(call.outcomes, old(call.attempts), policy.maxAttempts);
      var retries := if k < policy.maxAttempts then k else k - 1;
      && (k < policy.maxAttempts ==>
            match call.outcomes(old(call.attempts) + k)
            case Value(v) => r == Returned(v)
            case Fatal(e) => r == Raised(e)
            case Transient => false)
      && (k == policy.maxAttempts ==> r == GaveUp(k))
      && call.attempts == old(call.attempts) + retries + 1
      && call.waits == old(call.waits) + Delays(policy, retries)
      && call.limiter.world.now - old(call.limiter.world.now) >= TotalBackoff(policy, retries)
    ensures call.limiter.spent - old(call.limiter.spent) == (call.attempts - old(call.attempts)) as real
    ensures |call.limiter.history| - |old(call.limiter.history)| == call.attempts - old(call.attempts)
  {
    hide DelayFor, Delays, TotalBackoff, FirstSettled, Accounted, RateBound, Consecutive;
    NoDelays(policy);
    ghost var first, waited := call.attempts, call.waits;
    var attempt := 1;
    while attempt <= policy.maxAttempts
      invariant call.Valid() && 1 <= attempt && (policy.maxAttempts >= 1 ==> attempt <= policy.maxAttempts)
      invariant call.attempts == first + attempt - 1 && call.waits == waited + Delays(policy, attempt - 1)
      invariant policy.maxAttempts < 1 ==> attempt == 1
      invariant forall i: nat | first <= i < first + attempt - 1 :: call.outcomes(i).Transient?
      invariant call.limiter.spent - old(call.limiter.spent) == (attempt - 1) as real
      invariant |call.limiter.history| - |old(call.limiter.history)| == attempt - 1
      invariant call.limiter.world.now - old(call.limiter.world.now) >= TotalBackoff(policy, attempt - 1)
      decreases policy.maxAttempts - attempt
    {
      var outcome := call.Attempt();
      if !outcome.Transient? {
        SettledHere(call.outcomes, first, policy.maxAttempts, attempt - 1);
        return Settled(outcome);
      }
      if attempt >= policy.maxAttempts {
        NoneSettled(call.outcomes, first, policy.maxAttempts);
        return GaveUp(attempt);
      }
      var delay := DelayFor(policy, attempt);
      DelayNonnegative(policy, attempt);
      OneMoreDelay(policy, attempt - 1);
      call.Wait(delay);
      attempt := attempt + 1;
    }
    r := NeverTried;
  }

  function Settled<V, E>(a: Attempted<V, E>): Reply<V, E>
    requires !a.Transient?
  {
    match a
    case Value(v) => Returned(v)
    case Fatal(e) => Raised(e)
  }

  lemma SettledHere<V, E>(outcomes: nat -> Attempted<V, E>, from: nat, n: nat, k: nat)
    requires k < n && !outcomes(from + k).Transient?
    requires forall i: nat | from <= i < from + k :: outcomes(i).Transient?
    ensures FirstSettled(outcomes, from, n) == k
  {
    var j := FirstSettled(outcomes, from, n);
    assert k < j ==> from <= from + k < from + j;
  }

  lemma NoneSettled<V, E>(outcomes: nat -> Attempted<V, E>, from: nat, n: nat)
    requires forall i: nat | from <= i < from + n :: outcomes(i).Transient?
    ensures FirstSettled(outcomes, from, n) == n
  {
  }

  lemma DelayNonnegative(p: RetryPolicy, k: nat)
    requires k >= 1 && p.baseDelay >= 0.0 && p.maxDelay >= 0.0
    ensures DelayFor(p, k) >= 0.0
  {
    Product(p.baseDelay, PowerOfTwo(k - 1));
  }
}
