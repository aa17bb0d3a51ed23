/**
 * Crash-loop supervision (internal/supervise/supervise.go and loop.go): the
 * restart counter with its stable window, the backoff schedule, and the tick
 * that applies both to every supervised process.
 */
module Supervise {
  import opened Prelude

  /** Durations and instants are nanoseconds; the two ratios are real. */
  datatype Policy = Policy(
    enabled: bool, max: int, backoff: int, stableWindow: int,
    multiplier: real, maxBackoff: int, jitter: real)

  const DEFAULT_STABLE_WINDOW := 30_000_000_000

  /** The window a counter works with. */
  function Window(p: Policy): (w: int)
    ensures w > 0 && w == if p.stableWindow > 0 then p.stableWindow else 30_000_000_000
  {
    if p.stableWindow <= 0 then DEFAULT_STABLE_WINDOW else p.stableWindow
  }

  predicate ShouldRestart(p: Policy, restarts: int) {
    p.enabled && restarts >= 0 && (p.max <= 0 || restarts < p.max)
  }

  // ---------------------------------------------------------------------------
  // The backoff schedule
  // ---------------------------------------------------------------------------

  ghost function Pow(b: real, n: nat): real {
    if n == 0 then 1.0 else Pow(b, n - 1) * b
  }

  lemma {:induction false} PowAdds(b: real, m: nat, n: nat)
    ensures Pow(b, m + n) == Pow(b, m) * Pow(b, n) && Pow(b, 1) == b
  {
    assert Pow(b, 1) == Pow(b, 0) * b;
    if n > 0 {
      PowAdds(b, m, n - 1);
      assert Pow(b, m + n) == Pow(b, m + n - 1) * b;
      TimesAssociates(Pow(b, m), Pow(b, n - 1), b);
    }
  }

  lemma TimesAssociates(x: real, y: real, z: real)
    ensures (x * y) * z == x * (y * z)
  {
  }

  /** base * b^n, multiplied up one factor at a time. */
  ghost function Scaled(base: real, b: real, n: nat): real {
    if n == 0 then base else Scaled(base, b, n - 1) * b
  }

  lemma {:induction false} ScaledIsPow(base: real, b: real, n: nat)
    ensures Scaled(base, b, n) == base * Pow(b, n)
  {
    if n > 0 {
      ScaledIsPow(base, b, n - 1);
      assert base * Pow(b, n - 1) * b == base * (Pow(b, n - 1) * b);
    }
  }

  function AtLeast(a: int, b: int): int {
    if a < b then b else a
  }

  predicate Linear(p: Policy) {
    p.multiplier <= 1.0 && p.maxBackoff <= 0 && p.jitter <= 0.0
  }

  function Factor(p: Policy): real {
    if p.multiplier < 1.0 then 1.0 else p.multiplier
  }

  function Capped(d: real, maxBackoff: int): real {
    if maxBackoff > 0 && d > maxBackoff as real then maxBackoff as real else d
  }

  /** The delay before jitter, as a formula in the number of restarts. */
  ghost function Delay(p: Policy, restarts: int): real {
    var n := AtLeast(restarts, 0);
    if p.backoff <= 0 then 0.0
    else if Linear(p) then (p.backoff * (n + 1)) as real
    else Capped(Scaled(p.backoff as real, Factor(p), n), p.maxBackoff)
  }

  /** The jitter fraction in use, clamped to [0, 1]. */
  function Fraction(p: Policy): real {
    if p.jitter <= 0.0 then 0.0 else if p.jitter > 1.0 then 1.0 else p.jitter
  }

  /** Jitter moves a delay by up to the clamped fraction, by where the roll falls in [0, 1). */
  function Jittered(p: Policy, d: real, roll: real): real {
    if p.jitter <= 0.0 then d else JitteredBy(d, Fraction(p), roll)
  }

  function JitteredBy(d: real, j: real, roll: real): real {
    d + d * j * (roll * 2.0 - 1.0)
  }

  lemma ProductAtLeastZero(a: real, b: real)
    requires a >= 0.0 && b >= 0.0
    ensures a * b >= 0.0
  {
  }

  lemma ProductMonotone(a: real, b: real, c: real)
    requires a >= 0.0 && b <= c
    ensures a * b <= a * c
  {
    ProductAtLeastZero(a, c - b);
  }

  lemma {:induction false} ScaledMonotone(base: real, mult: real, m: nat, n: nat)
    requires base >= 0.0 && mult >= 1.0 && m <= n
    ensures 0.0 <= Scaled(base, mult, m) <= Scaled(base, mult, n)
    decreases n
  {
    if n > 0 {
      ScaledMonotone(base, mult, if m < n then m else n - 1, n - 1);
      ProductMonotone(Scaled(base, mult, n - 1), 1.0, mult);
    }
  }

  /** Multiply up, stopping early at the cap. */
  method Exponential(base: real, mult: real, n: nat, maxBackoff: int) returns (d: real)
    requires base > 0.0 && mult >= 1.0
    ensures d == Capped(Scaled(base, mult, n), maxBackoff)
  {
    d := base;
    var capped := maxBackoff as real;
    var k := 0;
    while k < n
      invariant 0 <= k <= n && d == Scaled(base, mult, k)
    {
      d := d * mult;
      k := k + 1;
      if maxBackoff > 0 && d >= capped {
        ScaledMonotone(base, mult, k, n);
        d := capped;
        return;
      }
    }
    if maxBackoff > 0 && d > capped {
      d := capped;
    }
  }

  /** The uncapped exponential delay: the backoff times the multiplier to the power of the restarts. */
  ghost function FullDelay(backoff: int, multiplier: real, restarts: int): real {
    backoff as real * Pow(if multiplier < 1.0 then 1.0 else multiplier, if restarts < 0 then 0 else restarts)
  }

  lemma LinearWait(p: Policy, restarts: int, roll: real)
    requires p.backoff > 0 && Linear(p)
    ensures BackoffFor(p, restarts, roll) == if restarts <= 0 then p.backoff else p.backoff + restarts * p.backoff
  {
    OneMoreTimes(p.backoff, AtLeast(restarts, 0));
  }

  lemma ExponentialDelay(p: Policy, restarts: int)
    requires p.backoff > 0 && !Linear(p)
    ensures var full := FullDelay(p.backoff, p.multiplier, restarts);
      Delay(p, restarts) == if p.maxBackoff > 0 && p.maxBackoff as real < full then p.maxBackoff as real else full
  {
    ScaledIsPow(p.backoff as real, Factor(p), AtLeast(restarts, 0));
  }

  lemma ExponentialWait(p: Policy, restarts: int, roll: real, d: real)
    requires p.backoff > 0 && !Linear(p) && d == Delay(p, restarts)
    ensures p.jitter <= 0.0 ==> BackoffFor(p, restarts, roll) == d.Floor
    ensures 0.0 < p.jitter <= 1.0 ==> BackoffFor(p, restarts, roll) == (d + d * p.jitter * (roll * 2.0 - 1.0)).Floor
    ensures p.jitter > 1.0 ==> BackoffFor(p, restarts, roll) == (d + d * (roll * 2.0 - 1.0)).Floor
  {
    if 0.0 < p.jitter <= 1.0 {
      NarrowJitter(d, p.jitter, roll);
      assert BackoffFor(p, restarts, roll) == JitteredBy(d, p.jitter, roll).Floor;
    } else if p.jitter > 1.0 {
      WideJitter(d, roll);
      assert BackoffFor(p, restarts, roll) == JitteredBy(d, 1.0, roll).Floor;
    }
  }

  lemma NarrowJitter(d: real, j: real, roll: real)
    ensures JitteredBy(d, j, roll) == d + d * j * (roll * 2.0 - 1.0)
  {
  }

  lemma OneMoreTimes(backoff: int, n: nat)
    ensures ((backoff * (n + 1)) as real).Floor == if n == 0 then backoff else backoff + n * backoff
  {
  }

  lemma WideJitter(d: real, roll: real)
    ensures JitteredBy(d, 1.0, roll) == d + d * (roll * 2.0 - 1.0)
  {
  }

  /** The wait before the next attempt; roll is what the random source answered. */
  method NextBackoff(p: Policy, restarts: int, roll: real) returns (wait: int)
    ensures wait == BackoffFor(p, restarts, roll)
    ensures p.backoff <= 0 ==> wait == 0
    ensures p.backoff > 0 && p.multiplier <= 1.0 && p.maxBackoff <= 0 && p.jitter <= 0.0 ==>
      wait == if restarts <= 0 then p.backoff else p.backoff + restarts * p.backoff
    ensures p.backoff > 0 && (p.multiplier > 1.0 || p.maxBackoff > 0 || p.jitter > 0.0) ==>
      var full := FullDelay(p.backoff, p.multiplier, restarts);
      var d := if p.maxBackoff > 0 && p.maxBackoff as real < full then p.maxBackoff as real else full;
      && (p.jitter <= 0.0 ==> wait == d.Floor)
      && (0.0 < p.jitter <= 1.0 ==> wait == (d + d * p.jitter * (roll * 2.0 - 1.0)).Floor)
      && (p.jitter > 1.0 ==> wait == (d + d * (roll * 2.0 - 1.0)).Floor)
  {
    if p.backoff > 0 {
      if Linear(p) {
        LinearWait(p, restarts, roll);
      } else {
        ExponentialDelay(p, restarts);
        ExponentialWait(p, restarts, roll, Delay(p, restarts));
      }
    }
    wait := DrawBackoff(p, restarts, roll);
  }

  /** The body of NextBackoff. */
  method DrawBackoff(p: Policy, restarts: int, roll: real) returns (wait: int)
    ensures wait == BackoffFor(p, restarts, roll)
  {
    if p.backoff <= 0 {
      return 0;
    }
    var n := if restarts < 0 then 0 else restarts;
    if p.multiplier <= 1.0 && p.maxBackoff <= 0 && p.jitter <= 0.0 {
      return p.backoff * (n + 1);
    }
    var mult := if p.multiplier < 1.0 then 1.0 else p.multiplier;
    var d := Exponential(p.backoff as real, mult, n, p.maxBackoff);
    wait := Jittered(p, d, roll).Floor;
  }

  /** Without jitter the schedule never shrinks, and never passes a positive cap. */
  lemma DelayIsMonotoneAndCapped(p: Policy, m: int, n: int)
    requires m <= n
    ensures 0.0 <= Delay(p, m) <= Delay(p, n)
    ensures p.maxBackoff > 0 ==> Delay(p, n) <= p.maxBackoff as real
  {
    var a, b := AtLeast(m, 0), AtLeast(n, 0);
    if p.backoff > 0 && !Linear(p) {
      ScaledMonotone(p.backoff as real, Factor(p), a, b);
    } else if p.backoff > 0 {
      LinearMonotone(p.backoff, a + 1, b + 1);
    }
  }

  lemma LinearMonotone(backoff: int, a: int, b: int)
    requires backoff > 0 && 0 <= a <= b
    ensures 0 <= backoff * a <= backoff * b
  {
    assert backoff * (b - a) >= 0;
  }

  lemma ProductNotBelow(x: real, t: real)
    requires x >= 0.0 && t >= -1.0
    ensures x * t >= -x
  {
    ProductAtLeastZero(x, t + 1.0);
    assert x * (t + 1.0) == x * t + x;
  }

  lemma ProductNotAbove(x: real, t: real)
    requires x >= 0.0 && t <= 1.0
    ensures x * t <= x
  {
    ProductAtLeastZero(x, 1.0 - t);
    assert x * (1.0 - t) == x - x * t;
  }

  lemma JitteredByNotBelow(d: real, j: real, roll: real)
    requires d >= 0.0 && j >= 0.0 && 0.0 <= roll < 1.0
    ensures JitteredBy(d, j, roll) >= d - d * j
  {
    ProductAtLeastZero(d, j);
    ProductNotBelow(d * j, roll * 2.0 - 1.0);
  }

  lemma JitteredByNotAbove(d: real, j: real, roll: real)
    requires d >= 0.0 && j >= 0.0 && 0.0 <= roll < 1.0
    ensures JitteredBy(d, j, roll) <= d + d * j
  {
    ProductAtLeastZero(d, j);
    ProductNotAbove(d * j, roll * 2.0 - 1.0);
  }

  /** With jitter the wait stays within the clamped fraction of the delay, and is never negative. */
  lemma JitterIsBounded(p: Policy, d: real, roll: real)
    requires d >= 0.0 && 0.0 <= roll < 1.0
    ensures d - d * Fraction(p) <= Jittered(p, d, roll) <= d + d * Fraction(p) && Jittered(p, d, roll) >= 0.0
  {
    JitteredByNotBelow(d, Fraction(p), roll);
    JitteredByNotAbove(d, Fraction(p), roll);
    ProductNotAbove(d, Fraction(p));
  }

  /** NextBackoff as a formula: the delay, jittered unless the schedule is linear, in whole nanoseconds. */
  ghost function BackoffFor(p: Policy, restarts: int, roll: real): int {
    if p.backoff <= 0 || Linear(p) then Delay(p, restarts).Floor else Jittered(p, Delay(p, restarts), roll).Floor
  }

  /** Without jitter the wait never shrinks as restarts add up, and never passes a positive cap. */
  lemma WaitIsMonotoneAndCapped(p: Policy, m: int, n: int, roll: real, other: real)
    requires m <= n && p.jitter <= 0.0
    ensures 0 <= BackoffFor(p, m, roll) <= BackoffFor(p, n, other)
    ensures p.maxBackoff > 0 ==> BackoffFor(p, n, other) <= p.maxBackoff
  {
    DelayIsMonotoneAndCapped(p, m, n);
    FloorMonotone(0.0, Delay(p, m));
    FloorMonotone(Delay(p, m), Delay(p, n));
    if p.maxBackoff > 0 {
      FloorMonotone(Delay(p, n), p.maxBackoff as real);
    }
  }

  lemma FloorMonotone(x: real, y: real)
    requires x <= y
    ensures x.Floor <= y.Floor
  {
  }

  /** With jitter the wait is never negative, and within the clamped fraction of the delay but for the cut to whole nanoseconds. */
  lemma WaitIsBounded(p: Policy, restarts: int, roll: real)
    requires 0.0 <= roll < 1.0
    ensures var d, wait := Delay(p, restarts), BackoffFor(p, restarts, roll);
      && wait >= 0
      && d - d * Fraction(p) - 1.0 < wait as real <= d + d * Fraction(p)
  {
    DelayIsMonotoneAndCapped(p, restarts, restarts);
    JitterIsBounded(p, Delay(p, restarts), roll);
    if p.backoff <= 0 || Linear(p) {
      assert Jittered(p, Delay(p, restarts), roll) == Delay(p, restarts);
    }
  }

  /** Jitter is applied after the cap, so a jittered wait can pass it. */
  lemma JitterCanPassTheCap()
    ensures var p := Policy(true, 0, 100, 0, 2.0, 100, 0.5);
      Delay(p, 3) == 100.0 && BackoffFor(p, 3, 0.75) == 125 > p.maxBackoff
  {
    var p := Policy(true, 0, 100, 0, 2.0, 100, 0.5);
    assert Scaled(100.0, 2.0, 1) == 200.0;
    ScaledMonotone(100.0, 2.0, 1, 3);
    assert Jittered(p, 100.0, 0.75) == 125.0;
  }

  /** Every roll stays below a bound exactly when the widest jitter, which no roll reaches, is not above it. */
  lemma JitterStaysBelow(d: real, j: real, bound: real)
    requires d > 0.0 && j > 0.0
    ensures (forall roll :: 0.0 <= roll < 1.0 ==> JitteredBy(d, j, roll) < bound) <==> d * (1.0 + j) <= bound
  {
    var dj := d * j;
    PositiveProduct(d, j);
    assert d * (1.0 + j) == d + dj;
    if d + dj <= bound {
      forall roll | 0.0 <= roll < 1.0 ensures JitteredBy(d, j, roll) < bound {
        PositiveProduct(dj, 1.0 - (roll * 2.0 - 1.0));
        assert dj * (1.0 - (roll * 2.0 - 1.0)) == dj - dj * (roll * 2.0 - 1.0);
      }
    } else {
      var over := d + dj - bound;
      WideRoll(d, dj, over);
      var roll := if over / (4.0 * dj) <= 0.5 then 1.0 - over / (4.0 * dj) else 0.5;
      assert JitteredBy(d, j, roll) == d + dj * (roll * 2.0 - 1.0);
      assert JitteredBy(d, j, roll) >= bound;
    }
  }

  lemma PositiveProduct(a: real, b: real)
    requires a > 0.0 && b > 0.0
    ensures a * b > 0.0
  {
  }

  /** A roll near enough to 1 takes a delay past any bound short of the widest jitter. */
  lemma WideRoll(d: real, dj: real, over: real)
    requires d > 0.0 && dj > 0.0 && over > 0.0
    ensures var share := over / (4.0 * dj);
      && share > 0.0
      && dj * ((1.0 - share) * 2.0 - 1.0) == dj - over / 2.0
      && (share > 0.5 ==> dj < over)
  {
    var share := over / (4.0 * dj);
    assert share * (4.0 * dj) == over;
    assert share * dj == over / 4.0;
    if share <= 0.0 {
      ProductAtLeastZero(-share, dj);
    }
    if share > 0.5 {
      PositiveProduct(share - 0.5, dj);
      assert (share - 0.5) * dj == share * dj - 0.5 * dj;
    }
  }

  /** Exactly when no roll takes the wait past the cap: when the widest jitter is at most one nanosecond above it. */
  lemma JitterFitsUnderTheCap(p: Policy, restarts: int)
    requires p.backoff > 0 && p.maxBackoff > 0 && p.jitter > 0.0
    ensures (forall roll :: 0.0 <= roll < 1.0 ==> BackoffFor(p, restarts, roll) <= p.maxBackoff)
      <==> Delay(p, restarts) * (1.0 + Fraction(p)) <= p.maxBackoff as real + 1.0
  {
    var d, bound := Delay(p, restarts), p.maxBackoff as real + 1.0;
    DelayIsPositive(p, restarts);
    JitterStaysBelow(d, Fraction(p), bound);
    forall roll | 0.0 <= roll < 1.0
      ensures BackoffFor(p, restarts, roll) <= p.maxBackoff <==> JitteredBy(d, Fraction(p), roll) < bound
    {
      assert BackoffFor(p, restarts, roll) == JitteredBy(d, Fraction(p), roll).Floor;
    }
  }

  lemma DelayIsPositive(p: Policy, restarts: int)
    requires p.backoff > 0 && p.maxBackoff > 0
    ensures Delay(p, restarts) > 0.0
  {
    ScaledMonotone(p.backoff as real, Factor(p), 0, AtLeast(restarts, 0));
  }

  // ---------------------------------------------------------------------------
  // The restart counter
  // ---------------------------------------------------------------------------

  datatype Counter = Counter(count: int, healthyFor: int, lastTick: int, initialized: bool)

  const Fresh := Counter(0, 0, 0, false)

  function ObservedHealthy(c: Counter, window: int, now: int): Counter {
    if !c.initialized then c.(lastTick := now, initialized := true)
    else
      var healthyFor := c.healthyFor + if now - c.lastTick < 0 then 0 else now - c.lastTick;
      if healthyFor >= window then c.(count := 0, healthyFor := 0, lastTick := now)
      else c.(healthyFor := healthyFor, lastTick := now)
  }

  function ObservedUnhealthy(c: Counter, now: int): Counter {
    c.(healthyFor := 0, lastTick := now, initialized := false)
  }

  function Restarted(c: Counter): Counter {
    c.(count := c.count + 1, healthyFor := 0, initialized := false)
  }

  class RestartCounter {
    const policy: Policy
    var count: int
    var healthyFor: int
    var lastTick: int
    var initialized: bool

    function Value(): Counter
      reads this
    {
      Counter(count, healthyFor, lastTick, initialized)
    }

    constructor (policy: Policy)
      ensures this.policy == policy.(stableWindow := Window(policy)) && Value() == Fresh
    {
      this.policy := if policy.stableWindow <= 0 then policy.(stableWindow := DEFAULT_STABLE_WINDOW) else policy;
      count, healthyFor, lastTick, initialized := 0, 0, 0, false;
    }

    method ObserveHealthy(now: int)
      modifies this
      ensures Value() == ObservedHealthy(old(Value()), policy.stableWindow, now)
    {
      if !initialized {
        lastTick := now;
        initialized := true;
        return;
      }
      var delta := now - lastTick;
      if delta < 0 {
        delta := 0;
      }
      lastTick := now;
      healthyFor := healthyFor + delta;
      if healthyFor >= policy.stableWindow {
        count := 0;
        healthyFor := 0;
      }
    }

    method ObserveUnhealthy(now: int)
      modifies this
      ensures Value() == ObservedUnhealthy(old(Value()), now)
    {
      healthyFor := 0;
      lastTick := now;
      initialized := false;
    }

    method RecordRestart()
      modifies this
      ensures Value() == Restarted(old(Value()))
    {
      count := count + 1;
      healthyFor := 0;
      initialized := false;
    }
  }

  // ---------------------------------------------------------------------------
  // One id on one tick
  // ---------------------------------------------------------------------------

  /**
   * What the environment answers for one id on one tick: the monitor, the
   * desired state, and the random roll should a backoff be drawn.
   */
  datatype Answer = Answer(now: int, failed: bool, running: bool, healthy: bool, desiredRunning: bool, roll: real)

  predicate Well(a: Answer) {
    !a.failed && a.running && a.healthy
  }

  /** An unhealthy answer the supervisor acts on; unhealthy but not desired is skipped. */
  predicate Sick(a: Answer) {
    !Well(a) && a.desiredRunning
  }

  datatype IdState = IdState(counter: Counter, nextAttempt: Option<int>, exhausted: bool)

  const FreshId := IdState(Fresh, None, false)

  datatype Action = Quiet | ResetCount | Restart | ReportExhausted

  ghost function Step(p: Policy, s: IdState, a: Answer): IdState {
    if Well(a) then
      var c := ObservedHealthy(s.counter, Window(p), a.now);
      s.(counter := c, exhausted := s.exhausted && c.count != 0)
    else if !a.desiredRunning then s
    else
      var c := ObservedUnhealthy(s.counter, a.now);
      if !ShouldRestart(p, c.count) then s.(counter := c, exhausted := true)
      else if s.nextAttempt.Some? && a.now < s.nextAttempt.value then s.(counter := c)
      else s.(counter := Restarted(c), nextAttempt := Some(a.now + BackoffFor(p, Restarted(c).count, a.roll)))
  }

  /** What the step shows the outside, a counter reset included. */
  ghost function ActionOf(p: Policy, s: IdState, a: Answer): Action {
    if Well(a) then
      if s.counter.initialized &&
         s.counter.healthyFor + (if a.now < s.counter.lastTick then 0 else a.now - s.counter.lastTick) >= Window(p)
      then ResetCount else Quiet
    else if !a.desiredRunning then Quiet
    else if !ShouldRestart(p, s.counter.count) then (if s.exhausted then Quiet else ReportExhausted)
    else if s.nextAttempt.Some? && a.now < s.nextAttempt.value then Quiet
    else Restart
  }

  // ---------------------------------------------------------------------------
  // One id over a whole run
  // ---------------------------------------------------------------------------

  ghost function After(p: Policy, answers: seq<Answer>): IdState {
    if answers == [] then FreshId else Step(p, After(p, answers[..|answers| - 1]), answers[|answers| - 1])
  }

  /** What tick k does. */
  ghost function Done(p: Policy, answers: seq<Answer>, k: nat): Action
    requires k < |answers|
  {
    ActionOf(p, After(p, answers[..k]), answers[k])
  }

  ghost function Restarts(p: Policy, answers: seq<Answer>, i: nat, j: nat): nat
    requires i <= j <= |answers|
  {
    if i == j then 0 else Restarts(p, answers, i, j - 1) + if Done(p, answers, j - 1) == Restart then 1 else 0
  }

  /** No counter reset on the ticks from i up to j. */
  ghost predicate NoReset(p: Policy, answers: seq<Answer>, i: nat, j: nat)
    requires i <= j <= |answers|
  {
    forall k :: i <= k < j ==> Done(p, answers, k) != ResetCount
  }

  ghost predicate Monotone(answers: seq<Answer>) {
    forall i, j :: 0 <= i <= j < |answers| ==> answers[i].now <= answers[j].now
  }

  lemma AfterOneMore(p: Policy, answers: seq<Answer>, k: nat)
    requires k < |answers|
    ensures After(p, answers[..k + 1]) == Step(p, After(p, answers[..k]), answers[k])
  {
    assert answers[..k + 1][..k] == answers[..k];
  }

  /** How one tick moves the count. */
  lemma CountMoves(p: Policy, answers: seq<Answer>, k: nat)
    requires k < |answers|
    ensures var before, after := After(p, answers[..k]).counter.count, After(p, answers[..k + 1]).counter.count;
      match Done(p, answers, k)
      case Restart => after == before + 1
      case ResetCount => after == 0
      case _ => after == before
  {
    AfterOneMore(p, answers, k);
  }

  /** The count is the number of restarts since the last reset. */
  lemma {:induction false} CountsRestarts(p: Policy, answers: seq<Answer>, i: nat, j: nat)
    requires i <= j <= |answers| && NoReset(p, answers, i, j)
    ensures After(p, answers[..j]).counter.count == After(p, answers[..i]).counter.count + Restarts(p, answers, i, j)
  {
    if i < j {
      CountsRestarts(p, answers, i, j - 1);
      CountMoves(p, answers, j - 1);
    }
  }

  lemma {:induction false} CountWithinBudget(p: Policy, answers: seq<Answer>, j: nat)
    requires j <= |answers|
    ensures 0 <= After(p, answers[..j]).counter.count
    ensures p.max > 0 ==> After(p, answers[..j]).counter.count <= p.max
    ensures !p.enabled ==> After(p, answers[..j]).counter.count == 0
  {
    if j > 0 {
      CountWithinBudget(p, answers, j - 1);
      AfterOneMore(p, answers, j - 1);
    }
  }

  /** Between two counter resets an id is restarted at most Max times. */
  lemma BudgetHolds(p: Policy, answers: seq<Answer>, i: nat, j: nat)
    requires i <= j <= |answers| && NoReset(p, answers, i, j) && p.max > 0
    ensures Restarts(p, answers, i, j) <= p.max
  {
    CountsRestarts(p, answers, i, j);
    CountWithinBudget(p, answers, i);
    CountWithinBudget(p, answers, j);
  }

  /** While nothing restarts the id, its deadline stands. */
  lemma {:induction false} DeadlineStands(p: Policy, answers: seq<Answer>, i: nat, j: nat)
    requires i <= j <= |answers| && Restarts(p, answers, i, j) == 0
    ensures After(p, answers[..j]).nextAttempt == After(p, answers[..i]).nextAttempt
  {
    if i < j {
      DeadlineStands(p, answers, i, j - 1);
      AfterOneMore(p, answers, j - 1);
    }
  }

  /** Two successive restarts of an id are at least the backoff drawn at the first apart. */
  lemma BackoffIsRespected(p: Policy, answers: seq<Answer>, i: nat, j: nat)
    requires i < j < |answers| && Done(p, answers, i) == Restart && Done(p, answers, j) == Restart
    requires Restarts(p, answers, i + 1, j) == 0
    ensures answers[j].now >= answers[i].now + BackoffFor(p, After(p, answers[..i + 1]).counter.count, answers[i].roll)
  {
    AfterOneMore(p, answers, i);
    DeadlineStands(p, answers, i + 1, j);
  }

  lemma DeadlineIsTheLastRestarts(p: Policy, answers: seq<Answer>, i: nat, k: nat)
    requires i < k <= |answers| && IsLastRestart(p, answers, i, k)
    ensures After(p, answers[..k]).nextAttempt
         == Some(answers[i].now + BackoffFor(p, After(p, answers[..i + 1]).counter.count, answers[i].roll))
  {
    AfterOneMore(p, answers, i);
    DeadlineStands(p, answers, i + 1, k);
  }

  ghost predicate IsLastRestart(p: Policy, answers: seq<Answer>, i: nat, k: nat)
    requires i < k <= |answers|
  {
    Done(p, answers, i) == Restart && Restarts(p, answers, i + 1, k) == 0
  }

  lemma {:induction false} LastRestart(p: Policy, answers: seq<Answer>, k: nat) returns (i: nat)
    requires k <= |answers| && Restarts(p, answers, 0, k) > 0
    ensures i < k && IsLastRestart(p, answers, i, k)
  {
    if Done(p, answers, k - 1) == Restart {
      i := k - 1;
    } else {
      i := LastRestart(p, answers, k - 1);
    }
  }

  /** No restart of this id is still within its backoff at tick k. */
  ghost predicate BackoffOver(p: Policy, answers: seq<Answer>, k: nat)
    requires k < |answers|
  {
    forall i: nat :: i < k && IsLastRestart(p, answers, i, k) ==>
      answers[k].now >= answers[i].now + BackoffFor(p, After(p, answers[..i + 1]).counter.count, answers[i].roll)
  }

  /** A sick tick restarts the id exactly when the budget has room and the last restart's backoff is over. */
  lemma SickTickRestartsIff(p: Policy, answers: seq<Answer>, k: nat)
    requires k < |answers| && Sick(answers[k])
    ensures Done(p, answers, k) == Restart <==>
      p.enabled && (p.max <= 0 || After(p, answers[..k]).counter.count < p.max) && BackoffOver(p, answers, k)
  {
    CountWithinBudget(p, answers, k);
    if Restarts(p, answers, 0, k) > 0 {
      var last := LastRestart(p, answers, k);
      forall i: nat | i < k && IsLastRestart(p, answers, i, k)
        ensures After(p, answers[..k]).nextAttempt
             == Some(answers[i].now + BackoffFor(p, After(p, answers[..i + 1]).counter.count, answers[i].roll))
      {
        DeadlineIsTheLastRestarts(p, answers, i, k);
      }
      assert IsLastRestart(p, answers, last, k);
    } else {
      DeadlineStands(p, answers, 0, k);
      assert answers[..0] == [];
      forall i: nat | i < k ensures !IsLastRestart(p, answers, i, k) {
        if Done(p, answers, i) == Restart {
          RestartCounts(p, answers, i, k);
        }
      }
    }
  }

  lemma {:induction false} RestartCounts(p: Policy, answers: seq<Answer>, i: nat, k: nat)
    requires i < k <= |answers| && Done(p, answers, i) == Restart
    ensures Restarts(p, answers, 0, k) > 0
  {
    if i + 1 < k {
      RestartCounts(p, answers, i, k - 1);
    }
  }

  // The stable window.

  /** Through healthy ticks without a reset, the healthy time grows with the clock. */
  lemma {:induction false} HealthAddsUp(p: Policy, answers: seq<Answer>, i: nat, j: nat)
    requires Monotone(answers) && i < j <= |answers| && (forall k :: i <= k < j ==> Well(answers[k]))
    requires NoReset(p, answers, i, j)
    ensures var c := After(p, answers[..j]).counter;
      c.initialized && c.lastTick == answers[j - 1].now && c.healthyFor >= answers[j - 1].now - answers[i].now
  {
    AfterOneMore(p, answers, j - 1);
    HealthyForIsNotNegative(p, answers, j - 1);
    assert Done(p, answers, j - 1) != ResetCount;
    if i + 1 < j {
      HealthAddsUp(p, answers, i, j - 1);
    }
  }

  lemma {:induction false} HealthyForIsNotNegative(p: Policy, answers: seq<Answer>, j: nat)
    requires j <= |answers|
    ensures After(p, answers[..j]).counter.healthyFor >= 0
  {
    if j > 0 {
      HealthyForIsNotNegative(p, answers, j - 1);
      AfterOneMore(p, answers, j - 1);
    }
  }

  /** Healthy ticks that span the window do reset the counter. */
  lemma HealthEarnsAReset(p: Policy, answers: seq<Answer>, i: nat, j: nat)
    requires Monotone(answers) && i < j < |answers| && (forall k :: i <= k <= j ==> Well(answers[k]))
    requires answers[j].now - answers[i].now >= Window(p)
    ensures exists k :: i <= k <= j && Done(p, answers, k) == ResetCount && After(p, answers[..k + 1]).counter.count == 0
  {
    if NoReset(p, answers, i, j) {
      HealthAddsUp(p, answers, i, j);
      assert Done(p, answers, j) == ResetCount;
      AfterOneMore(p, answers, j);
    } else {
      var k :| i <= k < j && Done(p, answers, k) == ResetCount;
      AfterOneMore(p, answers, k);
    }
  }

  /** Since tick i, healthy itself, no tick was sick; i is at least this long before the last healthy tick. */
  ghost predicate StableSince(p: Policy, answers: seq<Answer>, i: nat, length: int, lastTick: int) {
    && i < |answers| && Well(answers[i]) && lastTick - answers[i].now >= length
    && forall k :: i <= k < |answers| ==> !Sick(answers[k])
  }

  /** A counter's healthy time is earned by ticks that ran without a sick one between. */
  lemma {:induction false} HealthyTimeIsEarned(p: Policy, answers: seq<Answer>)
    requires Monotone(answers)
    ensures var c := After(p, answers).counter;
      && (c.initialized ==> exists i: nat :: StableSince(p, answers, i, c.healthyFor, c.lastTick))
      && (!c.initialized ==> c.healthyFor == 0)
      && (c.initialized ==> answers != [] && c.lastTick <= answers[|answers| - 1].now)
  {
    if answers != [] {
      var front, a := answers[..|answers| - 1], answers[|answers| - 1];
      HealthyTimeIsEarned(p, front);
      var before, c := After(p, front).counter, After(p, answers).counter;
      if before.initialized {
        assert front[|front| - 1] == answers[|answers| - 2];
        var i: nat :| StableSince(p, front, i, before.healthyFor, before.lastTick);
        assert forall k :: 0 <= k < |front| ==> front[k] == answers[k];
        if Well(a) {
          assert StableSince(p, answers, i, before.healthyFor + (a.now - before.lastTick), a.now);
          assert StableSince(p, answers, |answers| - 1, 0, a.now);
        } else if !a.desiredRunning {
          assert StableSince(p, answers, i, before.healthyFor, before.lastTick);
        }
      } else if Well(a) {
        assert StableSince(p, answers, |answers| - 1, 0, a.now);
      }
    }
  }

  /** Tick i was healthy, the window before tick j, and nothing from i to j was sick or restarted. */
  ghost predicate StableStretch(p: Policy, answers: seq<Answer>, i: nat, j: nat)
    requires i <= j < |answers|
  {
    && Well(answers[i]) && answers[i].now <= answers[j].now - Window(p)
    && forall k :: i <= k <= j ==> !Sick(answers[k]) && Done(p, answers, k) != Restart
  }

  /**
   * A reset is earned by a stable stretch of the window's length. Ticks that
   * found the id unhealthy but not desired running may lie in it.
   */
  lemma ResetIsEarned(p: Policy, answers: seq<Answer>, j: nat)
    requires Monotone(answers) && j < |answers| && Done(p, answers, j) == ResetCount
    ensures exists i: nat :: i <= j && StableStretch(p, answers, i, j)
    ensures After(p, answers[..j + 1]).counter.count == 0
  {
    AfterOneMore(p, answers, j);
    var front := answers[..j];
    HealthyTimeIsEarned(p, front);
    var c := After(p, front).counter;
    assert j > 0 && front[j - 1] == answers[j - 1];
    var i: nat :| StableSince(p, front, i, c.healthyFor, c.lastTick);
    assert forall k :: 0 <= k < j ==> front[k] == answers[k];
    forall k | i <= k <= j ensures !Sick(answers[k]) && Done(p, answers, k) != Restart {
      OnlyTheSickRestart(p, answers, k);
    }
    assert StableStretch(p, answers, i, j);
  }

  lemma OnlyTheSickRestart(p: Policy, answers: seq<Answer>, k: nat)
    requires k < |answers| && !Sick(answers[k])
    ensures Done(p, answers, k) != Restart
  {
  }

  // Continuous health. A tick that finds the id unhealthy but not desired running
  // is skipped before it reaches the counter.

  predicate Skipped(a: Answer) {
    !Well(a) && !a.desiredRunning
  }

  /** Healthy on every tick, for the window's length. */
  ghost predicate HealthyStretch(p: Policy, answers: seq<Answer>, i: nat, j: nat)
    requires i <= j < |answers|
  {
    answers[i].now <= answers[j].now - Window(p) && forall k :: i <= k <= j ==> Well(answers[k])
  }

  /** What the counter's comment promises: every reset ends a stretch of continuous health. */
  ghost predicate ResetsAreContinuous(p: Policy, answers: seq<Answer>) {
    forall j :: 0 <= j < |answers| && Done(p, answers, j) == ResetCount ==> EndsHealthyStretch(p, answers, j)
  }

  ghost predicate EndsHealthyStretch(p: Policy, answers: seq<Answer>, j: nat)
    requires j < |answers|
  {
    exists i: nat :: i <= j && HealthyStretch(p, answers, i, j)
  }

  /** Without skipped ticks the promise holds. */
  lemma ContinuousWithoutSkips(p: Policy, answers: seq<Answer>)
    requires Monotone(answers) && forall k :: 0 <= k < |answers| ==> !Skipped(answers[k])
    ensures ResetsAreContinuous(p, answers)
  {
    forall j | 0 <= j < |answers| && Done(p, answers, j) == ResetCount ensures EndsHealthyStretch(p, answers, j) {
      ResetIsEarned(p, answers, j);
      var i: nat :| i <= j && StableStretch(p, answers, i, j);
      assert HealthyStretch(p, answers, i, j);
    }
  }

  function Healthy(now: int): Answer {
    Answer(now, false, true, true, true, 0.0)
  }

  /** One skipped tick is enough to break it, under every policy: it counts as healthy time. */
  lemma SkippedTickCounts(p: Policy, skipped: Answer)
    requires Skipped(skipped)
    ensures var run := [Healthy(skipped.now), skipped, Healthy(skipped.now + Window(p))];
      Monotone(run) && Done(p, run, 2) == ResetCount && !ResetsAreContinuous(p, run)
  {
    var run := [Healthy(skipped.now), skipped, Healthy(skipped.now + Window(p))];
    AfterOneMore(p, run, 0);
    AfterOneMore(p, run, 1);
    assert run[..0] == [];
    assert Done(p, run, 2) == ResetCount;
    forall i: nat | i <= 2 ensures !HealthyStretch(p, run, i, 2) {
      assert i <= 1 ==> !Well(run[1]);
    }
    assert !EndsHealthyStretch(p, run, 2);
  }

  /** A loop with a Desired hook, or without one, in which case every id counts as desired running. */
  ghost predicate PossibleRun(answers: seq<Answer>, hooked: bool) {
    Monotone(answers) && (hooked || forall k :: 0 <= k < |answers| ==> answers[k].desiredRunning)
  }

  /** The promise holds in every run exactly when the loop has no Desired hook. */
  lemma ContinuousHealthIff(p: Policy, hooked: bool)
    ensures (forall answers :: PossibleRun(answers, hooked) ==> ResetsAreContinuous(p, answers)) <==> !hooked
  {
    if hooked {
      var skipped := Answer(0, false, false, false, false, 0.0);
      var run := [Healthy(skipped.now), skipped, Healthy(skipped.now + Window(p))];
      SkippedTickCounts(p, skipped);
      assert PossibleRun(run, hooked);
    } else {
      forall answers | PossibleRun(answers, hooked) ensures ResetsAreContinuous(p, answers) {
        ContinuousWithoutSkips(p, answers);
      }
    }
  }

  // Exhaustion.

  /** The flag is set only by a report, and only a reset makes room for the next. */
  lemma {:induction false} ExhaustedUntilReset(p: Policy, answers: seq<Answer>, i: nat, j: nat)
    requires p.enabled && p.max > 0 && i < j <= |answers|
    requires Done(p, answers, i) == ReportExhausted && NoReset(p, answers, i + 1, j)
    ensures After(p, answers[..j]).exhausted && After(p, answers[..j]).counter.count == p.max
  {
    AfterOneMore(p, answers, j - 1);
    CountWithinBudget(p, answers, j - 1);
    if i + 1 < j {
      ExhaustedUntilReset(p, answers, i, j - 1);
      assert Done(p, answers, j - 1) != ResetCount;
    }
  }

  ghost predicate IsLastReset(p: Policy, answers: seq<Answer>, r: nat, j: nat)
    requires r < j <= |answers|
  {
    Done(p, answers, r) == ResetCount && NoReset(p, answers, r + 1, j)
  }

  /** The last reset before j, at or after i, if there is one. */
  lemma {:induction false} LastReset(p: Policy, answers: seq<Answer>, i: nat, j: nat) returns (r: nat)
    requires i <= j <= |answers| && !NoReset(p, answers, i, j)
    ensures i <= r < j && IsLastReset(p, answers, r, j)
  {
    if Done(p, answers, j - 1) == ResetCount {
      r := j - 1;
    } else {
      r := LastReset(p, answers, i, j - 1);
    }
  }

  lemma ResetBetweenReports(p: Policy, answers: seq<Answer>, i: nat, j: nat)
    requires p.enabled && p.max > 0 && i < j < |answers|
    requires Done(p, answers, i) == ReportExhausted && Done(p, answers, j) == ReportExhausted
    ensures !NoReset(p, answers, i + 1, j)
  {
    if NoReset(p, answers, i + 1, j) {
      ExhaustedUntilReset(p, answers, i, j);
    }
  }

  /**
   * Between two exhaustion reports of one id its counter was reset, and after the
   * last such reset the id was restarted exactly Max times.
   */
  lemma ReportsAreEarned(p: Policy, answers: seq<Answer>, i: nat, j: nat)
    requires p.enabled && p.max > 0 && i < j < |answers|
    requires Done(p, answers, i) == ReportExhausted && Done(p, answers, j) == ReportExhausted
    ensures exists r :: i < r < j && IsLastReset(p, answers, r, j) && Restarts(p, answers, r + 1, j) == p.max
  {
    ResetBetweenReports(p, answers, i, j);
    var r := LastReset(p, answers, i + 1, j);
    CountMoves(p, answers, r);
    CountsRestarts(p, answers, r + 1, j);
    CountWithinBudget(p, answers, j);
  }

  /** The first report comes after exactly Max restarts. */
  lemma FirstReport(p: Policy, answers: seq<Answer>, j: nat)
    requires p.enabled && p.max > 0 && j < |answers| && Done(p, answers, j) == ReportExhausted
    requires NoReset(p, answers, 0, j)
    ensures Restarts(p, answers, 0, j) == p.max
  {
    CountsRestarts(p, answers, 0, j);
    CountWithinBudget(p, answers, j);
    assert answers[..0] == [];
  }

  /** An unlimited budget is never reported exhausted. */
  lemma UnlimitedNeverExhausts(p: Policy, answers: seq<Answer>, k: nat)
    requires p.enabled && p.max <= 0 && k < |answers|
    ensures Done(p, answers, k) != ReportExhausted
  {
    CountWithinBudget(p, answers, k);
  }

  // How often exhaustion is reported.

  /** An unexhausted id that is not reported stays unexhausted. */
  lemma {:induction false} UnreportedStays(p: Policy, answers: seq<Answer>, i: nat, j: nat)
    requires i <= j <= |answers| && !After(p, answers[..i]).exhausted
    requires forall k :: i <= k < j ==> Done(p, answers, k) != ReportExhausted
    ensures !After(p, answers[..j]).exhausted
  {
    if i < j {
      UnreportedStays(p, answers, i, j - 1);
      AfterOneMore(p, answers, j - 1);
      assert Done(p, answers, j - 1) != ReportExhausted;
    }
  }

  /** Under a disabled policy the flag set by a report stands until a healthy tick. */
  lemma {:induction false} DisabledStaysExhausted(p: Policy, answers: seq<Answer>, i: nat, j: nat)
    requires !p.enabled && i < j <= |answers| && Done(p, answers, i) == ReportExhausted
    requires forall k :: i < k < j ==> !Well(answers[k])
    ensures After(p, answers[..j]).exhausted
  {
    AfterOneMore(p, answers, j - 1);
    if i + 1 < j {
      DisabledStaysExhausted(p, answers, i, j - 1);
    }
  }

  /** Under a disabled policy a sick tick after a report reports again exactly when a healthy tick came between. */
  lemma DisabledReportsAgain(p: Policy, answers: seq<Answer>, i: nat, j: nat)
    requires !p.enabled && i < j < |answers| && Done(p, answers, i) == ReportExhausted && Sick(answers[j])
    requires forall k :: i < k < j ==> Done(p, answers, k) != ReportExhausted
    ensures Done(p, answers, j) == ReportExhausted <==> exists k :: i < k < j && Well(answers[k])
  {
    if k :| i < k < j && Well(answers[k]) {
      AfterOneMore(p, answers, k);
      CountWithinBudget(p, answers, k + 1);
      UnreportedStays(p, answers, k + 1, j);
    } else {
      DisabledStaysExhausted(p, answers, i, j);
    }
  }

  /** A sick tick at a time when nothing holds a restart back. */
  function SickAt(now: int): Answer {
    Answer(now, false, false, false, true, 0.0)
  }

  ghost function Later(p: Policy, answers: seq<Answer>): int {
    var last := if answers == [] then 0 else answers[|answers| - 1].now;
    var s := After(p, answers);
    if s.nextAttempt.Some? && s.nextAttempt.value > last then s.nextAttempt.value else last
  }

  lemma OneMoreTick(p: Policy, answers: seq<Answer>, a: Answer)
    requires Monotone(answers) && (answers != [] ==> answers[|answers| - 1].now <= a.now)
    ensures var more := answers + [a];
      && Monotone(more) && After(p, more) == Step(p, After(p, answers), a)
      && Done(p, more, |answers|) == ActionOf(p, After(p, answers), a)
  {
    var more := answers + [a];
    assert more[..|answers|] == answers;
  }

  /** Sick ticks past every deadline use up the budget, and then the id is reported. */
  lemma {:induction false} SickUntilReported(p: Policy, answers: seq<Answer>) returns (more: seq<Answer>)
    requires p.enabled && p.max > 0 && Monotone(answers) && !After(p, answers).exhausted
    ensures answers < more && Monotone(more) && Done(p, more, |more| - 1) == ReportExhausted
    ensures !After(p, more).counter.initialized
    decreases p.max - After(p, answers).counter.count
  {
    assert answers[..|answers|] == answers;
    CountWithinBudget(p, answers, |answers|);
    var a := SickAt(Later(p, answers));
    OneMoreTick(p, answers, a);
    more := answers + [a];
    if After(p, answers).counter.count < p.max {
      more := SickUntilReported(p, more);
    }
  }

  /** Two healthy ticks a window apart reset the counter and make room for the next report. */
  lemma WellUntilReset(p: Policy, answers: seq<Answer>) returns (more: seq<Answer>)
    requires Monotone(answers) && !After(p, answers).counter.initialized && After(p, answers).counter.healthyFor == 0
    ensures answers < more && Monotone(more) && !After(p, more).exhausted
  {
    var now := Later(p, answers);
    OneMoreTick(p, answers, Healthy(now));
    OneMoreTick(p, answers + [Healthy(now)], Healthy(now + Window(p)));
    more := answers + [Healthy(now)] + [Healthy(now + Window(p))];
  }

  /** An id reported twice in one run. */
  ghost predicate ReportedTwice(p: Policy, answers: seq<Answer>, i: nat, j: nat) {
    i < j < |answers| && Done(p, answers, i) == ReportExhausted && Done(p, answers, j) == ReportExhausted
  }

  /** Every limited policy has a run that reports an id twice. */
  lemma ReportsCanRepeat(p: Policy) returns (answers: seq<Answer>, i: nat, j: nat)
    requires p.enabled && p.max > 0
    ensures Monotone(answers) && ReportedTwice(p, answers, i, j)
  {
    var first := SickUntilReported(p, []);
    HealthyTimeIsEarned(p, first);
    var well := WellUntilReset(p, first);
    answers := SickUntilReported(p, well);
    i, j := |first| - 1, |answers| - 1;
    assert answers[..i] == well[..i] == first[..i] && answers[i] == well[i] == first[i];
  }

  lemma DisabledRun(p: Policy) returns (run: seq<Answer>)
    requires !p.enabled
    ensures Monotone(run) && ReportedTwice(p, run, 0, 2) && NoReset(p, run, 1, 2)
  {
    run := [SickAt(0), Healthy(0), SickAt(0)];
    AfterOneMore(p, run, 0);
    AfterOneMore(p, run, 1);
    assert run[..0] == [];
  }

  /** That a reset lies between any two reports of an id, in every run, holds exactly for the enabled policies. */
  lemma ResetBetweenReportsIff(p: Policy)
    ensures (forall answers, i: nat, j: nat :: ReportedTwice(p, answers, i, j) ==> !NoReset(p, answers, i + 1, j)) <==> p.enabled
  {
    if p.enabled {
      forall answers, i: nat, j: nat | ReportedTwice(p, answers, i, j) ensures !NoReset(p, answers, i + 1, j) {
        if p.max > 0 {
          ResetBetweenReports(p, answers, i, j);
        } else {
          UnlimitedNeverExhausts(p, answers, i);
        }
      }
    } else {
      var run := DisabledRun(p);
      assert ReportedTwice(p, run, 0, 2);
    }
  }

  /** That an id is reported at most once, in every run, holds exactly where it is never reported. */
  lemma ReportedOnceIff(p: Policy)
    ensures (forall answers, i: nat, j: nat :: !ReportedTwice(p, answers, i, j)) <==> p.enabled && p.max <= 0
  {
    if !p.enabled {
      var run := DisabledRun(p);
      assert ReportedTwice(p, run, 0, 2);
    } else if p.max > 0 {
      var answers, i, j := ReportsCanRepeat(p);
      assert ReportedTwice(p, answers, i, j);
    } else {
      forall answers, i: nat, j: nat ensures !ReportedTwice(p, answers, i, j) {
        if ReportedTwice(p, answers, i, j) {
          UnlimitedNeverExhausts(p, answers, i);
        }
      }
    }
  }
}
