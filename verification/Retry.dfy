/**
 Retries with exponential backoff, internal/retry/retry.go. Delays are computed over the rationals;
 the function called, the context and the random numbers are parameters.
 */
module Retry {
  import opened Common

  /** Durations are whole nanoseconds. */
  datatype Config = Config(maxRetries: int, initialDelay: int, maxDelay: int, multiplier: real, jitter: real)

  datatype Error = Failure(code: int, retryable: bool) | ContextEnded

  datatype Reply<V> = Value(value: V) | Fail(error: Error)

  /** The zero Result has no value, no attempts and no error. */
  datatype Result<V> = Result(value: Option<V>, attempts: nat, err: Option<Error>)

  function IsRetryable(e: Error): bool { e.Failure? && e.retryable }

  // ---- delays ----

  function Pow(b: real, n: nat): real { if n == 0 then 1.0 else Pow(b, n - 1) * b }

  /** The delay before jitter. */
  function BaseDelay(cfg: Config, attempt: nat): real {
    var delay := cfg.initialDelay as real * Pow(cfg.multiplier, attempt);
    if delay > cfg.maxDelay as real then cfg.maxDelay as real else delay
  }

  function Truncated(x: real): int { if x >= 0.0 then x.Floor else -(-x).Floor }

  /** `u` is what rand.Float64() returns. */
  function Shaken(delay: real, range: real, u: real): real { delay - range + u * range * 2.0 }

  function Jittered(delay: real, jitter: real, u: real): real {
    if jitter > 0.0 then Shaken(delay, delay * jitter, u) else delay
  }

  function Delay(cfg: Config, attempt: nat, u: real): int {
    Truncated(Jittered(BaseDelay(cfg, attempt), cfg.jitter, u))
  }

  function Delays(cfg: Config, draw: nat -> real): nat -> int { (j: nat) => Delay(cfg, j, draw(j)) }

  /** The first n delays together. */
  function Sum(d: nat -> int, n: nat): int { if n == 0 then 0 else Sum(d, n - 1) + d(n - 1) }

  /** What configurations promise; jitter is documented as lying between 0 and 1. */
  predicate Sensible(cfg: Config) {
    cfg.initialDelay >= 0 && cfg.maxDelay >= 0 && cfg.multiplier >= 1.0 && 0.0 <= cfg.jitter <= 1.0
  }

  /** The longest a single sleep can be. */
  function Cap(cfg: Config): real { cfg.maxDelay as real * (1.0 + cfg.jitter) }

  predicate Draws(draw: nat -> real, n: nat) { forall j :: 0 <= j < n ==> 0.0 <= draw(j) < 1.0 }

  lemma MulMono(a: real, x: real, y: real)
    requires a >= 0.0 && x <= y
    ensures a * x <= a * y
  {}

  lemma {:induction false} PowAtLeastOne(b: real, n: nat)
    requires b >= 1.0
    ensures Pow(b, n) >= 1.0
  {
    if n == 0 {
    } else {
      PowAtLeastOne(b, n - 1);
      MulMono(Pow(b, n - 1), 1.0, b);
    }
  }

  lemma PowGrows(b: real, n: nat)
    requires b >= 1.0
    ensures 1.0 <= Pow(b, n) <= Pow(b, n + 1)
  {
    PowAtLeastOne(b, n);
    MulMono(Pow(b, n), 1.0, b);
  }

  lemma BaseGrowsOnce(cfg: Config, n: nat)
    requires Sensible(cfg)
    ensures 0.0 <= BaseDelay(cfg, n) <= BaseDelay(cfg, n + 1) <= cfg.maxDelay as real
  {
    var d, p, q := cfg.initialDelay as real, Pow(cfg.multiplier, n), Pow(cfg.multiplier, n + 1);
    PowGrows(cfg.multiplier, n);
    MulMono(d, 0.0, p);
    MulMono(d, p, q);
  }

  /** The first delay is the initial one, and each next is `multiplier` times the one before, up to the cap. */
  lemma BackoffMultiplies(cfg: Config, n: nat)
    requires cfg.maxDelay >= 0
    ensures BaseDelay(cfg, 0) == Min(cfg.initialDelay, cfg.maxDelay) as real
    ensures BaseDelay(cfg, n) <= cfg.maxDelay as real
    ensures BaseDelay(cfg, n) < cfg.maxDelay as real ==>
              var next := BaseDelay(cfg, n) * cfg.multiplier;
              BaseDelay(cfg, n + 1) == if next <= cfg.maxDelay as real then next else cfg.maxDelay as real
  {
    var d, p, m := cfg.initialDelay as real, Pow(cfg.multiplier, n), cfg.multiplier;
    assert d * 1.0 == d;
    assert d * (p * m) == (d * p) * m;
  }

  /** Without jitter the delays never shrink, never exceed the cap, and stay there once they reach it. */
  lemma {:induction false} BackoffGrows(cfg: Config, n: nat, m: nat)
    requires Sensible(cfg) && n <= m
    ensures 0.0 <= BaseDelay(cfg, n) <= BaseDelay(cfg, m) <= cfg.maxDelay as real
    ensures BaseDelay(cfg, n) == cfg.maxDelay as real ==> BaseDelay(cfg, m) == BaseDelay(cfg, n)
    decreases m - n
  {
    BaseGrowsOnce(cfg, n);
    if n < m { BackoffGrows(cfg, n + 1, m); }
  }

  lemma ShakenInBand(delay: real, range: real, u: real)
    requires 0.0 <= range && 0.0 <= u < 1.0
    ensures delay - range <= Shaken(delay, range, u) <= delay + range
  {
    MulMono(range, 0.0, u);
    MulMono(range, u, 1.0);
    assert u * range == range * u;
  }

  lemma ShareOf(delay: real, jitter: real)
    requires delay >= 0.0 && 0.0 <= jitter <= 1.0
    ensures 0.0 <= delay * jitter <= delay
  {
    MulMono(delay, 0.0, jitter);
    MulMono(delay, jitter, 1.0);
  }

  /** Jitter moves a delay by at most its own share, down or up. */
  lemma JitterStaysInBand(delay: real, jitter: real, u: real)
    requires delay >= 0.0 && 0.0 <= jitter <= 1.0 && 0.0 <= u < 1.0
    ensures 0.0 <= delay - delay * jitter <= Jittered(delay, jitter, u) <= delay + delay * jitter
  {
    ShareOf(delay, jitter);
    ShakenInBand(delay, delay * jitter, u);
  }

  /** And it may move it anywhere there: each delay of the band is drawn by one random number. */
  lemma JitterReachesTheBand(delay: real, jitter: real, x: real) returns (u: real)
    requires delay > 0.0 && 0.0 < jitter <= 1.0
    requires delay - delay * jitter <= x < delay + delay * jitter
    ensures 0.0 <= u < 1.0 && Jittered(delay, jitter, u) == x
    ensures forall v: real :: Jittered(delay, jitter, v) == x ==> v == u
  {
    var range := delay * jitter;
    assert range > 0.0;
    u := (x - (delay - range)) / (2.0 * range);
    assert u * (2.0 * range) == x - (delay - range);
    assert u * range * 2.0 == u * (2.0 * range);
    Quotient(x - (delay - range), 2.0 * range, u);
    forall v: real | Jittered(delay, jitter, v) == x ensures v == u { SameProduct(v, u, range); }
  }

  lemma Quotient(a: real, b: real, u: real)
    requires b > 0.0 && 0.0 <= a < b && u * b == a
    ensures 0.0 <= u < 1.0
  {}

  lemma SameProduct(u: real, v: real, b: real)
    requires b > 0.0 && u * b * 2.0 == v * b * 2.0
    ensures u == v
  {
    assert (u - v) * b == 0.0;
  }

  /** Fractions of a nanosecond are dropped. */
  lemma WholeNanoseconds(cfg: Config, attempt: nat, u: real)
    requires Sensible(cfg) && 0.0 <= u < 1.0
    ensures var exact := Jittered(BaseDelay(cfg, attempt), cfg.jitter, u);
            Delay(cfg, attempt, u) as real <= exact < Delay(cfg, attempt, u) as real + 1.0
  {
    BackoffGrows(cfg, attempt, attempt);
    JitterStaysInBand(BaseDelay(cfg, attempt), cfg.jitter, u);
  }

  lemma DelayBound(cfg: Config, attempt: nat, u: real)
    requires Sensible(cfg) && 0.0 <= u < 1.0
    ensures 0 <= Delay(cfg, attempt, u)
    ensures Delay(cfg, attempt, u) as real <= Cap(cfg)
  {
    var base := BaseDelay(cfg, attempt);
    BackoffGrows(cfg, attempt, attempt);
    JitterStaysInBand(base, cfg.jitter, u);
    ShareGrows(base, cfg.maxDelay as real, cfg.jitter);
  }

  lemma ShareGrows(x: real, y: real, jitter: real)
    requires x <= y && jitter >= 0.0
    ensures x + x * jitter <= y * (1.0 + jitter)
  {
    MulMono(jitter, x, y);
    assert y * (1.0 + jitter) == y + y * jitter;
  }

  function Times(n: nat, x: real): real { if n == 0 then 0.0 else Times(n - 1, x) + x }

  lemma {:induction false} TimesIsProduct(n: nat, x: real)
    ensures Times(n, x) == n as real * x
  {
    if n == 0 {
    } else {
      TimesIsProduct(n - 1, x);
      assert n as real * x == (n - 1) as real * x + x;
    }
  }

  /** The time x is at most n times cap. */
  predicate AtMost(x: int, n: nat, cap: real) { 0 <= x && x as real <= n as real * cap }

  ghost predicate Capped(d: nat -> int, n: nat, cap: real) {
    cap >= 0.0 && forall j: nat :: j < n ==> 0 <= d(j) && d(j) as real <= cap
  }

  lemma {:induction false} SumBound(d: nat -> int, n: nat, m: nat, cap: real)
    requires Capped(d, n, cap) && n <= m
    ensures 0.0 <= Sum(d, n) as real <= Times(m, cap)
    decreases m
  {
    if n < m {
      SumBound(d, n, m - 1, cap);
    } else if n > 0 {
      SumBound(d, n - 1, m - 1, cap);
    }
  }

  lemma DelaysAreCapped(cfg: Config, draw: nat -> real, n: nat)
    requires Sensible(cfg) && Draws(draw, n)
    ensures Capped(Delays(cfg, draw), n, Cap(cfg))
  {
    MulMono(cfg.maxDelay as real, 0.0, 1.0 + cfg.jitter);
    forall j: nat | j < n ensures 0 <= Delays(cfg, draw)(j) && Delays(cfg, draw)(j) as real <= Cap(cfg) {
      DelayBound(cfg, j, draw(j));
    }
  }

  lemma SleepsBelow(cfg: Config, draw: nat -> real, n: nat, m: nat)
    requires Sensible(cfg) && Draws(draw, n) && n <= m
    ensures AtMost(Sum(Delays(cfg, draw), n), m, Cap(cfg))
  {
    DelaysAreCapped(cfg, draw, n);
    SumBelow(Delays(cfg, draw), n, m, Cap(cfg));
  }

  lemma SumBelow(d: nat -> int, n: nat, m: nat, cap: real)
    requires Capped(d, n, cap) && n <= m
    ensures AtMost(Sum(d, n), m, cap)
  {
    SumBound(d, n, m, cap);
    TimesIsProduct(m, cap);
  }

  // ---- the loop ----

  /**
   What the loop meets: `reply(k)` is what fn returns on attempt k, `ended(k)` says the context is
   over when attempt k begins, `interrupted(k)` that it ends during the sleep after attempt k.
   */
  datatype World<!V> = World(reply: nat -> Reply<V>, ended: nat -> bool, interrupted: nat -> bool, draw: nat -> real)

  predicate Retries<V>(cfg: Config, w: World<V>, k: nat) {
    !w.ended(k) && w.reply(k).Fail? && IsRetryable(w.reply(k).error) && k < cfg.maxRetries
  }

  /** Attempt k is followed by attempt k + 1. */
  predicate GoesOn<V>(cfg: Config, w: World<V>, k: nat) { Retries(cfg, w, k) && !w.interrupted(k) }

  ghost predicate StopsAt<V>(cfg: Config, w: World<V>, k: nat) {
    k <= cfg.maxRetries && !GoesOn(cfg, w, k) && forall j :: 0 <= j < k ==> GoesOn(cfg, w, j)
  }

  /** What the attempt that ended the loop left behind. */
  function Verdict<V>(cfg: Config, w: World<V>, k: nat): Result<V> {
    if w.ended(k) then Result(None, k + 1, Some(ContextEnded))
    else if w.reply(k).Value? then Result(Some(w.reply(k).value), k + 1, None)
    else if Retries(cfg, w, k) then Result(None, k + 1, Some(ContextEnded))
    else Result(None, k + 1, Some(w.reply(k).error))
  }

  predicate UpTo(calls: seq<nat>, n: nat) { |calls| == n && forall i :: 0 <= i < n ==> calls[i] == i }

  /** `calls` lists the attempts fn was called for, `slept` adds up the delays waited for. */
  method Do<V>(cfg: Config, w: World<V>) returns (result: Result<V>, calls: seq<nat>, slept: int, ghost k: nat)
    ensures cfg.maxRetries < 0 ==> result == Result(None, 0, None) && calls == [] && slept == 0
    ensures cfg.maxRetries >= 0 ==>
              && StopsAt(cfg, w, k) && result == Verdict(cfg, w, k)
              && UpTo(calls, if w.ended(k) then k else k + 1)
              && result.attempts == |calls| + (if w.ended(k) then 1 else 0) <= cfg.maxRetries + 1
              && (result.err.None? ==> calls != [] && w.reply(|calls| - 1).Value?
                                       && result.value == Some(w.reply(|calls| - 1).value))
              && (result.err.Some? ==> result.value.None?)
              && slept == Sum(Delays(cfg, w.draw), Sleeps(cfg, w, k))
  {
    result, calls, slept, k := Result(None, 0, None), [], 0, 0;
    var lastErr := None;
    var attempt := 0;
    while attempt <= cfg.maxRetries
      invariant cfg.maxRetries < 0 ==> attempt == 0
      invariant cfg.maxRetries >= 0 ==> attempt <= cfg.maxRetries + 1
      invariant UpTo(calls, attempt)
      invariant forall j :: 0 <= j < attempt && j < cfg.maxRetries ==> GoesOn(cfg, w, j)
      invariant attempt <= cfg.maxRetries ==> slept == Sum(Delays(cfg, w.draw), attempt)
      invariant result == Result(None, attempt, None) && k == if attempt == 0 then 0 else attempt - 1
      invariant attempt == 0 ==> slept == 0 && lastErr.None?
      invariant attempt > cfg.maxRetries >= 0 ==>
                  && !w.ended(k) && w.reply(k).Fail? && IsRetryable(w.reply(k).error)
                  && lastErr == Some(w.reply(k).error)
                  && slept == Sum(Delays(cfg, w.draw), k)
    {
      result, k := result.(attempts := attempt + 1), attempt;
      if w.ended(attempt) {
        result := result.(err := Some(ContextEnded));
        return;
      }
      calls := calls + [attempt];
      match w.reply(attempt) {
        case Value(value) =>
          result := result.(value := Some(value));
          return;
        case Fail(err) =>
          lastErr := Some(err);
          if !IsRetryable(err) {
            result := result.(err := Some(err));
            return;
          }
      }
      if attempt < cfg.maxRetries {
        slept := slept + Delay(cfg, attempt, w.draw(attempt));
        if w.interrupted(attempt) {
          result := result.(err := Some(ContextEnded));
          return;
        }
      }
      attempt := attempt + 1;
    }
    result := result.(err := lastErr);
  }

  /** Where the loop stops: after failures worth retrying, at the first reply, end or limit that says so. */
  lemma StopsWhere<V>(cfg: Config, w: World<V>, k: nat)
    ensures StopsAt(cfg, w, k) <==>
            && k <= cfg.maxRetries
            && (forall j: nat :: j < k ==> !w.ended(j) && w.reply(j).Fail? && IsRetryable(w.reply(j).error)
                                           && !w.interrupted(j))
            && (w.ended(k) || w.interrupted(k) || k == cfg.maxRetries
                || w.reply(k).Value? || !IsRetryable(w.reply(k).error))
  {
    forall j: nat | j < k && k <= cfg.maxRetries
      ensures GoesOn(cfg, w, j)
         <==> !w.ended(j) && w.reply(j).Fail? && IsRetryable(w.reply(j).error) && !w.interrupted(j)
    {}
  }

  lemma StopIsUnique<V>(cfg: Config, w: World<V>, k: nat, l: nat)
    requires StopsAt(cfg, w, k) && StopsAt(cfg, w, l)
    ensures k == l
  {
    assert k < l ==> GoesOn(cfg, w, k);
    assert l < k ==> GoesOn(cfg, w, l);
  }

  /** A call succeeds exactly when some attempt does and everything before it was a failure worth retrying. */
  lemma SucceedsIff<V>(cfg: Config, w: World<V>, k: nat)
    requires StopsAt(cfg, w, k)
    ensures Verdict(cfg, w, k).err.None? <==>
            exists i :: 0 <= i <= cfg.maxRetries && !w.ended(i) && w.reply(i).Value?
                        && forall j :: 0 <= j < i ==> GoesOn(cfg, w, j)
  {
    forall i | 0 <= i <= cfg.maxRetries && !w.ended(i) && w.reply(i).Value?
               && (forall j :: 0 <= j < i ==> GoesOn(cfg, w, j))
      ensures i == k
    {
      StopIsUnique(cfg, w, k, i);
    }
  }

  /** The error returned: the context's if that ended first, else the first one not worth retrying, else the last. */
  lemma ErrorReturned<V>(cfg: Config, w: World<V>, k: nat, e: Error)
    requires StopsAt(cfg, w, k) && Verdict(cfg, w, k).err == Some(e)
    ensures e == ContextEnded ==> w.ended(k) || w.interrupted(k) || w.reply(k) == Fail(ContextEnded)
    ensures e != ContextEnded ==>
              && w.reply(k) == Fail(e) && (!IsRetryable(e) || k == cfg.maxRetries)
              && forall j :: 0 <= j < k ==> w.reply(j).Fail? && IsRetryable(w.reply(j).error)
  {
    forall j | 0 <= j < k ensures w.reply(j).Fail? && IsRetryable(w.reply(j).error) { assert GoesOn(cfg, w, j); }
  }

  /** How many sleeps there are when attempt k ends the loop. */
  function Sleeps<V>(cfg: Config, w: World<V>, k: nat): nat { if Retries(cfg, w, k) then k + 1 else k }

  lemma SleepsAtMost<V>(cfg: Config, w: World<V>, k: nat)
    requires StopsAt(cfg, w, k)
    ensures Sleeps(cfg, w, k) <= cfg.maxRetries
  {}

  /** The whole call sleeps at most MaxRetries times MaxDelay * (1 + Jitter). */
  lemma SleepBound<V>(cfg: Config, w: World<V>, k: nat)
    requires Sensible(cfg) && Draws(w.draw, Sleeps(cfg, w, k)) && StopsAt(cfg, w, k)
    ensures AtMost(Sum(Delays(cfg, w.draw), Sleeps(cfg, w, k)), cfg.maxRetries, Cap(cfg))
  {
    SleepsAtMost(cfg, w, k);
    SleepsBelow(cfg, w.draw, Sleeps(cfg, w, k), cfg.maxRetries);
  }

  // ---- the object ----

  class Backoff {
    const cfg: Config
    var attempt: nat

    constructor (cfg: Config)
      ensures this.cfg == cfg && attempt == 0
    {
      this.cfg, attempt := cfg, 0;
    }

    method Next(u: real) returns (delay: int)
      modifies this
      ensures delay == Delay(cfg, old(attempt), u) && attempt == old(attempt) + 1
      ensures Sensible(cfg) && 0.0 <= u < 1.0 ==> 0 <= delay && delay as real <= Cap(cfg)
    {
      if Sensible(cfg) && 0.0 <= u < 1.0 { DelayBound(cfg, attempt, u); }
      delay := Delay(cfg, attempt, u);
      attempt := attempt + 1;
    }

    /** n calls in a row after a Reset wait exactly as long as the first n sleeps of Do, at most n times the cap. */
    method NextTimes(n: nat, draw: nat -> real) returns (total: int)
      modifies this
      ensures attempt == n && total == Sum(Delays(cfg, draw), n)
      ensures Sensible(cfg) && Draws(draw, n) ==> AtMost(total, n, Cap(cfg))
    {
      Reset();
      total := 0;
      for j := 0 to n
        invariant attempt == j && total == Sum(Delays(cfg, draw), j)
      {
        var delay := Next(draw(j));
        total := total + delay;
      }
      if Sensible(cfg) && Draws(draw, n) { SleepsBelow(cfg, draw, n, n); }
    }

    method Reset()
      modifies this
      ensures attempt == 0
    {
      attempt := 0;
    }
  }
}
