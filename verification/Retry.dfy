/** Retrying with exponential backoff (src/monitoring/error-handling.ts, calculateBackoffDelay,
    withRetry, isTransientError). Times are reals; `random(k)` is the random number drawn for the
    k-th delay. */
module Retry {
  import opened Wrappers

  datatype Config = Config(maxRetries: int, initialDelayMs: real, maxDelayMs: real, backoffMultiplier: real, jitter: bool)

  /** What one run of the operation did; `retryable` is false only if the error says so. */
  datatype Attempt<T> = Ok(value: T) | Err(message: string, retryable: bool)

  function Lower(s: string): string {
    seq(|s|, i requires 0 <= i < |s| =>
      if 'A' <= s[i] <= 'Z' then (s[i] as int - 'A' as int + 'a' as int) as char else s[i])
  }

  predicate StartsAt(s: string, part: string, i: nat) {
    i + |part| <= |s| && s[i..i + |part|] == part
  }

  predicate Includes(s: string, part: string) {
    exists i :: 0 <= i <= |s| && StartsAt(s, part, i)
  }

  const TRANSIENT_MARKS: seq<string> := ["econnrefused", "enotfound", "etimedout", "500", "502", "503", "504",
                                         "429", "rate limit", "timeout", "timed out"]

  predicate IsTransientError(message: string) {
    exists mark <- TRANSIENT_MARKS :: Includes(Lower(message), mark)
  }

  function Pow(b: real, n: nat): real {
    if n == 0 then 1.0 else b * Pow(b, n - 1)
  }

  function Min(a: real, b: real): real {
    if a <= b then a else b
  }

  /** The delay before jitter. */
  function Growing(initial: real, b: real): nat -> real {
    (k: nat) => initial * Pow(b, k)
  }

  function Jitter(jitter: bool, delay: real, random: real): real {
    if jitter then delay * (0.5 + random * 0.5) else delay
  }

  /** calculateBackoffDelay */
  function Delay(c: Config, attempt: nat, random: real): real {
    Jitter(c.jitter, Min(Growing(c.initialDelayMs, c.backoffMultiplier)(attempt), c.maxDelayMs), random)
  }

  /** The attempt with number `k` is the last one. */
  predicate Stops<T>(c: Config, op: nat -> Attempt<T>, k: nat) {
    op(k).Ok? || !op(k).retryable || k >= c.maxRetries || !IsTransientError(op(k).message)
  }

  /** The sum of the first `n` values. */
  function Total(f: nat -> real, n: nat): real {
    if n == 0 then 0.0 else Total(f, n - 1) + f(n - 1)
  }

  /** The delay after each failed attempt. */
  function Delays(c: Config, random: nat -> real): nat -> real {
    (k: nat) => Delay(c, k, random(k))
  }

  /** withRetry: the result, how often the operation ran, and the total time slept. With a negative
      `maxRetries` the operation never runs. */
  method WithRetry<T>(c: Config, op: nat -> Attempt<T>, random: nat -> real, operationName: string)
    returns (result: Attempt<T>, runs: nat, slept: real)
    ensures c.maxRetries < 0 ==> result.Err? && runs == 0 && slept == 0.0
    ensures c.maxRetries >= 0 ==>
              1 <= runs <= c.maxRetries + 1 && result == op(runs - 1) &&
              Stops(c, op, runs - 1) && (forall k: nat :: k < runs - 1 ==> !Stops(c, op, k)) &&
              slept == Total(Delays(c, random), runs - 1)
    ensures c.maxRetries >= 0 && result.Err? && result.retryable && IsTransientError(result.message) ==> runs == c.maxRetries + 1
  {
    runs, slept := 0, 0.0;
    while runs <= c.maxRetries
      invariant c.maxRetries >= 0 ==> runs <= c.maxRetries
      invariant c.maxRetries < 0 ==> runs == 0
      invariant forall k: nat :: k < runs ==> !Stops(c, op, k)
      invariant slept == Total(Delays(c, random), runs)
      decreases c.maxRetries - runs
    {
      result := op(runs);
      runs := runs + 1;
      if result.Ok? { return; }
      if !(result.retryable && runs - 1 < c.maxRetries && IsTransientError(result.message)) { return; }
      slept := slept + Delay(c, runs - 1, random(runs - 1));
    }
    result := Err(operationName + " failed", true);
  }

  /** Delays that make sense. */
  ghost predicate Sane(c: Config, random: nat -> real) {
    0.0 <= c.initialDelayMs && 0.0 <= c.maxDelayMs && 0.0 <= c.backoffMultiplier &&
    forall k: nat :: 0.0 <= random(k) < 1.0
  }

  lemma {:induction false} PowNonNegative(b: real, n: nat)
    requires 0.0 <= b
    ensures 0.0 <= Pow(b, n)
  {
    if n == 0 {
    } else {
      PowNonNegative(b, n - 1);
    }
  }

  lemma Product(x: real, y: real)
    requires 0.0 <= x && 0.0 <= y
    ensures 0.0 <= x * y
  {
  }

  /** Jitter only shortens a delay. */
  lemma JitterShortens(jitter: bool, d: real, r: real)
    requires 0.0 <= d && 0.0 <= r < 1.0
    ensures 0.0 <= Jitter(jitter, d, r) <= d
  {
    var f := 0.5 + r * 0.5;
    Product(d, f);
    Product(d, 1.0 - f);
    assert d * (1.0 - f) == d - d * f;
  }

  lemma GrowingNonNegative(initial: real, b: real, k: nat)
    requires 0.0 <= initial && 0.0 <= b
    ensures 0.0 <= Growing(initial, b)(k)
  {
    PowNonNegative(b, k);
    Product(initial, Pow(b, k));
  }

  /** A delay is never longer than its exponential value or the maximum, jitter included. */
  lemma DelayBounded(c: Config, random: nat -> real, k: nat)
    requires Sane(c, random)
    ensures 0.0 <= Delays(c, random)(k) <= Min(Growing(c.initialDelayMs, c.backoffMultiplier)(k), c.maxDelayMs)
  {
    GrowingNonNegative(c.initialDelayMs, c.backoffMultiplier, k);
    JitterShortens(c.jitter, Min(Growing(c.initialDelayMs, c.backoffMultiplier)(k), c.maxDelayMs), random(k));
  }

  lemma {:induction false} TotalMonotone(f: nat -> real, g: nat -> real, n: nat)
    requires forall k: nat :: k < n ==> f(k) <= g(k)
    ensures Total(f, n) <= Total(g, n)
  {
    if n == 0 {
    } else {
      TotalMonotone(f, g, n - 1);
    }
  }

  function Constant(x: real): nat -> real {
    (k: nat) => x
  }

  lemma {:induction false} ConstantTotal(x: real, n: nat)
    ensures Total(Constant(x), n) == n as real * x
  {
    if n == 0 {
    } else {
      ConstantTotal(x, n - 1);
      assert n as real * x == (n - 1) as real * x + x;
    }
  }

  /** `t` is the geometric sum `initial * (p - 1) / (b - 1)`, without the division. */
  ghost predicate IsSum(initial: real, b: real, p: real, t: real) {
    t * (b - 1.0) == initial * (p - 1.0)
  }

  ghost predicate WithinSum(initial: real, b: real, p: real, t: real) {
    t * (b - 1.0) <= initial * (p - 1.0)
  }

  /** `initial * (1 + b + ... + b^(n-1))` is the geometric sum for `p = b^n`. */
  lemma {:induction false} GeometricTotal(initial: real, b: real, n: nat)
    ensures IsSum(initial, b, Pow(b, n), Total(Growing(initial, b), n))
  {
    if n == 0 {
    } else {
      GeometricTotal(initial, b, n - 1);
      GeometricStep(initial, b, Pow(b, n - 1), Total(Growing(initial, b), n - 1));
    }
  }

  lemma GeometricStep(initial: real, b: real, p: real, s: real)
    requires IsSum(initial, b, p, s)
    ensures IsSum(initial, b, b * p, s + initial * p)
  {
    var q := initial * p;
    assert (s + q) * (b - 1.0) == s * (b - 1.0) + q * (b - 1.0);
    assert q * (b - 1.0) == q * b - q;
    assert q * b == initial * (b * p);
  }

  /** Retry bound: whatever the jitter, the delays of at most `maxRetries` retries add up to at most
      `maxRetries` maximal delays, */
  lemma LinearBound(c: Config, random: nat -> real, n: nat)
    requires Sane(c, random) && n <= c.maxRetries
    ensures Total(Delays(c, random), n) <= c.maxRetries as real * c.maxDelayMs
  {
    var top := Constant(c.maxDelayMs);
    forall k: nat | k < n ensures Delays(c, random)(k) <= top(k) { DelayBounded(c, random, k); }
    TotalMonotone(Delays(c, random), top, n);
    ConstantTotal(c.maxDelayMs, n);
    Product((c.maxRetries - n) as real, c.maxDelayMs);
    assert c.maxRetries as real * c.maxDelayMs == n as real * c.maxDelayMs + (c.maxRetries - n) as real * c.maxDelayMs;
  }

  /** and, for a multiplier above one, those of `n` retries to at most the geometric sum
      `initial * (b^n - 1) / (b - 1)`. */
  lemma GeometricBound(c: Config, random: nat -> real, n: nat)
    requires Sane(c, random) && c.backoffMultiplier > 1.0
    ensures WithinSum(c.initialDelayMs, c.backoffMultiplier, Pow(c.backoffMultiplier, n), Total(Delays(c, random), n))
  {
    var b, grow := c.backoffMultiplier, Growing(c.initialDelayMs, c.backoffMultiplier);
    ExponentialBound(c, random, n);
    GeometricTotal(c.initialDelayMs, b, n);
    Below(c.initialDelayMs, b, Pow(b, n), Total(Delays(c, random), n), Total(grow, n));
  }

  lemma ExponentialBound(c: Config, random: nat -> real, n: nat)
    requires Sane(c, random)
    ensures Total(Delays(c, random), n) <= Total(Growing(c.initialDelayMs, c.backoffMultiplier), n)
  {
    var grow := Growing(c.initialDelayMs, c.backoffMultiplier);
    forall k: nat | k < n ensures Delays(c, random)(k) <= grow(k) { DelayBounded(c, random, k); }
    TotalMonotone(Delays(c, random), grow, n);
  }

  lemma Below(initial: real, b: real, p: real, t: real, sum: real)
    requires b > 1.0 && t <= sum && IsSum(initial, b, p, sum)
    ensures WithinSum(initial, b, p, t)
  {
    Product(sum - t, b - 1.0);
    assert (sum - t) * (b - 1.0) == sum * (b - 1.0) - t * (b - 1.0);
  }

  /** The result is a success exactly if one of the runs was, and then it is the first one. */
  lemma FirstSuccess<T>(c: Config, op: nat -> Attempt<T>, runs: nat)
    requires 1 <= runs && Stops(c, op, runs - 1) && forall k: nat :: k < runs - 1 ==> !Stops(c, op, k)
    ensures op(runs - 1).Ok? <==> exists k: nat :: k < runs && op(k).Ok?
    ensures forall k: nat :: k < runs - 1 ==> op(k).Err? && op(k).retryable && IsTransientError(op(k).message)
  {
    forall k: nat | k < runs - 1 ensures op(k).Err? && op(k).retryable && IsTransientError(op(k).message) {
      assert !Stops(c, op, k);
    }
  }

  // ---- What delays and errors mean --------------------------------------------------------------

  /** Without jitter the delay is the exponential value, or the maximum if that is smaller; with
      jitter it is between half of that and all of it, growing evenly with the random number. */
  lemma DelayMeans(c: Config, random: nat -> real, k: nat)
    requires Sane(c, random)
    ensures
      var exponential := c.initialDelayMs * Pow(c.backoffMultiplier, k);
      var full := if exponential <= c.maxDelayMs then exponential else c.maxDelayMs;
      Delays(c, random)(k) == if c.jitter then full * (0.5 + random(k) * 0.5) else full
  {
    hide Pow;
  }

  lemma PowMeans(b: real, n: nat)
    ensures Pow(b, 0) == 1.0 && Pow(b, 1) == b && Pow(b, n + 1) == b * Pow(b, n) && Pow(b, 3) == b * (b * b)
  {
    assert Pow(b, 1) == b * Pow(b, 0);
    assert Pow(b, 2) == b * Pow(b, 1);
    assert Pow(b, 3) == b * Pow(b, 2);
  }

  /** `a` is `b`, except that letters may be capitals. */
  predicate SameButCase(a: string, b: string) {
    |a| == |b| &&
    forall i :: 0 <= i < |a| ==>
      !('A' <= b[i] <= 'Z') && (a[i] == b[i] || ('a' <= b[i] <= 'z' && a[i] as int == b[i] as int - 32))
  }

  /** An error is transient if one of these marks stands anywhere in its text, in capitals or not. */
  lemma TransientMarks(pre: string, text: string, mark: string, post: string)
    requires SameButCase(text, mark)
    requires
      mark in ["econnrefused", "enotfound", "etimedout", "500", "502", "503", "504", "429", "rate limit", "timeout", "timed out"]
    ensures IsTransientError(pre + text + post)
  {
    var s := Lower(pre + text + post);
    LowerAppend(pre, text, post);
    assert Lower(text) == mark;
    assert StartsAt(s, mark, |pre|);
    assert mark in TRANSIENT_MARKS;
  }

  lemma LowerAppend(a: string, b: string, c: string)
    ensures |Lower(a)| == |a| && Lower(a + b + c) == Lower(a) + Lower(b) + Lower(c)
  {
  }

  /** A short text without a mark is not transient. */
  lemma NotTransient()
    ensures !IsTransientError("no") && !IsTransientError("")
  {
    forall mark | mark in TRANSIENT_MARKS ensures |mark| >= 3 {
    }
  }
}
