/**
 The default retry policy: what is retried, and how long to wait.  Durations are
 int64 nanoseconds; the exponential part is over the reals, with the jitter a
 parameter in [-0.5, 0.5).
 */
module RetryPolicy {
  import opened Prelude

  /** A Retry-After header as its parser sees it; Seconds holds what strconv.Atoi read. */
  datatype RetryAfter = Missing | Seconds(n: int) | Date(remaining: int) | Unreadable

  datatype Response = Response(status: int, retryAfter: RetryAfter)

  /** What Do returned: its response, and whether its error was non-nil. */
  datatype Answer = Answer(resp: Option<Response>, failed: bool)

  datatype Verdict = Retry | Stop | Abort

  const SECOND := 1_000_000_000
  const INT64_SPAN := 0x1_0000_0000_0000_0000
  const INT64_MAX := 0x7FFF_FFFF_FFFF_FFFF

  /** Two's complement wrap-around of int64 arithmetic. */
  function Wrap64(n: int): (w: int)
    ensures -INT64_MAX - 1 <= w <= INT64_MAX
    ensures (w - n) % INT64_SPAN == 0
    ensures -INT64_MAX - 1 <= n <= INT64_MAX ==> w == n
  {
    var m := n % INT64_SPAN;
    if m > INT64_MAX then m - INT64_SPAN else m
  }

  /** Section 9.2.2 of RFC 9110, as far as the client knows methods. */
  predicate IsIdempotent(method_: string) {
    method_ in ["GET", "HEAD", "OPTIONS", "PUT", "DELETE", "TRACE"]
  }

  function CheckRetry(cancelled: bool, a: Answer): Verdict {
    if cancelled then Abort
    else if a.failed then Retry
    else if a.resp.None? then Stop
    else if a.resp.value.status in [429, 503] then Retry
    else if a.resp.value.status >= 500 && a.resp.value.status != 501 then Retry
    else Stop
  }

  function ParseRetryAfter(h: RetryAfter): Option<int> {
    match h
    case Missing => None
    case Unreadable => None
    case Seconds(n) => if n < 0 then None else Some(Wrap64(n * SECOND))
    case Date(remaining) => if remaining > 0 then Some(remaining) else Some(0)
  }

  function ClampDuration(d: int, minWait: int, maxWait: int): int {
    if d < minWait then minWait else if d > maxWait then maxWait else d
  }

  function Pow2(n: nat): nat {
    if n == 0 then 1 else 2 * Pow2(n - 1)
  }

  /** Conversion of a float to an integer truncates toward zero. */
  function Truncate(x: real): int {
    if x >= 0.0 then x.Floor else -((-x).Floor)
  }

  /** The minimum doubled once per attempt, capped. */
  function Exponential(minWait: int, maxWait: int, attempt: nat): int {
    var backoff := minWait * Pow2(attempt);
    if backoff > maxWait then maxWait else backoff
  }

  function Jittered(backoff: int, jitter: real): int {
    Truncate(backoff as real + jitter * backoff as real)
  }

  function Backoff(minWait: int, maxWait: int, attempt: nat, resp: Option<Response>, jitter: real): int {
    if resp.Some? && ParseRetryAfter(resp.value.retryAfter).Some? then
      ClampDuration(ParseRetryAfter(resp.value.retryAfter).value, minWait, maxWait)
    else
      ClampDuration(Jittered(Exponential(minWait, maxWait, attempt), jitter), minWait, maxWait)
  }

  /** The configured range bounds every wait exactly when it is a range. */
  lemma WaitsStayInRange(minWait: int, maxWait: int)
    ensures minWait <= maxWait <==>
            forall attempt, resp, jitter {:trigger Backoff(minWait, maxWait, attempt, resp, jitter)} ::
              minWait <= Backoff(minWait, maxWait, attempt, resp, jitter) <= maxWait
  {
    if minWait > maxWait {
      var w := Backoff(minWait, maxWait, 0, None, 0.0);
      assert !(minWait <= w <= maxWait);
    }
  }

  /** Seconds asked for are waited for exactly when they lie in the range, even where they would wrap. */
  lemma RetryAfterIsHonored(minWait: int, maxWait: int, attempt: nat, status: int, n: nat, jitter: real)
    requires -INT64_MAX - 1 <= minWait <= maxWait <= INT64_MAX
    ensures Backoff(minWait, maxWait, attempt, Some(Response(status, Seconds(n))), jitter) == n * SECOND <==>
            minWait <= n * SECOND <= maxWait
  {
    assert ParseRetryAfter(Seconds(n)) == Some(Wrap64(n * SECOND));
  }

  /** The nearest duration of the range. */
  predicate Nearest(w: int, asked: int, minWait: int, maxWait: int) {
    && minWait <= w <= maxWait && (minWait <= asked <= maxWait ==> w == asked)
    && (asked < minWait ==> w == minWait) && (asked > maxWait ==> w == maxWait)
  }

  /** What the server asked for is waited for, as nearly as the range allows; a date that has passed asks for none. */
  lemma AskedIsWaited(minWait: int, maxWait: int, attempt: nat, status: int, n: int, jitter: real)
    requires minWait <= maxWait
    ensures 0 <= n * SECOND <= INT64_MAX ==>
              Nearest(Backoff(minWait, maxWait, attempt, Some(Response(status, Seconds(n))), jitter), n * SECOND,
                      minWait, maxWait)
    ensures Nearest(Backoff(minWait, maxWait, attempt, Some(Response(status, Date(n))), jitter),
                    if n > 0 then n else 0, minWait, maxWait)
  {
    if 0 <= n * SECOND <= INT64_MAX { assert ParseRetryAfter(Seconds(n)) == Some(n * SECOND); }
  }

  /** A header that asks for nothing is as good as no response. */
  lemma UnaskedIsIgnored(minWait: int, maxWait: int, attempt: nat, resp: Response, jitter: real)
    requires resp.retryAfter.Missing? || resp.retryAfter.Unreadable? ||
             (resp.retryAfter.Seconds? && resp.retryAfter.n < 0)
    ensures Backoff(minWait, maxWait, attempt, Some(resp), jitter) == Backoff(minWait, maxWait, attempt, None, jitter)
  {
  }

  /** From the minimum on, each attempt waits twice as long as the one before, up to the maximum. */
  lemma ExponentialDoubles(minWait: int, maxWait: int, attempt: nat)
    requires 0 <= minWait <= maxWait
    ensures Exponential(minWait, maxWait, 0) == minWait
    ensures var next := 2 * Exponential(minWait, maxWait, attempt);
      Exponential(minWait, maxWait, attempt + 1) == if next > maxWait then maxWait else next
  {
    assert minWait * Pow2(attempt + 1) == 2 * (minWait * Pow2(attempt));
  }

  /** t is x without what truncation cuts off. */
  predicate Truncated(t: int, x: real) {
    t as real <= x < t as real + 1.0
  }

  /** The jitter is added before the clamp, to within the nanosecond that truncation costs. */
  lemma JitterIsAdded(minWait: int, maxWait: int, attempt: nat, jitter: real)
    requires 0 <= minWait <= maxWait && -0.5 <= jitter < 0.5
    ensures var cap := Exponential(minWait, maxWait, attempt) as real;
      exists t :: Truncated(t, cap + jitter * cap) &&
                  Nearest(Backoff(minWait, maxWait, attempt, None, jitter), t, minWait, maxWait)
  {
    var cap := Exponential(minWait, maxWait, attempt);
    ExponentialAtLeast(minWait, maxWait, attempt);
    HalfEitherSide(cap as real, jitter, cap as real + jitter * cap as real);
    hide Exponential;
    var t := Jittered(cap, jitter);
    TruncatesDown(cap as real + jitter * cap as real);
    assert Nearest(Backoff(minWait, maxWait, attempt, None, jitter), t, minWait, maxWait);
  }

  lemma TruncatesDown(x: real)
    requires x >= 0.0
    ensures Truncated(Truncate(x), x)
  {
  }

  lemma {:induction false} Pow2Bounds(n: nat)
    ensures Pow2(n) >= 1
  {
    if n > 0 {
      Pow2Bounds(n - 1);
    }
  }

  /** Without Retry-After the wait lies within half of the capped doubling on either side. */
  lemma ExponentialEnvelope(minWait: int, maxWait: int, attempt: nat, jitter: real)
    requires 0 <= minWait <= maxWait && -0.5 <= jitter < 0.5
    ensures var w := Backoff(minWait, maxWait, attempt, None, jitter);
      2 * w <= 3 * Exponential(minWait, maxWait, attempt) <= 6 * w + 3
  {
    ExponentialAtLeast(minWait, maxWait, attempt);
    JitteredBounds(Exponential(minWait, maxWait, attempt), jitter);
  }

  lemma ExponentialAtLeast(minWait: int, maxWait: int, attempt: nat)
    requires 0 <= minWait <= maxWait
    ensures minWait <= Exponential(minWait, maxWait, attempt) <= maxWait
  {
    Pow2Bounds(attempt);
    Scaled(minWait, Pow2(attempt));
  }

  lemma Scaled(a: int, b: int)
    requires 0 <= a && 1 <= b
    ensures a <= a * b
  {
  }

  lemma JitteredBounds(cap: int, jitter: real)
    requires 0 <= cap && -0.5 <= jitter < 0.5
    ensures cap <= 2 * Jittered(cap, jitter) + 1 && 2 * Jittered(cap, jitter) <= 3 * cap
  {
    var x := cap as real + jitter * cap as real;
    HalfEitherSide(cap as real, jitter, x);
    var t := Truncate(x);
    assert t as real <= x < t as real + 1.0;
    assert (2 * t) as real <= (3 * cap) as real;
    assert cap as real < (2 * t + 2) as real;
  }

  lemma HalfEitherSide(base: real, jitter: real, x: real)
    requires 0.0 <= base && -0.5 <= jitter < 0.5 && x == base + jitter * base
    ensures 0.5 * base <= x <= 1.5 * base
  {
    NonNegativeProduct(0.5 - jitter, base);
    NonNegativeProduct(0.5 + jitter, base);
    assert (0.5 - jitter) * base == 0.5 * base - jitter * base;
    assert (0.5 + jitter) * base == 0.5 * base + jitter * base;
  }

  lemma NonNegativeProduct(a: real, b: real)
    requires 0.0 <= a && 0.0 <= b
    ensures 0.0 <= a * b
  {
  }
}
