/** Which failed NocoDB requests are sent again, and how long the client waits before. */
module Retry {
  import opened Wrappers

  /** The HTTP method after `toLowerCase`; `Other` is any unknown or missing one. */
  datatype Method = Get | Head | Options | Post | Put | Patch | Delete | Other

  predicate IsRead(m: Method) {
    m.Get? || m.Head? || m.Options?
  }

  /** What one sent request leads to. `applied` says whether the server carried it out. */
  datatype Outcome =
    | Answer(status: nat, applied: bool)
    | NetworkError(code: Option<string>, applied: bool)

  const TRANSIENT_CODES := {"ECONNRESET", "ECONNREFUSED", "ETIMEDOUT", "ECONNABORTED", "EAI_AGAIN", "EPIPE"}
  const TOO_MANY_REQUESTS := 429

  predicate IsError(o: Outcome) {
    o.NetworkError? || !(200 <= o.status < 300)
  }

  /** `shouldRetryNocoDBRequest` */
  predicate ShouldRetry(m: Method, o: Outcome) {
    if o.Answer? && o.status == TOO_MANY_REQUESTS then true
    else if !IsRead(m) then false
    else if o.NetworkError? then o.code.Some? && o.code.value in TRANSIENT_CODES
    else o.status >= 500
  }

  /**
   One call under the retry client: the number of times it is sent, given the
   outcome of every attempt and the retries still allowed.
   */
  function Sends(m: Method, outcomes: nat -> Outcome, attempt: nat, retries: nat): (n: nat)
    ensures 1 <= n <= retries + 1
    decreases retries
  {
    var o := outcomes(attempt);
    if IsError(o) && retries > 0 && ShouldRetry(m, o) then 1 + Sends(m, outcomes, attempt + 1, retries - 1) else 1
  }

  /** How often the server applies the request over n attempts. */
  function AppliedIn(outcomes: nat -> Outcome, attempt: nat, n: nat): nat
    decreases n
  {
    if n == 0 then 0 else (if outcomes(attempt).applied then 1 else 0) + AppliedIn(outcomes, attempt + 1, n - 1)
  }

  function Applied(m: Method, outcomes: nat -> Outcome, retries: nat): nat {
    AppliedIn(outcomes, 0, Sends(m, outcomes, 0, retries))
  }

  /** A server that answers 429 has not processed the request. */
  ghost predicate RejectsUnprocessed(outcomes: nat -> Outcome) {
    forall k: nat :: outcomes(k).Answer? && outcomes(k).status == TOO_MANY_REQUESTS ==> !outcomes(k).applied
  }

  lemma {:induction false} WritesStopAtFirstOther(m: Method, outcomes: nat -> Outcome, attempt: nat, retries: nat)
    requires !IsRead(m) && RejectsUnprocessed(outcomes)
    ensures var n := Sends(m, outcomes, attempt, retries);
            AppliedIn(outcomes, attempt, n - 1) == 0
            && AppliedIn(outcomes, attempt, n) <= 1
    decreases retries
  {
    var o := outcomes(attempt);
    if IsError(o) && retries > 0 && ShouldRetry(m, o) {
      WritesStopAtFirstOther(m, outcomes, attempt + 1, retries - 1);
    }
  }

  /**
   For every sequence of server outcomes a write is applied at most once, and
   only by its last attempt; any call is sent at most retries + 1 times.
   */
  lemma WritesAreAppliedAtMostOnce(m: Method, outcomes: nat -> Outcome, retries: nat)
    requires RejectsUnprocessed(outcomes)
    ensures Sends(m, outcomes, 0, retries) <= retries + 1
    ensures !IsRead(m) ==> Applied(m, outcomes, retries) <= 1
    ensures !IsRead(m) ==> AppliedIn(outcomes, 0, Sends(m, outcomes, 0, retries) - 1) == 0
  {
    if !IsRead(m) {
      WritesStopAtFirstOther(m, outcomes, 0, retries);
    }
  }

  /**
   The guarantee rests on the method test and on the meaning of 429: it holds
   for every server that honours 429 exactly when the method is a write or
   nothing is ever retried.
   */
  lemma AtMostOnceIffWrite(m: Method, retries: nat)
    ensures (forall outcomes: nat -> Outcome :: RejectsUnprocessed(outcomes) ==> Applied(m, outcomes, retries) <= 1)
            <==> !IsRead(m) || retries == 0
  {
    if !IsRead(m) || retries == 0 {
      forall outcomes: nat -> Outcome | RejectsUnprocessed(outcomes) ensures Applied(m, outcomes, retries) <= 1 {
        if !IsRead(m) {
          WritesAreAppliedAtMostOnce(m, outcomes, retries);
        }
      }
    } else {
      var outcomes := (k: nat) => Answer(500, true);
      assert RejectsUnprocessed(outcomes);
      AllApplied(outcomes, 0, Sends(m, outcomes, 0, retries));
      assert Sends(m, outcomes, 0, retries) == 1 + Sends(m, outcomes, 1, retries - 1);
    }
  }

  lemma {:induction false} AllApplied(outcomes: nat -> Outcome, attempt: nat, n: nat)
    requires forall k: nat :: outcomes(k).applied
    ensures AppliedIn(outcomes, attempt, n) == n
    decreases n
  {
    if n > 0 {
      AllApplied(outcomes, attempt + 1, n - 1);
    }
  }

  /** An outcome after which the call is repeated: 429 for any method, a server or network failure for a read. */
  predicate IsRepeatable(m: Method, o: Outcome) {
    match o
    case Answer(status, _) => status == 429 || ((m == Get || m == Head || m == Options) && status >= 500)
    case NetworkError(code, _) =>
      && (m == Get || m == Head || m == Options)
      && (code == Some("ECONNRESET") || code == Some("ECONNREFUSED") || code == Some("ETIMEDOUT")
          || code == Some("ECONNABORTED") || code == Some("EAI_AGAIN") || code == Some("EPIPE"))
  }

  /** A call is sent again exactly while retries are left and the outcome is such. */
  lemma RetriedIff(m: Method, outcomes: nat -> Outcome, attempt: nat, retries: nat)
    ensures Sends(m, outcomes, attempt, retries) > 1 <==> retries > 0 && IsRepeatable(m, outcomes(attempt))
    ensures retries > 0 && IsRepeatable(m, outcomes(attempt)) ==>
              Sends(m, outcomes, attempt, retries) == 1 + Sends(m, outcomes, attempt + 1, retries - 1)
  {
  }

  /** It is sent k + 1 times exactly if the first k outcomes are and the next is not, or retries ran out. */
  lemma {:induction false} SentExactlyIff(m: Method, outcomes: nat -> Outcome, attempt: nat, retries: nat, k: nat)
    requires k <= retries
    ensures Sends(m, outcomes, attempt, retries) == k + 1 <==>
              (forall j: nat :: attempt <= j < attempt + k ==> IsRepeatable(m, outcomes(j)))
              && (k == retries || !IsRepeatable(m, outcomes(attempt + k)))
    decreases k
  {
    RetriedIff(m, outcomes, attempt, retries);
    if k > 0 && IsRepeatable(m, outcomes(attempt)) {
      SentExactlyIff(m, outcomes, attempt + 1, retries - 1, k - 1);
    }
  }

  /** A rate-limited call of any method is sent until it is let through. */
  lemma RateLimitedIsSentAgain(m: Method, outcomes: nat -> Outcome, retries: nat, k: nat)
    requires k <= retries && forall j: nat :: j < k ==> outcomes(j).Answer? && outcomes(j).status == 429
    requires outcomes(k).Answer? && 200 <= outcomes(k).status < 300
    ensures Sends(m, outcomes, 0, retries) == k + 1
  {
    SentExactlyIff(m, outcomes, 0, retries, k);
  }

  /** A client error other than 429 is final for every method. */
  lemma ClientErrorsAreFinal(m: Method, outcomes: nat -> Outcome, attempt: nat, retries: nat)
    requires outcomes(attempt).Answer? && 400 <= outcomes(attempt).status < 500
    requires outcomes(attempt).status != TOO_MANY_REQUESTS
    ensures Sends(m, outcomes, attempt, retries) == 1
  {
  }

  // ── Backoff ───────────────────────────────────────────────────────────────

  function Pow2(n: nat): (p: nat)
    ensures p >= 1
  {
    if n == 0 then 1 else 2 * Pow2(n - 1)
  }

  /** The delay before the k-th retry without jitter. */
  function Nominal(base: nat, max: nat, k: nat): nat
    requires k >= 1
  {
    Min(base * Pow2(k - 1), max)
  }

  /** The jitter for a random number in [0, 1). */
  function Jitter(nominal: nat, random: real): real {
    nominal as real * 0.25 * (random * 2.0 - 1.0)
  }

  /** `Math.round`: the nearest integer, halves up. */
  function Round(x: real): int {
    (x + 0.5).Floor
  }

  function RetryDelay(base: nat, max: nat, k: nat, random: real): int
    requires k >= 1
  {
    var delay := Nominal(base, max, k);
    Round(delay as real + Jitter(delay, random))
  }

  lemma {:induction false} BackoffGrows(base: nat, max: nat, j: nat, k: nat)
    requires 1 <= j <= k
    ensures Nominal(base, max, j) <= Nominal(base, max, k) <= max
    ensures k > j && Nominal(base, max, k) < max && base > 0 ==> Nominal(base, max, k) >= 2 * Nominal(base, max, j)
    decreases k
  {
    if j < k {
      BackoffGrows(base, max, j, k - 1);
      DoubleStep(base, k - 1);
    }
  }

  /** The first retry waits for the base delay, and each one twice as long as the one before, up to the cap. */
  lemma BackoffDoubles(base: nat, max: nat, k: nat)
    requires k >= 1
    ensures Nominal(base, max, 1) == Min(base, max)
    ensures Nominal(base, max, k + 1) == Min(2 * Nominal(base, max, k), max)
  {
    DoubleStep(base, k);
  }

  /** The jitter goes from a quarter less, over none in the middle, towards a quarter more. */
  lemma JitterSpreads(base: nat, max: nat, k: nat)
    requires k >= 1
    ensures RetryDelay(base, max, k, 0.0) == Round(0.75 * Nominal(base, max, k) as real)
    ensures RetryDelay(base, max, k, 0.5) == Nominal(base, max, k)
    ensures RetryDelay(base, max, k, 1.0) == Round(1.25 * Nominal(base, max, k) as real)
  {
  }

  lemma DoubleStep(base: nat, k: nat)
    requires k >= 1
    ensures base * Pow2(k) == 2 * (base * Pow2(k - 1))
  {
  }

  lemma JitterBound(nominal: nat, random: real)
    requires 0.0 <= random < 1.0
    ensures -(nominal as real) * 0.25 <= Jitter(nominal, random) <= nominal as real * 0.25
  {
    var x, y := nominal as real * 0.25, random * 2.0 - 1.0;
    assert x * y <= x by { assert x * (1.0 - y) >= 0.0; }
    assert x * y >= -x by { assert x * (y + 1.0) >= 0.0; }
  }

  /**
   Every wait is within a quarter of min(base·2^(k−1), max), up to the rounding
   to whole milliseconds, and never negative.
   */
  lemma DelayBounds(base: nat, max: nat, k: nat, random: real)
    requires k >= 1 && 0.0 <= random < 1.0
    ensures var delay := RetryDelay(base, max, k, random) as real;
            var nominal := Nominal(base, max, k) as real;
            0.75 * nominal - 0.5 < delay <= 1.25 * nominal + 0.5 && delay <= 1.25 * max as real + 0.5
    ensures RetryDelay(base, max, k, random) >= 0
  {
    JitterBound(Nominal(base, max, k), random);
  }

  /** The longest a single wait can be. */
  function Longest(max: nat): real {
    1.25 * max as real + 0.5
  }

  lemma DelayAtMost(base: nat, max: nat, k: nat, random: real)
    requires k >= 1 && 0.0 <= random < 1.0
    ensures 0 <= RetryDelay(base, max, k, random) && RetryDelay(base, max, k, random) as real <= Longest(max)
  {
    DelayBounds(base, max, k, random);
  }

  /** n waits of at most `unit` each. */
  predicate AtMostTimes(total: int, n: nat, unit: real) {
    total as real <= n as real * unit
  }

  lemma OneMoreWait(delay: int, total: int, n: nat, unit: real)
    requires AtMostTimes(total, n, unit) && delay as real <= unit
    ensures AtMostTimes(delay + total, n + 1, unit)
  {
    assert (n + 1) as real * unit == n as real * unit + unit;
  }

  lemma MoreTimes(total: int, n: nat, m: nat, unit: real)
    requires AtMostTimes(total, n, unit) && n <= m && unit >= 0.0
    ensures AtMostTimes(total, m, unit)
  {
    assert n as real * unit <= m as real * unit;
  }

  lemma LongestIsPositive(max: nat)
    ensures Longest(max) > 0.0
  {
  }

  /** All waits of one call: before its k-th retry it waits for `RetryDelay(k)`. */
  function TotalWait(m: Method, outcomes: nat -> Outcome, attempt: nat, retries: nat,
                     base: nat, max: nat, random: nat -> real): int
    decreases retries
  {
    var o := outcomes(attempt);
    if IsError(o) && retries > 0 && ShouldRetry(m, o) then
      RetryDelay(base, max, attempt + 1, random(attempt))
      + TotalWait(m, outcomes, attempt + 1, retries - 1, base, max, random)
    else 0
  }

  /** Before its k-th retry a call waits for the k-th delay, and it waits for nothing else. */
  lemma WaitsBetweenSends(m: Method, outcomes: nat -> Outcome, attempt: nat, retries: nat,
                          base: nat, max: nat, random: nat -> real)
    ensures Sends(m, outcomes, attempt, retries) == 1 ==>
              TotalWait(m, outcomes, attempt, retries, base, max, random) == 0
    ensures Sends(m, outcomes, attempt, retries) > 1 ==>
              TotalWait(m, outcomes, attempt, retries, base, max, random)
              == RetryDelay(base, max, attempt + 1, random(attempt))
                 + TotalWait(m, outcomes, attempt + 1, retries - 1, base, max, random)
    ensures Sends(m, outcomes, 0, retries) == 2 && random(0) == 0.5 ==>
              TotalWait(m, outcomes, 0, retries, base, max, random) == Min(base, max)
  {
    RetriedIff(m, outcomes, 0, retries);
    if Sends(m, outcomes, 0, retries) == 2 {
      RetriedIff(m, outcomes, 1, retries - 1);
      JitterSpreads(base, max, 1);
    }
  }

  lemma {:induction false} WaitsPerSend(m: Method, outcomes: nat -> Outcome, attempt: nat, retries: nat,
                                        base: nat, max: nat, random: nat -> real)
    requires forall k: nat :: 0.0 <= random(k) < 1.0
    ensures 0 <= TotalWait(m, outcomes, attempt, retries, base, max, random)
    ensures AtMostTimes(TotalWait(m, outcomes, attempt, retries, base, max, random),
                        Sends(m, outcomes, attempt, retries) - 1, Longest(max))
    decreases retries
  {
    var o := outcomes(attempt);
    if IsError(o) && retries > 0 && ShouldRetry(m, o) {
      WaitsPerSend(m, outcomes, attempt + 1, retries - 1, base, max, random);
      DelayAtMost(base, max, attempt + 1, random(attempt));
      OneMoreWait(RetryDelay(base, max, attempt + 1, random(attempt)),
                  TotalWait(m, outcomes, attempt + 1, retries - 1, base, max, random),
                  Sends(m, outcomes, attempt + 1, retries - 1) - 1, Longest(max));
    }
  }

  /** However its attempts fail, a call waits at most retries·(1.25·max + 0.5) in all. */
  lemma TotalDelayBound(m: Method, outcomes: nat -> Outcome, retries: nat, base: nat, max: nat, random: nat -> real)
    requires forall k: nat :: 0.0 <= random(k) < 1.0
    ensures 0 <= TotalWait(m, outcomes, 0, retries, base, max, random)
    ensures AtMostTimes(TotalWait(m, outcomes, 0, retries, base, max, random), retries, Longest(max))
  {
    WaitsPerSend(m, outcomes, 0, retries, base, max, random);
    LongestIsPositive(max);
    MoreTimes(TotalWait(m, outcomes, 0, retries, base, max, random), Sends(m, outcomes, 0, retries) - 1, retries,
              Longest(max));
  }
}
