/** Retry loops and their delays (database/retry.go, database/connection_recovery.go). */
module Retry {
  import opened Bytes
  import opened Numbers
  import opened Text
  import Slots

  /** IsRetryableError, on the error's text. */
  predicate IsRetryable(e: string) {
    || Contains(e, "bad connection") || Contains(e, "invalid connection") || Contains(e, "broken pipe")
    || Contains(e, "connection reset") || Contains(e, "timeout") || Contains(e, "deadlock")
    || Contains(e, "commands out of sync") || Contains(e, "connection refused") || Contains(e, "connection closed")
    || Contains(e, "Write conflict") || Contains(e, "Information schema is changed")
    || Contains(e, "Region is unavailable") || Contains(e, "tikv is busy") || Contains(e, "TiKV server timeout")
    || Contains(e, "txn too large")
    || Contains(e, "Error 1213") || Contains(e, "Error 1205") || Contains(e, "Error 2013") || Contains(e, "Error 2006")
  }

  /** The errors after which blockWorker retries a block. */
  predicate WorkerRetries(e: string) {
    || Contains(e, "commands out of sync") || Contains(e, "bad connection")
    || Contains(e, "invalid connection") || Contains(e, "broken pipe")
  }

  /** fmt's %d */
  function Decimal(n: int): string
    decreases if n < 0 then 1 - n else n
  {
    if n < 0 then "-" + Decimal(-n)
    else if n < 10 then [("0123456789")[n]]
    else Decimal(n / 10) + [("0123456789")[n % 10]]
  }

  /** The error of a loop that ran out of attempts; what failed last is not in it. */
  function Exhausted(what: string, maxRetries: int): string { what + (" failed after " + (Decimal(maxRetries) + " retries")) }

  const TRANSACTION := "transaction"
  const OPERATION := "operation"

  datatype Config = Config(maxRetries: int, initialDelay: nat, maxDelay: nat)

  const DEFAULT_CONFIG := Config(3, 100 * 1_000_000, 5 * Slots.SECOND)

  // ---- delays ----

  function Pow2(k: nat): nat { if k == 0 then 1 else 2 * Pow2(k - 1) }

  /** One step of the exponential backoff with factor 2. */
  function NextDelay(delay: nat, maxDelay: nat): nat { Min(2 * delay, maxDelay) }

  function Delay(c: Config, k: nat): nat { if k == 0 then c.initialDelay else NextDelay(Delay(c, k - 1), c.maxDelay) }

  lemma {:induction false} DelayBounds(c: Config, k: nat)
    ensures k > 0 || c.initialDelay <= c.maxDelay ==> Delay(c, k) == Min(c.initialDelay * Pow2(k), c.maxDelay)
  {
    if k == 0 {
    } else {
      DelayBounds(c, k - 1);
      var x := c.initialDelay * Pow2(k - 1);
      assert c.initialDelay * Pow2(k) == 2 * x;
      if k == 1 { assert Pow2(0) == 1 && x == c.initialDelay; }
    }
  }

  /** The k-th delay is min(initial * 2^k, max) exactly when it is not the first one or the initial delay is
      within the maximum: the first delay is never capped. */
  lemma DelayExact(c: Config, k: nat)
    ensures Delay(c, k) == Min(c.initialDelay * Pow2(k), c.maxDelay) <==> k > 0 || c.initialDelay <= c.maxDelay
  {
    DelayBounds(c, k);
    assert Pow2(0) == 1;
  }

  /** reconnectWithBackoff: time.Second * time.Duration(1<<uint(k)), capped, in int64 arithmetic. */
  function ShiftDelay(k: nat, maxDelay: nat): int { if Shifted(k) > maxDelay then maxDelay else Shifted(k) }

  /** The delay before it is capped. */
  function Shifted(k: nat): int { Slots.Int64(Slots.SECOND * Slots.Int64(Pow2(k))) }

  lemma {:induction false} Pow2Monotone(j: nat, k: nat)
    requires j <= k
    ensures 1 <= Pow2(j) <= Pow2(k)
    decreases k
  {
    if j < k { Pow2Monotone(j, k - 1); } else if j > 0 { Pow2Monotone(j - 1, k - 1); }
  }

  lemma Pow2Values()
    ensures Pow2(8) == 256 && Pow2(33) == 8589934592 && Pow2(34) == 17179869184
  {
    assert Pow2(4) == 16;
    assert Pow2(8) == 256;
    assert Pow2(12) == 4096;
    assert Pow2(16) == 65536;
    assert Pow2(20) == 1048576;
    assert Pow2(24) == 16777216;
    assert Pow2(28) == 268435456;
    assert Pow2(32) == 4294967296;
  }

  lemma ShiftFits(k: nat)
    requires k <= 33
    ensures Shifted(k) == Slots.SECOND * Pow2(k)
  {
    Pow2Values();
    Pow2Monotone(k, 33);
    Slots.Int64Small(Pow2(k));
    Slots.Int64Small(Slots.SECOND * Pow2(k));
  }

  lemma ShiftOverflows()
    ensures Shifted(34) < 0
  {
    Pow2Values();
    hide Pow2;
    Slots.Int64Small(17179869184);
  }

  lemma ShiftTooLong(k: nat)
    requires k >= 34
    ensures Shifted(k) < Slots.TWO_63 <= Slots.SECOND * Pow2(k)
  {
    Pow2Values();
    Pow2Monotone(34, k);
    var _ := Slots.Int64Wraps(Slots.SECOND * Slots.Int64(Pow2(k)));
  }

  /** The shift gives 2^k seconds exactly up to k = 33; at k = 34 it turns negative. With the cap, the delay is
      min(2^k s, max) for those k, and for a larger k only if the overflowed value happens to reach the maximum.
      The loop's ten attempts only reach k = 8. */
  lemma ShiftDelayExact(k: nat, maxDelay: nat)
    ensures Shifted(k) == Slots.SECOND * Pow2(k) <==> k <= 33
    ensures k <= 33 ==> ShiftDelay(k, maxDelay) == Min(Slots.SECOND * Pow2(k), maxDelay)
    ensures maxDelay < Slots.TWO_63 ==>
              (ShiftDelay(k, maxDelay) == Min(Slots.SECOND * Pow2(k), maxDelay) <==> k <= 33 || Shifted(k) >= maxDelay)
    ensures k == 34 ==> ShiftDelay(k, maxDelay) < 0
  {
    hide Pow2, Slots.Int64;
    if k <= 33 { ShiftFits(k); } else { ShiftTooLong(k); }
    if k == 34 { ShiftOverflows(); }
  }

  // ---- RetryTransaction and RetryOperation ----

  /** What the attempts answer: None is success. */
  type Answers = nat -> Option<string>

  function MaxAttempts(c: Config): nat { if c.maxRetries < 0 then 0 else c.maxRetries + 1 }

  ghost predicate Retried(answers: Answers, i: nat) { answers(i).Some? && IsRetryable(answers(i).value) }

  /** The loop made `attempts` attempts and returned `err`: all but the last failed with a retryable error, and
      the last one succeeded, failed for good, or was the last allowed. */
  ghost predicate Ended(c: Config, what: string, answers: Answers, attempts: nat, err: Option<string>) {
    && attempts <= MaxAttempts(c)
    && (forall i: nat | i < attempts - 1 :: Retried(answers, i))
    && (attempts == 0 ==> MaxAttempts(c) == 0 && err == Some(Exhausted(what, c.maxRetries)))
    && (attempts > 0 ==>
          if !Retried(answers, attempts - 1) then err == answers(attempts - 1)
          else attempts == MaxAttempts(c) && err == Some(Exhausted(what, c.maxRetries)))
  }

  /** Between two attempts the loop waits Delay(c, 0), Delay(c, 1), ... */
  ghost predicate Waits(c: Config, attempts: nat, delays: seq<nat>) {
    && |delays| == (if attempts == 0 then 0 else attempts - 1)
    && forall k | 0 <= k < |delays| :: delays[k] == Delay(c, k)
  }

  class Database<S> {
    var state: S
    constructor (state: S) { this.state := state; }
  }

  /** time.Duration(float64(delay) * 2), capped. */
  method Backoff(c: Config, delay: nat, k: nat) returns (next: nat)
    requires delay == Delay(c, k)
    ensures next == Delay(c, k + 1)
  {
    next := 2 * delay;
    if next > c.maxDelay { next := c.maxDelay; }
  }

  /** The database is changed by exactly one run of the body if nil is returned and unchanged otherwise, after at
      most maxRetries + 1 attempts. */
  method RetryTransaction<S>(db: Database<S>, body: S -> S, answers: Answers, c: Config)
      returns (err: Option<string>, attempts: nat, delays: seq<nat>)
    modifies db
    ensures db.state == if err.None? then body(old(db.state)) else old(db.state)
    ensures Ended(c, TRANSACTION, answers, attempts, err) && Waits(c, attempts, delays)
  {
    hide IsRetryable, Exhausted, Delay;
    attempts, delays := 0, [];
    var delay := c.initialDelay;
    assert delay == Delay(c, 0) by { FirstDelay(c); }
    while attempts <= c.maxRetries
      invariant attempts <= MaxAttempts(c)
      invariant db.state == old(db.state)
      invariant forall i: nat | i < attempts :: Retried(answers, i)
      invariant |delays| == if 0 < attempts == MaxAttempts(c) then attempts - 1 else attempts
      invariant attempts <= c.maxRetries ==> delay == Delay(c, attempts)
      invariant forall k | 0 <= k < |delays| :: delays[k] == Delay(c, k)
      decreases c.maxRetries + 1 - attempts
    {
      err := answers(attempts);
      attempts := attempts + 1;
      if err.None? {
        db.state := body(db.state);
        return;
      }
      if !IsRetryable(err.value) { return; }
      if attempts <= c.maxRetries {
        delays := delays + [delay];
        delay := Backoff(c, delay, attempts - 1);
      }
    }
    err := Some(Exhausted(TRANSACTION, c.maxRetries));
  }

  /** With the default configuration: at most four attempts, after 100, 200 and 400 milliseconds. */
  lemma DefaultWaits(what: string, answers: Answers, attempts: nat, err: Option<string>, delays: seq<nat>)
    requires Ended(DEFAULT_CONFIG, what, answers, attempts, err) && Waits(DEFAULT_CONFIG, attempts, delays)
    ensures 1 <= attempts <= 4 && delays == [100_000_000, 200_000_000, 400_000_000][..attempts - 1]
  {
    var c := DEFAULT_CONFIG;
    assert Delay(c, 0) == 100_000_000;
    assert Delay(c, 1) == 200_000_000;
    assert Delay(c, 2) == 400_000_000;
    hide Delay;
  }

  lemma FirstDelay(c: Config)
    ensures Delay(c, 0) == c.initialDelay
  {}

  /** The state after calls 0, 1, ... of a function that changes it anew each time. */
  ghost function Calls<S>(effect: (nat, S) -> S, n: nat, s: S): S {
    if n == 0 then s else effect(n - 1, Calls(effect, n - 1, s))
  }

  /** RetryOperation has no transaction around the function: every attempt leaves its own effect, also the
      failed ones. */
  method RetryOperation<S>(db: Database<S>, effect: (nat, S) -> S, answers: Answers, c: Config)
      returns (err: Option<string>, attempts: nat, delays: seq<nat>)
    modifies db
    ensures db.state == Calls(effect, attempts, old(db.state))
    ensures Ended(c, OPERATION, answers, attempts, err) && Waits(c, attempts, delays)
  {
    hide IsRetryable, Exhausted, Delay;
    attempts, delays := 0, [];
    var delay := c.initialDelay;
    assert delay == Delay(c, 0) by { FirstDelay(c); }
    while attempts <= c.maxRetries
      invariant attempts <= MaxAttempts(c)
      invariant db.state == Calls(effect, attempts, old(db.state))
      invariant forall i: nat | i < attempts :: Retried(answers, i)
      invariant |delays| == if 0 < attempts == MaxAttempts(c) then attempts - 1 else attempts
      invariant attempts <= c.maxRetries ==> delay == Delay(c, attempts)
      invariant forall k | 0 <= k < |delays| :: delays[k] == Delay(c, k)
      decreases c.maxRetries + 1 - attempts
    {
      db.state := effect(attempts, db.state);
      err := answers(attempts);
      attempts := attempts + 1;
      if err.None? || !IsRetryable(err.value) { return; }
      if attempts <= c.maxRetries {
        delays := delays + [delay];
        delay := Backoff(c, delay, attempts - 1);
      }
    }
    err := Some(Exhausted(OPERATION, c.maxRetries));
  }

  lemma {:induction false} DecimalChars(n: int)
    ensures forall c | c in Decimal(n) :: c in "-0123456789"
    decreases if n < 0 then 1 - n else n
  {
    if n < 0 { DecimalChars(-n); } else if n >= 10 { DecimalChars(n / 10); }
  }

  predicate LacksYBV(s: string) { 'y' !in s && 'b' !in s && 'v' !in s }

  lemma LacksYBVConcat(a: string, b: string)
    requires LacksYBV(a) && LacksYBV(b)
    ensures LacksYBV(a + b)
  {}

  lemma ExhaustedChars(n: int)
    ensures LacksYBV(Exhausted(TRANSACTION, n))
  {
    DecimalChars(n);
    assert LacksYBV(Decimal(n));
    assert LacksYBV(TRANSACTION) && LacksYBV(" failed after ") && LacksYBV(" retries");
    hide LacksYBV, Decimal;
    LacksYBVConcat(Decimal(n), " retries");
    LacksYBVConcat(" failed after ", Decimal(n) + " retries");
    LacksYBVConcat(TRANSACTION, " failed after " + (Decimal(n) + " retries"));
  }

  lemma ExhaustedText(n: int)
    ensures !WorkerRetries(Exhausted(TRANSACTION, n))
  {
    ExhaustedChars(n);
    hide Exhausted, Contains;
    var e := Exhausted(TRANSACTION, n);
    MissingChar(e, "commands out of sync", 'y');
    MissingChar(e, "bad connection", 'b');
    MissingChar(e, "invalid connection", 'v');
    MissingChar(e, "broken pipe", 'b');
  }

  /** An error that RetryTransaction returns never matches blockWorker's connection test: what that test looks for
      is retried inside and, after the last attempt, replaced by a text that has lost it. The worker's own
      connection retry is therefore left to the health check before the block. */
  lemma WorkerNeverRetries(c: Config, answers: Answers, attempts: nat, err: Option<string>)
    requires Ended(c, TRANSACTION, answers, attempts, err) && err.Some?
    ensures !WorkerRetries(err.value)
  {
    hide Exhausted, Contains;
    if err == Some(Exhausted(TRANSACTION, c.maxRetries)) {
      ExhaustedText(c.maxRetries);
    } else {
      assert !IsRetryable(err.value);
    }
  }

  /** The same for the context that ProcessBlock adds to such an error. */
  lemma WrappedNeverRetried(context: string, e: string)
    ensures WorkerRetries(context + ": " + e) ==> WorkerRetries(context) || WorkerRetries(e)
  {
    hide Contains;
    WrappedContains(context, e, "commands out of sync");
    WrappedContains(context, e, "bad connection");
    WrappedContains(context, e, "invalid connection");
    WrappedContains(context, e, "broken pipe");
  }

  // ---- reconnectWithBackoff ----

  const MAX_ATTEMPTS := 10

  class ConnectionRecovery {
    const maxReconnectDelay: nat
    var isHealthy: bool
    var reconnectAttempts: nat

    constructor (maxReconnectDelay: nat) {
      this.maxReconnectDelay := maxReconnectDelay;
      isHealthy, reconnectAttempts := false, 0;
    }

    /** Tries to connect up to ten times and stops at the first success; the waits are min(1s * 2^k, max). */
    method ReconnectWithBackoff(connects: nat -> bool) returns (ok: bool, attempts: nat, delays: seq<int>)
      modifies this
      ensures attempts <= MAX_ATTEMPTS && forall i | 0 <= i < attempts - 1 :: !connects(i)
      ensures ok <==> attempts > 0 && connects(attempts - 1)
      ensures !ok ==> attempts == MAX_ATTEMPTS && isHealthy == old(isHealthy) && reconnectAttempts == old(reconnectAttempts)
      ensures ok ==> isHealthy && reconnectAttempts == 0
      ensures |delays| == (if attempts == 0 then 0 else attempts - 1)
      ensures forall k | 0 <= k < |delays| :: delays[k] == Min(Slots.SECOND * Pow2(k), maxReconnectDelay)
    {
      hide Slots.Int64, Pow2;
      attempts, delays := 0, [];
      while attempts < MAX_ATTEMPTS
        invariant attempts <= MAX_ATTEMPTS && forall i | 0 <= i < attempts :: !connects(i)
        invariant |delays| == if attempts == 0 then 0 else attempts - 1
        invariant forall k | 0 <= k < |delays| :: delays[k] == Min(Slots.SECOND * Pow2(k), maxReconnectDelay)
        invariant isHealthy == old(isHealthy) && reconnectAttempts == old(reconnectAttempts)
      {
        if attempts > 0 {
          ShiftDelayExact(attempts - 1, maxReconnectDelay);
          delays := delays + [ShiftDelay(attempts - 1, maxReconnectDelay)];
        }
        ok := connects(attempts);
        attempts := attempts + 1;
        if ok {
          isHealthy, reconnectAttempts := true, 0;
          return;
        }
      }
      ok := false;
    }
  }
}
