/** The retry loop of a single request: which attempt decides it, and how long it sleeps. */
module Retry {
  import Decimal

  const BASE_DELAY := 100_000_000 // 100 ms, in nanoseconds

  /** What one attempt yields: no response at all, or one with a status. */
  datatype Attempt<+T> = Broken(cause: string) | Answered(status: int, reply: T)

  /** How a request ends. The backoff of the 39th attempt overflows, and drawing its
      jitter then panics. */
  datatype Outcome<+T> = Final(status: int, reply: T) | Exhausted(cause: string) | Crashed

  predicate RetryableStatus(verb: string, code: int) {
    verb == "GET" && (code == 502 || code == 503 || code == 504)
  }

  /** Does attempt k (from 0) decide a request that may make |script| attempts? It does when
      it has a response, other than a gateway error to a GET that can be tried again. */
  predicate Decides<T>(verb: string, script: seq<Attempt<T>>, k: nat)
    requires k < |script|
  {
    && script[k].Answered?
    && (verb == "GET" && k + 1 < |script| ==> script[k].status != 502 && script[k].status != 503 && script[k].status != 504)
  }

  /** The first deciding attempt from k on, or |script|. */
  function FirstDeciding<T>(verb: string, script: seq<Attempt<T>>, k: nat): (n: nat)
    requires k <= |script|
    ensures k <= n <= |script|
    ensures forall j :: k <= j < n ==> !Decides(verb, script, j)
    ensures n < |script| ==> Decides(verb, script, n)
    decreases |script| - k
  {
    if k == |script| || Decides(verb, script, k) then k else FirstDeciding(verb, script, k + 1)
  }

  /** The outcome when the first k attempts have decided nothing. */
  function OutcomeFrom<T>(verb: string, script: seq<Attempt<T>>, k: nat): Outcome<T>
    requires k <= |script|
  {
    var n := FirstDeciding(verb, script, k);
    if n < |script| then Final(script[n].status, script[n].reply)
    else Exhausted(if script != [] && script[|script| - 1].Broken? then script[|script| - 1].cause else "unknown error")
  }

  // ----- Backoff -----

  function Pow2(n: nat): (p: nat)
    ensures p > 0
  {
    if n == 0 then 1 else 2 * Pow2(n - 1)
  }

  /** Two's complement in 64 bits. */
  function Int64(x: int): (r: int)
    ensures -0x8000_0000_0000_0000 <= r < 0x8000_0000_0000_0000
    ensures -0x8000_0000_0000_0000 <= x < 0x8000_0000_0000_0000 ==> r == x
  {
    var m := x % 0x1_0000_0000_0000_0000;
    if m < 0x8000_0000_0000_0000 then m else m - 0x1_0000_0000_0000_0000
  }

  /** The delay before retry n (from 1), shifted in a 64-bit integer. */
  function RetryBackoff(attempt: int): int {
    Int64(BASE_DELAY * Pow2(if attempt < 1 then 0 else attempt - 1))
  }

  /** The size of the range the jitter is drawn from; drawing panics unless positive.
      Division truncates toward zero. */
  function JitterRange(base: int): int {
    Int64((if base < 0 then -(-base / 2) else base / 2) + 1)
  }

  lemma {:induction false} Pow2Monotone(m: nat, n: nat)
    requires m <= n
    ensures Pow2(m) <= Pow2(n)
  {
    if m < n {
      Pow2Monotone(m, n - 1);
    }
  }

  lemma Pow2At36()
    ensures Pow2(36) == 0x10_0000_0000 && Pow2(37) == 0x20_0000_0000
  {
    assert Pow2(8) == 0x100;
    assert Pow2(16) == 0x1_0000;
    assert Pow2(24) == 0x100_0000;
    assert Pow2(32) == 0x1_0000_0000;
  }

  /** The shift is exact up to the 37th retry and wraps from the 38th on. */
  lemma BackoffIsExact(attempt: int)
    requires attempt >= 1
    ensures RetryBackoff(attempt) == BASE_DELAY * Pow2(attempt - 1) <==> attempt <= 37
  {
    Pow2At36();
    if attempt <= 37 {
      Pow2Monotone(attempt - 1, 36);
    } else {
      Pow2Monotone(37, attempt - 1);
    }
  }

  /** At the 38th retry the base is negative and the jitter cannot be drawn. */
  lemma BackoffOverflows()
    ensures RetryBackoff(38) < 0 && JitterRange(RetryBackoff(38)) <= 0
    ensures forall a :: 1 <= a <= 37 ==> JitterRange(RetryBackoff(a)) > 0
  {
    Pow2At36();
    forall a | 1 <= a <= 37
      ensures JitterRange(RetryBackoff(a)) > 0
    {
      BackoffIsExact(a);
    }
  }

  /** Up to then the jitter ranges over half the base. */
  lemma HalfTheBase(attempt: int)
    requires 1 <= attempt <= 37
    ensures var half := 50_000_000 * Pow2(attempt - 1); RetryBackoff(attempt) == 2 * half && JitterRange(2 * half) == half + 1
  {
    BackoffIsExact(attempt);
    JitterOfEven(50_000_000 * Pow2(attempt - 1));
    assert 2 * (50_000_000 * Pow2(attempt - 1)) == RetryBackoff(attempt);
  }

  lemma JitterOfEven(half: nat)
    requires 2 * half < 0x8000_0000_0000_0000
    ensures JitterRange(2 * half) == half + 1
  {
  }

  // ----- The loop -----

  /** The sleep before retry n: half the base, plus jitter up to the other half. */
  method Delay(attempt: nat, draw: (int, nat) -> nat) returns (ok: bool, delay: nat)
    requires 1 <= attempt <= 38 && forall n, k :: n > 0 ==> draw(n, k) < n
    ensures ok <==> attempt <= 37
    ensures ok ==> BASE_DELAY * Pow2(attempt - 1) / 2 <= delay <= BASE_DELAY * Pow2(attempt - 1)
    ensures ok ==> var half := 50_000_000 * Pow2(attempt - 1); delay == half + draw(half + 1, attempt)
  {
    BackoffOverflows();
    if attempt <= 37 {
      HalfTheBase(attempt);
    }
    var base := RetryBackoff(attempt);
    var range := JitterRange(base);
    if range <= 0 {
      return false, 0;
    }
    return true, base / 2 + draw(range, attempt);
  }

  /** Runs the attempts in order. `draw(n, k)` is the random number, below n, drawn
      before retry k. `made` counts attempts, `slept` the nanoseconds between them. */
  method RunAttempts<T>(verb: string, script: seq<Attempt<T>>, draw: (int, nat) -> nat)
    returns (outcome: Outcome<T>, made: nat, slept: nat)
    requires forall n, k :: n > 0 ==> draw(n, k) < n
    // The first response that is not a retryable status before the last attempt.
    ensures outcome.Final? ==>
      && 0 < made <= |script| && Decides(verb, script, made - 1)
      && (forall j :: 0 <= j < made - 1 ==> !Decides(verb, script, j))
      && outcome == Final(script[made - 1].status, script[made - 1].reply)
    // Exhausted exactly when there is none, and then with the last transport error.
    ensures outcome.Exhausted? ==> made == |script| && forall j :: 0 <= j < |script| ==> !Decides(verb, script, j)
    ensures outcome.Exhausted? && script != [] ==>
      script[|script| - 1] == Broken(outcome.cause)
    // A crash takes more than 38 attempts, none of the first 38 deciding.
    ensures outcome.Crashed? <==> |script| > 38 && FirstDeciding(verb, script, 0) >= 38
    ensures !outcome.Crashed? ==> outcome == OutcomeFrom(verb, script, 0)
    ensures slept <= if made == 0 then 0 else BASE_DELAY * (Pow2(made - 1) - 1)
    ensures 2 * slept >= if made == 0 then 0 else BASE_DELAY * (Pow2(made - 1) - 1)
  {
    var lastErr := "unknown error";
    var attempt := 1;
    made, slept := 0, 0;
    while attempt <= |script|
      invariant 1 <= attempt <= |script| + 1 && made == attempt - 1 <= 38
      invariant forall j :: 0 <= j < made ==> !Decides(verb, script, j)
      invariant FirstDeciding(verb, script, 0) == FirstDeciding(verb, script, made)
      invariant attempt == |script| + 1 && script != [] ==> script[|script| - 1] == Broken(lastErr)
      invariant script == [] ==> lastErr == "unknown error"
      invariant slept <= if made == 0 then 0 else BASE_DELAY * (Pow2(made - 1) - 1)
      invariant 2 * slept >= if made == 0 then 0 else BASE_DELAY * (Pow2(made - 1) - 1)
    {
      if attempt > 1 {
        var ok, delay := Delay(attempt - 1, draw);
        if !ok {
          return Crashed, made, slept;
        }
        slept := slept + delay;
      }
      made := attempt;
      match script[attempt - 1] {
        case Broken(cause) =>
          lastErr := cause;
        case Answered(status, reply) =>
          if !(RetryableStatus(verb, status) && attempt < |script|) {
            return Final(status, reply), made, slept;
          }
          lastErr := "HTTP " + Decimal.IntText(status);
      }
      attempt := attempt + 1;
    }
    return Exhausted(lastErr), made, slept;
  }
}
