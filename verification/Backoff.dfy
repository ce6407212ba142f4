/** The delays between attempts, on the worker's side and on the RQ side. */
module Backoff {
  import opened Common

  function Pow2(n: nat): (r: nat)
    ensures r > 0
  {
    if n == 0 then 1 else 2 * Pow2(n - 1)
  }

  /** The delay a worker asks for after the given number of failed attempts. */
  function Delay(attempts: nat): nat {
    Min(60, Pow2(attempts))
  }

  /** The intervals RQ is given: one for each retry, none for the first attempt. */
  function RetryIntervals(maxAttempts: int): (r: seq<nat>)
    ensures |r| == Max(0, maxAttempts - 1)
  {
    var maxRetries: nat := if maxAttempts - 1 > 0 then maxAttempts - 1 else 0;
    seq(maxRetries, i requires 0 <= i => Delay(i + 1))
  }

  /** The delays of the first n requeues of one job. */
  function Delays(n: nat): (r: seq<nat>)
    ensures |r| == n && forall k :: 0 <= k < n ==> r[k] == Delay(k + 1)
  {
    if n == 0 then [] else Delays(n - 1) + [Delay(n)]
  }

  function Sum(s: seq<nat>): nat {
    if s == [] then 0 else Sum(s[..|s| - 1]) + s[|s| - 1]
  }

  lemma {:induction false} Pow2Monotone(m: nat, n: nat)
    requires m <= n
    ensures Pow2(m) <= Pow2(n)
    decreases n
  {
    if m < n {
      Pow2Monotone(m, n - 1);
    }
  }

  /** As long as a job has attempts left, the worker's delays are the first RQ intervals. */
  lemma SchedulesAgree(n: nat, maxAttempts: int)
    requires n <= |RetryIntervals(maxAttempts)|
    ensures Delays(n) == RetryIntervals(maxAttempts)[..n]
  {
  }

  lemma SixthPower()
    ensures Pow2(5) == 32 && Pow2(6) == 64
  {
  }

  lemma DelayExact(n: nat)
    ensures Delay(n) == if n <= 5 then Pow2(n) else 60
  {
    SixthPower();
    if n <= 5 {
      Pow2Monotone(n, 5);
    } else {
      Pow2Monotone(6, n);
    }
  }

  lemma SumUnfold(n: nat)
    requires n > 0
    ensures Sum(Delays(n)) == Sum(Delays(n - 1)) + Delay(n)
  {
    assert Delays(n)[..n - 1] == Delays(n - 1);
  }

  /** 2 + 4 + ... doubles up to 32, then every further delay is a minute. */
  lemma {:induction false} TotalDelay(n: nat)
    ensures Sum(Delays(n)) == if n <= 5 then Pow2(n + 1) - 2 else 62 + 60 * (n - 5)
    decreases n
  {
    if n > 0 {
      TotalDelay(n - 1);
      SumUnfold(n);
      DelayExact(n);
      if n <= 5 {
        assert Pow2(n + 1) == 2 * Pow2(n);
      } else if n == 6 {
        SixthPower();
      }
    }
  }
}
