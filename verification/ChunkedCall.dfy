/**
 A long command run in chunks: each attempt has its own timeout, timed-out and retryable attempts are continued,
 until an answer comes or the overall time budget is spent.
 */
module ChunkedCall {
  import opened Common
  import opened Strings

  /** How one attempt ends, and the seconds it takes. Broken is any other exception than the timeout. */
  datatype Chunk =
    | TimedOut(seconds: real)
    | Completed(seconds: real, code: int, stdout: string, stderr: string)
    | Broken(seconds: real, message: string)

  datatype CliError = Raised(message: string) | NoOutput | Failed(code: int) | EmptyOutput

  /** The timeout of one attempt, from the configured one. */
  function ChunkTimeout(configured: int): (c: int)
    ensures c >= 60 && c >= configured && (c == 60 || c == configured)
  {
    Max(60, configured)
  }

  function Budget(timeout: int, chunk: int): (b: int)
    ensures b >= timeout && b >= chunk && (b == timeout || b == chunk)
  {
    Max(timeout, chunk)
  }

  function MaxAttempts(budget: int, chunk: int): int
    requires chunk > 0
  {
    Min(50, budget / chunk + 3)
  }

  predicate IsAnswer(c: Chunk) {
    c.Completed? && c.code == 0 && Strip(c.stdout) != ""
  }

  /** The output speaks of a timeout. */
  predicate IsRetryable(c: Chunk)
    requires c.Completed?
  {
    var combined := Lower(c.stdout + "\n" + c.stderr);
    Contains(combined, "timeout") || Contains(combined, "timed out") || Contains(combined, "exceeded maximum timeout")
  }

  /** The output has one of two phrases in it; the third one looked for contains the first. */
  ghost predicate SpeaksOfTimeout(c: Chunk) {
    c.Completed? && (Contains(Lower(c.stdout + "\n" + c.stderr), "timeout") || Contains(Lower(c.stdout + "\n" + c.stderr), "timed out"))
  }

  lemma RetryableExact(c: Chunk)
    requires c.Completed?
    ensures IsRetryable(c) <==> SpeaksOfTimeout(c)
  {
    var combined := Lower(c.stdout + "\n" + c.stderr);
    if Contains(combined, "exceeded maximum timeout") {
      assert OccursAt("exceeded maximum timeout", "timeout", 17);
      ContainsThrough(combined, "exceeded maximum timeout", "timeout");
    }
  }

  /** When attempt n begins if all before it are made: after their running times, and a growing pause after each that completed. */
  ghost function StartTime(chunks: nat -> Chunk, n: nat): real {
    if n == 0 then 0.0
    else
      var before := chunks(n - 1);
      StartTime(chunks, n - 1) + before.seconds + (if before.Completed? then 1.0 + (n - 1) as real * 0.5 else 0.0)
  }

  lemma NextStart(chunks: nat -> Chunk, n: nat)
    ensures StartTime(chunks, n + 1) == StartTime(chunks, n) + chunks(n).seconds + Pause(chunks(n), n)
  {
  }

  /** The attempt leaves the call without an answer, and says or shows that it ran out of time. */
  ghost predicate Unfinished(c: Chunk) {
    !Answers(c) && (c.TimedOut? || SpeaksOfTimeout(c))
  }

  lemma UnfinishedExact(c: Chunk)
    ensures Answers(c) <==> IsAnswer(c)
    ensures Unfinished(c) <==> !c.Broken? && !IsAnswer(c) && (c.Completed? ==> IsRetryable(c))
  {
    if c.Completed? {
      RetryableExact(c);
      StripEmpty(c.stdout);
    }
  }

  /** The attempt gave a zero return code and output that is not blank. */
  ghost predicate Answers(c: Chunk) {
    c.Completed? && c.code == 0 && exists k :: 0 <= k < |c.stdout| && !IsSpace(c.stdout[k])
  }

  lemma {:induction false} StripEmpty(s: string)
    ensures Strip(s) != "" <==> exists k :: 0 <= k < |s| && !IsSpace(s[k])
  {
    StripTrims(s);
    var a, b := StripParts(s);
    if Strip(s) != "" {
      assert s[|a|] == Strip(s)[0];
    } else {
      assert s == a + b;
      assert forall k :: 0 <= k < |s| ==> s[k] in a || s[k] in b;
    }
  }

  /** The last of the first n attempts that ran to its end. */
  function LastCompleted(chunks: nat -> Chunk, n: nat): (k: Option<nat>)
    ensures k.Some? ==> k.value < n && chunks(k.value).Completed?
  {
    if n == 0 then None else if chunks(n - 1).Completed? then Some(n - 1) else LastCompleted(chunks, n - 1)
  }

  /** Attempt k is the last of the first n that completed. */
  ghost predicate DecidedBy(chunks: nat -> Chunk, n: nat, k: nat) {
    k < n && chunks(k).Completed? && forall j :: k < j < n ==> !chunks(j).Completed?
  }

  /** What the call makes of the attempts it started. */
  function Verdict(chunks: nat -> Chunk, started: nat): Result<string, CliError> {
    match LastCompleted(chunks, started)
    case None => Err(NoOutput)
    case Some(k) =>
      var c := chunks(k);
      if c.code != 0 then Err(Failed(c.code)) else if Strip(c.stdout) == "" then Err(EmptyOutput) else Ok(Strip(c.stdout))
  }

  lemma {:induction false} LastDecides(chunks: nat -> Chunk, n: nat, k: nat)
    requires DecidedBy(chunks, n, k)
    ensures LastCompleted(chunks, n) == Some(k)
    decreases n
  {
    if k < n - 1 {
      LastDecides(chunks, n - 1, k);
    }
  }

  /** Without a completed attempt there is no output; otherwise the last one counts. */
  lemma VerdictExact(chunks: nat -> Chunk, n: nat)
    requires n > 0 && !chunks(n - 1).Broken? && forall i :: 0 <= i < n - 1 ==> Unfinished(chunks(i))
    ensures Verdict(chunks, n).Ok? <==> Answers(chunks(n - 1))
    ensures Answers(chunks(n - 1)) ==> Verdict(chunks, n) == Ok(Strip(chunks(n - 1).stdout))
    ensures (forall i :: 0 <= i < n ==> !chunks(i).Completed?) ==> Verdict(chunks, n) == Err(NoOutput)
    ensures forall k: nat :: DecidedBy(chunks, n, k) && Verdict(chunks, n).Err? ==>
      Verdict(chunks, n).error == if chunks(k).code != 0 then Failed(chunks(k).code) else EmptyOutput
  {
    forall k: nat | DecidedBy(chunks, n, k)
      ensures LastCompleted(chunks, n) == Some(k)
    {
      LastDecides(chunks, n, k);
    }
    var k := LastCompleted(chunks, n);
    if k.Some? {
      UnfinishedExact(chunks(k.value));
    }
    UnfinishedExact(chunks(n - 1));
  }

  lemma MultipleFits(k: nat, budget: int, chunk: int)
    requires chunk > 0 && budget >= 0
    ensures k * chunk <= budget <==> k <= budget / chunk
  {
    var q, r := budget / chunk, budget % chunk;
    assert budget == q * chunk + r;
    if k <= q {
      assert k * chunk <= q * chunk;
    } else {
      assert k * chunk >= (q + 1) * chunk == q * chunk + chunk;
    }
  }

  /** All attempts run into the timeout, each taking exactly as long as it may. */
  ghost predicate AllTimeOut(chunks: nat -> Chunk, chunk: int) {
    forall i :: chunks(i) == TimedOut(chunk as real)
  }

  lemma {:induction false} TimeoutTimes(chunks: nat -> Chunk, chunk: int, n: nat)
    requires AllTimeOut(chunks, chunk)
    ensures StartTime(chunks, n) == (n * chunk) as real
  {
    if n > 0 {
      TimeoutTimes(chunks, chunk, n - 1);
      assert (n - 1) * chunk + chunk == n * chunk;
    }
  }

  /** With nothing but timeouts, the attempts that begin within the budget are one more than fit into it. */
  lemma OnlyTimeouts(chunks: nat -> Chunk, budget: int, chunk: int, started: nat)
    requires AllTimeOut(chunks, chunk) && 60 <= chunk <= budget && started > 0
    requires StartTime(chunks, started - 1) <= budget as real && started <= MaxAttempts(budget, chunk)
    requires started == MaxAttempts(budget, chunk) || StartTime(chunks, started) > budget as real
    ensures started == Min(50, budget / chunk + 1)
  {
    TimeoutTimes(chunks, chunk, started - 1);
    TimeoutTimes(chunks, chunk, started);
    MultipleFits(started - 1, budget, chunk);
    MultipleFits(started, budget, chunk);
  }

  /** The completed process the loop holds after n attempts. */
  function Process(chunks: nat -> Chunk, n: nat): Option<Chunk> {
    var k := LastCompleted(chunks, n);
    if k.Some? then Some(chunks(k.value)) else None
  }

  /**
   The loop over attempts. chunks says how each attempt would go; only attempts and the pauses between them take time.
   started is how many attempts were made, elapsed the time at the end.
   */
  method RunAttempts(budget: int, chunk: int, chunks: nat -> Chunk) returns (proc: Option<Chunk>, started: nat, elapsed: real)
    requires 60 <= chunk <= budget
    requires forall i :: 0.0 <= chunks(i).seconds <= chunk as real
    ensures elapsed <= (budget + chunk + 25) as real && 0 < started <= MaxAttempts(budget, chunk)
    ensures proc == Process(chunks, started)
    ensures AllTimeOut(chunks, chunk) ==> started == Min(50, budget / chunk + 1)
    // every attempt before the last is one to be continued
    ensures forall i :: 0 <= i < started - 1 ==> Unfinished(chunks(i))
    // and the last one is continued as well, unless it is the last allowed, or the time is up
    ensures Unfinished(chunks(started - 1)) ==> started == Min(50, budget / chunk + 3) || elapsed > budget as real
    // attempts begin within the budget; what is measured are their times and the pauses
    ensures forall i :: 0 <= i < started ==> StartTime(chunks, i) <= budget as real
    ensures elapsed == StartTime(chunks, started) || elapsed == StartTime(chunks, started - 1) + chunks(started - 1).seconds
  {
    var maxAttempts := MaxAttempts(budget, chunk);
    proc, started, elapsed := None, 0, 0.0;
    while started < maxAttempts
      invariant 0 <= started <= maxAttempts
      invariant 0.0 <= elapsed <= (budget + chunk + 25) as real
      invariant started == 0 ==> elapsed == 0.0
      invariant forall i :: 0 <= i < started ==> Unfinished(chunks(i))
      invariant elapsed == StartTime(chunks, started)
      invariant forall i :: 0 <= i < started ==> StartTime(chunks, i) <= budget as real
      invariant proc == Process(chunks, started)
    {
      if elapsed > budget as real {
        break;
      }
      var attempt := started;
      var c := chunks(attempt);
      started := attempt + 1;
      elapsed := elapsed + c.seconds;
      UnfinishedExact(c);
      NextStart(chunks, attempt);
      if c.Broken? {
        break;
      }
      if c.Completed? {
        proc := Some(c);
        if IsAnswer(c) || !IsRetryable(c) || attempt >= maxAttempts - 1 {
          break;
        }
      }
      elapsed := elapsed + Pause(c, attempt);
    }
    if AllTimeOut(chunks, chunk) {
      UnfinishedExact(chunks(started - 1));
      OnlyTimeouts(chunks, budget, chunk, started);
    }
  }

  /** The pause before a completed attempt is continued; a timed-out one is continued at once. */
  function Pause(c: Chunk, attempt: nat): (p: real)
    ensures 0.0 <= p <= 1.0 + attempt as real * 0.5
    ensures c.TimedOut? ==> p == 0.0
  {
    if c.Completed? then 1.0 + attempt as real * 0.5 else 0.0
  }

  method CallViaCli(timeout: int, configuredChunk: int, chunks: nat -> Chunk)
    returns (r: Result<string, CliError>, started: nat, elapsed: real)
    requires forall i :: 0.0 <= chunks(i).seconds <= ChunkTimeout(configuredChunk) as real
    // the call ends soon after its budget
    ensures var chunk := ChunkTimeout(configuredChunk);
      elapsed <= (Budget(timeout, chunk) + chunk + 25) as real
      && 0 < started <= MaxAttempts(Budget(timeout, chunk), chunk)
    // it goes on exactly while attempts are unfinished, with time and attempts left
    ensures forall i :: 0 <= i < started - 1 ==> Unfinished(chunks(i))
    ensures var chunk := Max(60, configuredChunk);
      Unfinished(chunks(started - 1)) ==>
        started == Min(50, Max(timeout, chunk) / chunk + 3) || elapsed > Max(timeout, chunk) as real
    // success is an answer from the last attempt
    ensures r.Ok? <==> Answers(chunks(started - 1))
    ensures r.Ok? ==> r.value == Strip(chunks(started - 1).stdout)
    // otherwise the last attempt that completed decides
    ensures chunks(started - 1).Broken? ==> r == Err(Raised(chunks(started - 1).message))
    ensures (forall i :: 0 <= i < started ==> chunks(i).TimedOut?) ==> r == Err(NoOutput)
    ensures r.Err? && !chunks(started - 1).Broken? ==> forall k: nat ::
      DecidedBy(chunks, started, k) ==> r.error == if chunks(k).code != 0 then Failed(chunks(k).code) else EmptyOutput
    ensures r == if chunks(started - 1).Broken? then Err(Raised(chunks(started - 1).message)) else Verdict(chunks, started)
    // with nothing but timeouts, the budget and not the cap of attempts decides, up to 50 attempts
    ensures var chunk := ChunkTimeout(configuredChunk);
      AllTimeOut(chunks, chunk) ==> started == Min(50, Budget(timeout, chunk) / chunk + 1)
  {
    var chunk := ChunkTimeout(configuredChunk);
    var proc;
    proc, started, elapsed := RunAttempts(Budget(timeout, chunk), chunk, chunks);
    if chunks(started - 1).Broken? {
      return Err(Raised(chunks(started - 1).message)), started, elapsed;
    }
    VerdictExact(chunks, started);
    if proc.None? {
      return Err(NoOutput), started, elapsed;
    }
    if proc.value.code != 0 {
      return Err(Failed(proc.value.code)), started, elapsed;
    }
    var content := Strip(proc.value.stdout);
    if content == "" {
      return Err(EmptyOutput), started, elapsed;
    }
    return Ok(content), started, elapsed;
  }
}
