/**
 Bounded retry of one network command: only transient failures are repeated,
 and a caller that already spent attempts may resume the sequence.
 */
module RetryNetwork {
  import opened Wrappers

  const MAX_ATTEMPTS := 5
  const MAX_BACKOFF := 30
  const MAX_SLEEP := 60

  datatype Class = Permanent | Transient | Unclassified

  /** How one execution of the command ends. */
  datatype Outcome = NotExecuted(message: string) | Completed(returncode: int, stdout: string, stderr: string)

  /** What the command does at each attempt, and the signatures that classify its output. */
  datatype World = World(run: nat -> Outcome, classify: string -> Class)

  datatype Final = Succeeded | Recovered | RetryDisabled | TransientExhausted | Stopped(class_: Class)

  datatype RetryResult = RetryResult(returncode: int, attempts: nat, classification: Final, stdout: string)

  datatype Event = Ran(attempt: nat) | Slept(seconds: nat)

  datatype ArgumentError = BadAttempts | BadBackoff | NoCommand | BadPriorAttempts

  // ---- One attempt ----

  function CodeOf(o: Outcome): int {
    if o.NotExecuted? then 127 else o.returncode
  }

  function FailureCode(o: Outcome): int {
    if CodeOf(o) > 0 then CodeOf(o) else 1
  }

  function OutputOf(o: Outcome): string {
    if o.NotExecuted? then "\n" + o.message else o.stdout + "\n" + o.stderr
  }

  function ClassOf(w: World, attempt: nat): Class {
    w.classify(OutputOf(w.run(attempt)))
  }

  predicate Succeeds(w: World, attempt: nat) {
    CodeOf(w.run(attempt)) == 0
  }

  predicate FailsTransiently(w: World, attempt: nat) {
    !Succeeds(w, attempt) && ClassOf(w, attempt) == Transient
  }

  function Doublings(n: nat): nat {
    if n == 0 then 1 else 2 * Doublings(n - 1)
  }

  /** The pause after an attempt: it doubles every time, up to a limit. */
  function Delay(base: nat, attempt: nat): nat
    requires attempt > 0
  {
    var delay := base * Doublings(attempt - 1);
    if delay < MAX_SLEEP then delay else MAX_SLEEP
  }

  // ---- A run ----

  datatype Trace = Trace(result: RetryResult, log: seq<Event>)

  function Attempt(w: World, attempts: nat, base: nat, attempt: nat): Trace
    requires 1 <= attempt <= attempts
    decreases attempts - attempt
  {
    var o := w.run(attempt);
    if Succeeds(w, attempt) then
      Trace(RetryResult(0, attempt, if attempt == 1 then Succeeded else Recovered,
                        if o.Completed? then o.stdout else ""), [Ran(attempt)])
    else if !FailsTransiently(w, attempt) then
      Trace(RetryResult(FailureCode(o), attempt, Stopped(ClassOf(w, attempt)), ""), [Ran(attempt)])
    else if attempt == attempts then
      Trace(RetryResult(FailureCode(o), attempt, TransientExhausted, ""), [Ran(attempt)])
    else
      var rest := Attempt(w, attempts, base, attempt + 1);
      Trace(rest.result, [Ran(attempt), Slept(Delay(base, attempt))] + rest.log)
  }

  predicate Allowed(attempts: int, base: int, hasCommand: bool, prior: int) {
    1 <= attempts <= MAX_ATTEMPTS && 0 <= base <= MAX_BACKOFF && hasCommand && 0 <= prior < MAX_ATTEMPTS
  }

  /** The run of a caller that already failed so many times. */
  function Resume(w: World, attempts: nat, base: nat, prior: nat): Trace {
    if prior >= attempts then Trace(RetryResult(1, prior, RetryDisabled, ""), [])
    else if prior == 0 then Attempt(w, attempts, base, 1)
    else
      var rest := Attempt(w, attempts, base, prior + 1);
      Trace(rest.result, [Slept(Delay(base, prior))] + rest.log)
  }

  method RunWithRetry(w: World, attempts: int, base: int, hasCommand: bool, prior: int)
    returns (r: Result<RetryResult, ArgumentError>, log: seq<Event>)
    ensures r.Success? <==> Allowed(attempts, base, hasCommand, prior)
    ensures r.Success? ==> Trace(r.value, log) == Resume(w, attempts, base, prior)
    ensures r.Failure? ==> log == []
  {
    log := [];
    if !(1 <= attempts <= MAX_ATTEMPTS) {
      return Failure(BadAttempts), log;
    }
    if !(0 <= base <= MAX_BACKOFF) {
      return Failure(BadBackoff), log;
    }
    if !hasCommand {
      return Failure(NoCommand), log;
    }
    if !(0 <= prior < MAX_ATTEMPTS) {
      return Failure(BadPriorAttempts), log;
    }
    if prior >= attempts {
      return Success(RetryResult(1, prior, RetryDisabled, "")), log;
    }
    if prior > 0 {
      log := log + [Slept(Delay(base, prior))];
    }
    var result, rest := RunAttempts(w, attempts, base, prior + 1);
    return Success(result), log + rest;
  }

  function Prefixed(log: seq<Event>, t: Trace): Trace {
    Trace(t.result, log + t.log)
  }

  method RunAttempts(w: World, attempts: nat, base: nat, first: nat) returns (r: RetryResult, log: seq<Event>)
    requires 1 <= first <= attempts
    ensures Trace(r, log) == Attempt(w, attempts, base, first)
  {
    hide Delay;
    log := [];
    var classification, returncode, attempt := Unclassified, 1, first;
    ghost var all := Attempt(w, attempts, base, first);
    while true
      invariant first <= attempt <= attempts
      invariant all == Prefixed(log, Attempt(w, attempts, base, attempt))
      decreases attempts - attempt
    {
      var completed := w.run(attempt);
      log := log + [Ran(attempt)];
      returncode := CodeOf(completed);
      if returncode == 0 {
        return RetryResult(0, attempt, if attempt == 1 then Succeeded else Recovered, completed.stdout), log;
      }
      returncode := if returncode > 0 then returncode else 1;
      classification := w.classify(OutputOf(completed));
      if classification != Transient || attempt == attempts {
        break;
      }
      log := log + [Slept(Delay(base, attempt))];
      attempt := attempt + 1;
    }
    var final := if classification == Transient then TransientExhausted else Stopped(classification);
    return RetryResult(returncode, attempt, final, ""), log;
  }

  // ---- Resuming ----

  /** The log of k transient failures, up to but without the pause after the last of them. */
  function Failures(base: nat, from: nat, k: nat): seq<Event>
    requires 1 <= from <= k
    decreases k - from
  {
    if from == k then [Ran(k)] else [Ran(from), Slept(Delay(base, from))] + Failures(base, from + 1, k)
  }

  lemma {:induction false} AttemptAfterFailures(w: World, attempts: nat, base: nat, from: nat, k: nat)
    requires 1 <= from <= k < attempts
    requires forall i: nat | from <= i <= k :: FailsTransiently(w, i)
    ensures Attempt(w, attempts, base, from).result == Attempt(w, attempts, base, k + 1).result
    ensures Attempt(w, attempts, base, from).log
         == Failures(base, from, k) + [Slept(Delay(base, k))] + Attempt(w, attempts, base, k + 1).log
    decreases k - from
  {
    assert FailsTransiently(w, from);
    if from < k {
      AttemptAfterFailures(w, attempts, base, from + 1, k);
    }
  }

  /**
   A run that resumes after k failures is the tail of the uninterrupted run whose
   first k commands failed transiently: the same later commands, the same pauses
   from attempt k on, the same result.
   */
  lemma ResumedRunIsTail(w: World, attempts: nat, base: nat, k: nat)
    requires 0 < k < attempts && forall i: nat | 1 <= i <= k :: FailsTransiently(w, i)
    ensures Resume(w, attempts, base, 0).result == Resume(w, attempts, base, k).result
    ensures Resume(w, attempts, base, 0).log == Failures(base, 1, k) + Resume(w, attempts, base, k).log
  {
    AttemptAfterFailures(w, attempts, base, 1, k);
  }

  // ---- What a run did ----

  function Commands(log: seq<Event>): seq<nat> {
    if log == [] then []
    else (if log[0].Ran? then [log[0].attempt] else []) + Commands(log[1..])
  }

  function SecondsSlept(log: seq<Event>): nat {
    if log == [] then 0
    else (if log[0].Slept? then log[0].seconds else 0) + SecondsSlept(log[1..])
  }

  function UpTo(from: nat, last: nat): seq<nat>
    requires from <= last + 1
  {
    seq(last + 1 - from, i requires 0 <= i => from + i)
  }

  /** The commands run in order and without gaps. */
  lemma {:induction false} CommandsAreConsecutive(w: World, attempts: nat, base: nat, attempt: nat)
    requires 1 <= attempt <= attempts
    ensures var t := Attempt(w, attempts, base, attempt);
            attempt <= t.result.attempts <= attempts && Commands(t.log) == UpTo(attempt, t.result.attempts)
    decreases attempts - attempt
  {
    var t := Attempt(w, attempts, base, attempt);
    assert [Ran(attempt)][1..] == [];
    if t.log != [Ran(attempt)] {
      CommandsAreConsecutive(w, attempts, base, attempt + 1);
      var rest := Attempt(w, attempts, base, attempt + 1);
      assert t.log[1..] == [Slept(Delay(base, attempt))] + rest.log && t.log[1..][1..] == rest.log;
      assert UpTo(attempt, t.result.attempts) == [attempt] + UpTo(attempt + 1, t.result.attempts);
    } else {
      assert Commands(t.log) == [attempt];
    }
  }

  /** All commands but the last fail transiently, and the result says how the last one ended. */
  lemma {:induction false} OnlyTransientFailuresRepeat(w: World, attempts: nat, base: nat, attempt: nat)
    requires 1 <= attempt <= attempts
    ensures var r := Attempt(w, attempts, base, attempt).result;
            && attempt <= r.attempts <= attempts
            && (forall i: nat | attempt <= i < r.attempts :: FailsTransiently(w, i))
            && (r.attempts == attempts || !FailsTransiently(w, r.attempts))
            && (r.returncode == 0 <==> Succeeds(w, r.attempts))
            && (r.classification == (if r.attempts == 1 then Succeeded else Recovered) <==> Succeeds(w, r.attempts))
            && (r.classification == TransientExhausted <==> r.attempts == attempts && FailsTransiently(w, attempts))
            && (r.classification.Stopped? <==> !Succeeds(w, r.attempts) && !FailsTransiently(w, r.attempts))
    decreases attempts - attempt
  {
    if FailsTransiently(w, attempt) && attempt < attempts {
      OnlyTransientFailuresRepeat(w, attempts, base, attempt + 1);
    }
  }

  /** A run fails as exhausted exactly when every attempt that was left failed transiently. */
  lemma ExhaustedIff(w: World, attempts: nat, base: nat, prior: nat)
    requires prior < attempts
    ensures Resume(w, attempts, base, prior).result.classification == TransientExhausted <==>
            forall i: nat | prior < i <= attempts :: FailsTransiently(w, i)
  {
    OnlyTransientFailuresRepeat(w, attempts, base, prior + 1);
    var last := Attempt(w, attempts, base, prior + 1).result.attempts;
    assert last < attempts ==> !FailsTransiently(w, last);
  }

  /** A run succeeds exactly when some attempt does after transient failures only. */
  lemma SucceedsIff(w: World, attempts: nat, base: nat, prior: nat)
    requires prior < attempts
    ensures Resume(w, attempts, base, prior).result.returncode == 0 <==>
            exists k: nat :: prior < k <= attempts && Succeeds(w, k)
                             && forall i: nat | prior < i < k :: FailsTransiently(w, i)
  {
    OnlyTransientFailuresRepeat(w, attempts, base, prior + 1);
    var last := Attempt(w, attempts, base, prior + 1).result.attempts;
    if k: nat :| prior < k <= attempts && Succeeds(w, k) && forall i: nat | prior < i < k :: FailsTransiently(w, i) {
      assert !FailsTransiently(w, k);
      assert last < attempts ==> !FailsTransiently(w, last);
    }
  }

  // ---- How long it takes ----

  lemma DelayBound(base: nat, attempt: nat)
    requires base <= MAX_BACKOFF && attempt > 0
    ensures Delay(base, attempt) <= if attempt == 1 then 30 else 60
  {
  }

  lemma {:induction false} SleepBound(w: World, attempts: nat, base: nat, attempt: nat)
    requires 1 <= attempt <= attempts && base <= MAX_BACKOFF
    ensures SecondsSlept(Attempt(w, attempts, base, attempt).log) <= 60 * (attempts - attempt)
    ensures attempt == 1 < attempts ==> SecondsSlept(Attempt(w, attempts, base, 1).log) <= 60 * (attempts - 1) - 30
    decreases attempts - attempt
  {
    var t := Attempt(w, attempts, base, attempt);
    assert [Ran(attempt)][1..] == [];
    if t.log != [Ran(attempt)] {
      SleepBound(w, attempts, base, attempt + 1);
      DelayBound(base, attempt);
      var rest := Attempt(w, attempts, base, attempt + 1);
      assert t.log[1..] == [Slept(Delay(base, attempt))] + rest.log && t.log[1..][1..] == rest.log;
    } else {
      assert SecondsSlept(t.log) == 0;
    }
  }

  /** Whatever the command does, all pauses of a run last at most 210 seconds together. */
  lemma TotalSleepIsBounded(w: World, attempts: nat, base: nat, prior: nat)
    requires Allowed(attempts, base, true, prior)
    ensures SecondsSlept(Resume(w, attempts, base, prior).log) <= 210
  {
    if prior < attempts {
      SleepBound(w, attempts, base, prior + 1);
      if prior > 0 {
        DelayBound(base, prior);
        var rest := Attempt(w, attempts, base, prior + 1);
        assert Resume(w, attempts, base, prior).log[1..] == rest.log;
      }
    }
  }
}
