/**
 Waiting for the lock of a service: try, pause and try again until it is taken
 or the deadline has passed; whatever happens inside, the lock is given back.
 Times are in seconds.
 */
module ServiceLock {

  const MAX_TIMEOUT: real := 3600.0
  const PAUSE: real := 0.05

  datatype Try = Taken | Busy | Broken

  /** When waiting begins, what every try finds, and the clock read after every failed one. */
  datatype World = World(start: real, tries: nat -> Try, clock: nat -> real)

  datatype Ending = Acquired | TimedOut | LockFailed

  datatype Wait = Wait(ending: Ending, tries: nat, slept: real)

  function Remaining(w: World, timeout: real, i: nat): real {
    w.start + timeout - w.clock(i)
  }

  function PauseFor(remaining: real): real {
    if remaining < PAUSE then remaining else PAUSE
  }

  /** The pause after a failed try lasts at least as long as it was asked to. */
  predicate PauseLasts(w: World, timeout: real, i: nat) {
    Remaining(w, timeout, i) > 0.0 ==> w.clock(i) + PauseFor(Remaining(w, timeout, i)) <= w.clock(i + 1)
  }

  /** The clock does not go back before the first try, and every pause lasts. */
  ghost predicate PausesLast(w: World, timeout: real) {
    w.start <= w.clock(0) && forall i: nat :: PauseLasts(w, timeout, i)
  }

  /** How many more pauses fit in the time that remains. */
  function PausesLeft(remaining: real): nat {
    if remaining <= 0.0 then 0
    else
      assert (20.0 * remaining).Floor >= 0;
      (20.0 * remaining).Floor + 1
  }

  lemma PauseUsesTime(remaining: real, next: real)
    requires remaining > 0.0 && next <= remaining - PauseFor(remaining)
    ensures PausesLeft(next) < PausesLeft(remaining)
  {
    if remaining > PAUSE && next > 0.0 {
      assert 20.0 * next <= 20.0 * remaining - 1.0;
    }
  }

  lemma NextHasFewer(w: World, timeout: real, i: nat)
    requires PausesLast(w, timeout) && Remaining(w, timeout, i) > 0.0
    ensures PausesLeft(Remaining(w, timeout, i + 1)) < PausesLeft(Remaining(w, timeout, i))
  {
    assert PauseLasts(w, timeout, i);
    PauseUsesTime(Remaining(w, timeout, i), Remaining(w, timeout, i + 1));
  }

  /** Waiting from try i on. */
  ghost function WaitFrom(w: World, timeout: real, i: nat): Wait
    requires PausesLast(w, timeout)
    decreases PausesLeft(Remaining(w, timeout, i))
  {
    if w.tries(i) == Taken then Wait(Acquired, i + 1, 0.0)
    else if w.tries(i) == Broken then Wait(LockFailed, i + 1, 0.0)
    else if Remaining(w, timeout, i) <= 0.0 then Wait(TimedOut, i + 1, 0.0)
    else
      NextHasFewer(w, timeout, i);
      var rest := WaitFrom(w, timeout, i + 1);
      Wait(rest.ending, rest.tries, PauseFor(Remaining(w, timeout, i)) + rest.slept)
  }

  datatype Body = Returns | Raises

  datatype Outcome = BadTimeout | NotAcquired(ending: Ending) | Ran(body: Body)

  class LockFile {
    /** Whether this process holds the lock. */
    var held: bool

    constructor ()
      ensures !held
    {
      held := false;
    }

    method Acquire(w: World, timeout: real) returns (ending: Ending, ghost wait: Wait)
      requires !held && PausesLast(w, timeout)
      modifies this
      ensures wait == WaitFrom(w, timeout, 0) && ending == wait.ending
      ensures held <==> ending == Acquired
    {
      var i: nat, deadline := 0, w.start + timeout;
      ghost var slept: real := 0.0;
      wait := WaitFrom(w, timeout, 0);
      while true
        invariant !held
        invariant wait.ending == WaitFrom(w, timeout, i).ending
        invariant wait.tries == WaitFrom(w, timeout, i).tries
        invariant wait.slept == slept + WaitFrom(w, timeout, i).slept
        decreases PausesLeft(Remaining(w, timeout, i))
      {
        match w.tries(i) {
          case Taken =>
            held := true;
            ending := Acquired;
            return;
          case Broken =>
            ending := LockFailed;
            return;
          case Busy =>
            var remaining := deadline - w.clock(i);
            if remaining <= 0.0 {
              ending := TimedOut;
              return;
            }
            NextHasFewer(w, timeout, i);
            slept := slept + PauseFor(remaining);
            i := i + 1;
        }
      }
    }

    method Release()
      requires held
      modifies this
      ensures !held
    {
      held := false;
    }

    /** The body runs exactly when the lock was taken, and no exit keeps it. */
    method WithLock(w: World, timeout: real, body: Body) returns (r: Outcome)
      requires !held && PausesLast(w, timeout)
      modifies this
      ensures !held
      ensures r == if !(0.0 <= timeout <= MAX_TIMEOUT) then BadTimeout
                   else if WaitFrom(w, timeout, 0).ending == Acquired then Ran(body)
                   else NotAcquired(WaitFrom(w, timeout, 0).ending)
    {
      if !(0.0 <= timeout <= MAX_TIMEOUT) {
        return BadTimeout;
      }
      var ending, _ := Acquire(w, timeout);
      if ending != Acquired {
        return NotAcquired(ending);
      }
      Release();
      return Ran(body);
    }
  }

  // ---- What waiting guarantees ----

  lemma {:induction false} WaitingStops(w: World, timeout: real, i: nat)
    requires PausesLast(w, timeout)
    ensures var r := WaitFrom(w, timeout, i);
            && i < r.tries <= i + 1 + PausesLeft(Remaining(w, timeout, i))
            && (forall j: nat | i <= j < r.tries - 1 :: w.tries(j) == Busy && Remaining(w, timeout, j) > 0.0)
            && (r.ending == Acquired <==> w.tries(r.tries - 1) == Taken)
            && (r.ending == LockFailed <==> w.tries(r.tries - 1) == Broken)
            && (r.ending == TimedOut ==> Remaining(w, timeout, r.tries - 1) <= 0.0)
    decreases PausesLeft(Remaining(w, timeout, i))
  {
    if w.tries(i) == Busy && Remaining(w, timeout, i) > 0.0 {
      NextHasFewer(w, timeout, i);
      WaitingStops(w, timeout, i + 1);
    }
  }

  lemma {:induction false} SleepsWithinTime(w: World, timeout: real, i: nat)
    requires PausesLast(w, timeout)
    ensures var slept := WaitFrom(w, timeout, i).slept;
            slept == 0.0 || 0.0 < slept <= Remaining(w, timeout, i)
    decreases PausesLeft(Remaining(w, timeout, i))
  {
    if w.tries(i) == Busy && Remaining(w, timeout, i) > 0.0 {
      NextHasFewer(w, timeout, i);
      assert PauseLasts(w, timeout, i);
      SleepsWithinTime(w, timeout, i + 1);
    }
  }

  /**
   The wait ends after boundedly many tries and asks for no more sleep than the
   timeout. It gives up only once the deadline has passed, every try being busy;
   a timeout of zero means a single try.
   */
  lemma WaitIsBounded(w: World, timeout: real)
    requires PausesLast(w, timeout) && 0.0 <= timeout <= MAX_TIMEOUT
    ensures var r := WaitFrom(w, timeout, 0);
            && 1 <= r.tries <= (20.0 * timeout).Floor + 2 && r.slept <= timeout
            && (timeout == 0.0 ==> r.tries == 1)
            && (r.ending == TimedOut ==> w.clock(r.tries - 1) >= w.start + timeout
                                         && forall j: nat | j < r.tries :: w.tries(j) == Busy)
  {
    WaitingStops(w, timeout, 0);
    SleepsWithinTime(w, timeout, 0);
    var r := WaitFrom(w, timeout, 0);
    assert 20.0 * Remaining(w, timeout, 0) <= 20.0 * timeout;
    if r.ending == TimedOut {
      assert w.tries(r.tries - 1) == Busy;
    }
  }

  /** The lock is taken exactly when some try finds it free and every earlier one was busy with time left. */
  lemma AcquiredIff(w: World, timeout: real)
    requires PausesLast(w, timeout)
    ensures WaitFrom(w, timeout, 0).ending == Acquired <==>
            exists k: nat :: w.tries(k) == Taken
                             && forall j: nat | j < k :: w.tries(j) == Busy && Remaining(w, timeout, j) > 0.0
  {
    WaitingStops(w, timeout, 0);
    if k: nat :| w.tries(k) == Taken && forall j: nat | j < k :: w.tries(j) == Busy && Remaining(w, timeout, j) > 0.0 {
      EndsAtTaken(w, timeout, 0, k);
    }
  }

  lemma {:induction false} EndsAtTaken(w: World, timeout: real, i: nat, k: nat)
    requires PausesLast(w, timeout) && i <= k && w.tries(k) == Taken
    requires forall j: nat | i <= j < k :: w.tries(j) == Busy && Remaining(w, timeout, j) > 0.0
    ensures WaitFrom(w, timeout, i).ending == Acquired
    decreases k - i
  {
    if i < k {
      assert w.tries(i) == Busy && Remaining(w, timeout, i) > 0.0;
      NextHasFewer(w, timeout, i);
      EndsAtTaken(w, timeout, i + 1, k);
    }
  }
}
