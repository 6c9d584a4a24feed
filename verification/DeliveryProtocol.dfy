/**
 Any number of deliveries running at once. Each process takes the lock of its
 service, checks out, runs preflight, synchronizes, runs postflight and leaves.
 A schedule interleaves their steps arbitrarily; steps may fail, and a process
 may die at any point, in which case the operating system drops its lock.
 */
module DeliveryProtocol {

  type Pid = nat

  /** Where one delivery works; its lock file and destination are named after the service. */
  datatype Config = Config(service: string, lockRoot: string, deployRoot: string)

  datatype Lock = Lock(root: string, service: string)
  datatype Destination = Destination(root: string, service: string)

  type Configs = Pid -> Config

  datatype Ending =
    | TimedOut | CheckoutFailed | GatesRaised | PreflightRefused | SyncFailed | Delivered(ready: bool) | Died

  datatype Stage =
    | Idle
    | Waiting
    | Locked
    | CheckedOut
    | Cleared
    | Syncing
    | Synced(changed: bool)
    | Leaving(ending: Ending)
    | Gone(ending: Ending)

  /** What a destination holds: the last synchronization, which may have been cut short. */
  datatype Files = Original | TornBy(pid: Pid) | SyncedBy(pid: Pid)

  datatype Event =
    | PreflightPassed(pid: Pid)
    | SyncBegun(pid: Pid)
    | SyncEnded(pid: Pid)
    | Postflight(pid: Pid, changed: bool, examined: Files)

  datatype State = State(
    stages: map<Pid, Stage>,
    holders: map<Lock, Pid>,
    destinations: map<Destination, Files>,
    log: seq<Event>)

  datatype Action =
    | Start
    | TryLock
    | GiveUp
    | Checkout(ok: bool)
    | Preflight(passed: bool)
    | PreflightRaises
    | DryRunUnchanged
    | SyncRefused
    | SyncBegins
    | SyncEnds(ok: bool)
    | PostflightRuns(passed: bool)
    | PostflightRaises
    | Leave
    | Die

  datatype Move = Move(pid: Pid, action: Action)

  const INITIAL := State(map[], map[], map[], [])

  function LockOf(c: Config): Lock {
    Lock(c.lockRoot, c.service)
  }

  function DestinationOf(c: Config): Destination {
    Destination(c.deployRoot, c.service)
  }

  function StageOf(s: State, p: Pid): Stage {
    if p in s.stages then s.stages[p] else Idle
  }

  function FilesAt(s: State, d: Destination): Files {
    if d in s.destinations then s.destinations[d] else Original
  }

  /** Between taking the lock and giving it back. */
  predicate Inside(stage: Stage) {
    !(stage.Idle? || stage.Waiting? || stage.Gone?)
  }

  function At(s: State, p: Pid, stage: Stage): State {
    s.(stages := s.stages[p := stage])
  }

  /** The process gives up whatever it holds. */
  function Ended(cs: Configs, s: State, p: Pid, ending: Ending): State {
    var lock := LockOf(cs(p));
    var freed := if lock in s.holders && s.holders[lock] == p then s.holders - {lock} else s.holders;
    At(s, p, Gone(ending)).(holders := freed)
  }

  /** One step; an action that is not enabled changes nothing. */
  function Step(cs: Configs, s: State, m: Move): State {
    var p := m.pid;
    var lock, destination := LockOf(cs(p)), DestinationOf(cs(p));
    match (StageOf(s, p), m.action)
    case (Idle, Start) => At(s, p, Waiting)
    case (Waiting, TryLock) =>
      if lock in s.holders then s else At(s, p, Locked).(holders := s.holders[lock := p])
    case (Waiting, GiveUp) =>
      if lock in s.holders then At(s, p, Gone(TimedOut)) else s
    case (Locked, Checkout(ok)) => At(s, p, if ok then CheckedOut else Leaving(CheckoutFailed))
    case (CheckedOut, Preflight(passed)) =>
      if passed then At(s, p, Cleared).(log := s.log + [PreflightPassed(p)]) else At(s, p, Leaving(PreflightRefused))
    case (CheckedOut, PreflightRaises) => At(s, p, Leaving(GatesRaised))
    case (Cleared, DryRunUnchanged) => At(s, p, Synced(false))
    case (Cleared, SyncRefused) => At(s, p, Leaving(SyncFailed))
    case (Cleared, SyncBegins) =>
      At(s, p, Syncing).(destinations := s.destinations[destination := TornBy(p)], log := s.log + [SyncBegun(p)])
    case (Syncing, SyncEnds(ok)) =>
      if ok then
        At(s, p, Synced(true)).(
          destinations := s.destinations[destination := SyncedBy(p)], log := s.log + [SyncEnded(p)])
      else
        At(s, p, Leaving(SyncFailed))
    case (Synced(changed), PostflightRuns(passed)) =>
      At(s, p, Leaving(Delivered(passed))).(log := s.log + [Postflight(p, changed, FilesAt(s, destination))])
    case (Synced(_), PostflightRaises) => At(s, p, Leaving(GatesRaised))
    case (Leaving(ending), Leave) => Ended(cs, s, p, ending)
    case (Gone(_), _) => s
    case (_, Die) => Ended(cs, s, p, Died)
    case _ => s
  }

  /** The state after a schedule; every reachable state is one of these. */
  function Run(cs: Configs, schedule: seq<Move>): State {
    if schedule == [] then INITIAL
    else Step(cs, Run(cs, schedule[..|schedule| - 1]), schedule[|schedule| - 1])
  }

  /** The adapters' arrangement: deliveries to one destination contend for one lock. */
  ghost predicate OneLockPerDestination(cs: Configs) {
    forall p: Pid, q: Pid | DestinationOf(cs(p)) == DestinationOf(cs(q)) :: LockOf(cs(p)) == LockOf(cs(q))
  }

  /** A destination is private to one process at a time. */
  ghost predicate Exclusive(cs: Configs, s: State) {
    forall p: Pid, q: Pid |
      Inside(StageOf(s, p)) && Inside(StageOf(s, q)) && DestinationOf(cs(p)) == DestinationOf(cs(q)) :: p == q
  }

  predicate IsSyncOf(e: Event, q: Pid) {
    e == SyncBegun(q) || e == SyncEnded(q)
  }

  /** Exactly the processes inside hold their locks. */
  ghost predicate LocksMatch(cs: Configs, s: State) {
    forall p: Pid :: Inside(StageOf(s, p)) <==> Holds(cs, s, p)
  }

  ghost predicate HoldersMatch(cs: Configs, s: State) {
    forall lock | lock in s.holders :: LockOf(cs(s.holders[lock])) == lock
  }

  /** What a step of p can do to the stages and the locks. */
  ghost predicate LockFacts(cs: Configs, s: State, s': State, p: Pid) {
    var lock := LockOf(cs(p));
    && (forall q: Pid | q != p :: StageOf(s', q) == StageOf(s, q))
    && if Inside(StageOf(s', p)) then
         if Inside(StageOf(s, p)) then s'.holders == s.holders
         else lock !in s.holders && s'.holders == s.holders[lock := p]
       else
         if lock in s.holders && s.holders[lock] == p then s'.holders == s.holders - {lock}
         else s'.holders == s.holders
  }

  predicate Holds(cs: Configs, s: State, p: Pid) {
    LockOf(cs(p)) in s.holders && s.holders[LockOf(cs(p))] == p
  }

  lemma StepHasLockFacts(cs: Configs, s: State, m: Move)
    requires Inside(StageOf(s, m.pid)) <==> Holds(cs, s, m.pid)
    ensures LockFacts(cs, s, Step(cs, s, m), m.pid)
  {
  }

  lemma LockFactsKeepMatch(cs: Configs, s: State, s': State, p: Pid)
    requires LocksMatch(cs, s) && HoldersMatch(cs, s) && LockFacts(cs, s, s', p)
    ensures LocksMatch(cs, s') && HoldersMatch(cs, s')
  {
    forall q: Pid
      ensures Inside(StageOf(s', q)) <==> Holds(cs, s', q)
    {
      assert Inside(StageOf(s, q)) <==> Holds(cs, s, q);
    }
  }

  lemma {:induction false} LocksAlwaysMatch(cs: Configs, schedule: seq<Move>)
    ensures LocksMatch(cs, Run(cs, schedule)) && HoldersMatch(cs, Run(cs, schedule))
  {
    if schedule != [] {
      var before, m := schedule[..|schedule| - 1], schedule[|schedule| - 1];
      LocksAlwaysMatch(cs, before);
      assert Inside(StageOf(Run(cs, before), m.pid)) <==> Holds(cs, Run(cs, before), m.pid);
      StepHasLockFacts(cs, Run(cs, before), m);
      LockFactsKeepMatch(cs, Run(cs, before), Run(cs, schedule), m.pid);
    }
  }

  lemma MatchedLocksExclude(cs: Configs, s: State)
    requires OneLockPerDestination(cs) && LocksMatch(cs, s)
    ensures Exclusive(cs, s)
  {
  }

  /**
   Over every schedule, no two processes are inside for one destination, exactly
   when deliveries to one destination contend for one lock.
   */
  lemma ExclusiveIffOneLock(cs: Configs)
    ensures (forall schedule :: Exclusive(cs, Run(cs, schedule))) <==> OneLockPerDestination(cs)
  {
    if OneLockPerDestination(cs) {
      forall schedule
        ensures Exclusive(cs, Run(cs, schedule))
      {
        LocksAlwaysMatch(cs, schedule);
        MatchedLocksExclude(cs, Run(cs, schedule));
      }
    } else {
      var p: Pid, q: Pid :| DestinationOf(cs(p)) == DestinationOf(cs(q)) && LockOf(cs(p)) != LockOf(cs(q));
      TwoLocksCollide(cs, p, q);
    }
  }

  /** With two locks for one destination, four steps put two processes inside it. */
  lemma TwoLocksCollide(cs: Configs, p: Pid, q: Pid)
    requires DestinationOf(cs(p)) == DestinationOf(cs(q)) && LockOf(cs(p)) != LockOf(cs(q))
    ensures exists schedule :: !Exclusive(cs, Run(cs, schedule))
  {
    var s1 := [Move(p, Start)];
    var s2 := s1 + [Move(p, TryLock)];
    var s3 := s2 + [Move(q, Start)];
    var s4 := s3 + [Move(q, TryLock)];
    assert s1[..0] == [] && s2[..1] == s1 && s3[..2] == s2 && s4[..3] == s3;
    assert Run(cs, s1) == Step(cs, INITIAL, Move(p, Start));
    assert StageOf(Run(cs, s2), p) == Locked;
    assert StageOf(Run(cs, s3), p) == Locked;
    assert StageOf(Run(cs, s4), p) == Locked && StageOf(Run(cs, s4), q) == Locked;
  }

  /** Sharing the lock and deploy roots is enough. */
  lemma SharedRootsGiveOneLock(cs: Configs)
    requires forall p: Pid, q: Pid :: cs(p).lockRoot == cs(q).lockRoot && cs(p).deployRoot == cs(q).deployRoot
    ensures OneLockPerDestination(cs)
  {
    forall p: Pid, q: Pid | DestinationOf(cs(p)) == DestinationOf(cs(q))
      ensures LockOf(cs(p)) == LockOf(cs(q))
    {
      assert cs(p).lockRoot == cs(q).lockRoot;
    }
  }

  /** Every way out frees the lock: whoever holds one is still inside. */
  lemma ExitsFreeLocks(cs: Configs, schedule: seq<Move>)
    ensures var s := Run(cs, schedule);
            && (forall lock | lock in s.holders :: Inside(StageOf(s, s.holders[lock])))
            && ((forall p: Pid :: StageOf(s, p).Gone? || StageOf(s, p).Idle?) ==> s.holders == map[])
  {
    LocksAlwaysMatch(cs, schedule);
    var s := Run(cs, schedule);
    forall lock | lock in s.holders
      ensures Inside(StageOf(s, s.holders[lock]))
    {
      assert LockOf(cs(s.holders[lock])) == lock;
    }
    if s.holders != map[] {
      var lock :| lock in s.holders;
      assert Inside(StageOf(s, s.holders[lock]));
    }
  }

  // ---- Order of events ----

  predicate PastPreflight(stage: Stage) {
    stage.Cleared? || stage.Syncing? || stage.Synced?
  }

  predicate NeverSynced(stage: Stage) {
    stage.Idle? || stage.Waiting? || stage.Locked? || stage.CheckedOut? || stage.Cleared? || stage == Synced(false)
  }

  /** What a step of p adds to the log, and how its stage and its destination go with that. */
  ghost predicate EventFacts(cs: Configs, s: State, s': State, p: Pid) {
    var before, after, d := StageOf(s, p), StageOf(s', p), DestinationOf(cs(p));
    && (forall q: Pid | q != p :: StageOf(s', q) == StageOf(s, q))
    && if s'.log == s.log then
         && s'.destinations == s.destinations
         && (PastPreflight(after) ==> PastPreflight(before))
         && (NeverSynced(after) ==> NeverSynced(before))
         && (after.Syncing? || after == Synced(true) ==> after == before)
       else
         && |s'.log| == |s.log| + 1 && s.log == s'.log[..|s.log|]
         && match s'.log[|s.log|]
            case PreflightPassed(q) =>
              q == p && before.CheckedOut? && after.Cleared? && s'.destinations == s.destinations
            case SyncBegun(q) =>
              q == p && before.Cleared? && after.Syncing? && s'.destinations == s.destinations[d := TornBy(p)]
            case SyncEnded(q) =>
              q == p && before.Syncing? && after == Synced(true) && s'.destinations == s.destinations[d := SyncedBy(p)]
            case Postflight(q, changed, examined) =>
              && q == p && before == Synced(changed) && after.Leaving?
              && examined == FilesAt(s, d) && s'.destinations == s.destinations
  }

  lemma StepHasEventFacts(cs: Configs, s: State, m: Move)
    ensures EventFacts(cs, s, Step(cs, s, m), m.pid)
  {
  }

  ghost predicate ClearedBefore(log: seq<Event>, p: Pid) {
    PreflightPassed(p) in log
  }

  /** Synchronization never begins without the process's own preflight. */
  ghost predicate SyncsAreCleared(s: State) {
    && (forall p: Pid | PastPreflight(StageOf(s, p)) :: ClearedBefore(s.log, p))
    && (forall k, p: Pid | 0 <= k < |s.log| && s.log[k] == SyncBegun(p) :: ClearedBefore(s.log[..k], p))
  }

  ghost predicate SyncedAtMostOnce(s: State) {
    forall p: Pid | NeverSynced(StageOf(s, p)) :: SyncBegun(p) !in s.log
  }

  /** Since p began to synchronize, nobody else has synchronized its destination. */
  ghost predicate Undisturbed(cs: Configs, log: seq<Event>, p: Pid) {
    forall i, j, q: Pid |
      0 <= i < j < |log| && log[i] == SyncBegun(p) && IsSyncOf(log[j], q)
      && DestinationOf(cs(q)) == DestinationOf(cs(p)) :: q == p
  }

  /** No other synchronization of a destination falls between a process's own and its postflight. */
  ghost predicate NoSyncBetween(cs: Configs, log: seq<Event>) {
    forall k | 0 <= k < |log| && log[k].Postflight? :: Undisturbed(cs, log[..k], log[k].pid)
  }

  /** Postflight after a change examines exactly the files of that process. */
  ghost predicate ExaminesOwn(log: seq<Event>) {
    forall k | 0 <= k < |log| && log[k].Postflight? && log[k].changed :: log[k].examined == SyncedBy(log[k].pid)
  }

  ghost predicate OthersKeptOut(cs: Configs, s: State) {
    && (forall p: Pid | StageOf(s, p).Syncing? || StageOf(s, p).Synced? :: Undisturbed(cs, s.log, p))
    && (forall p: Pid | StageOf(s, p) == Synced(true) :: FilesAt(s, DestinationOf(cs(p))) == SyncedBy(p))
  }

  lemma EventsKeepCleared(cs: Configs, s: State, s': State, p: Pid)
    requires EventFacts(cs, s, s', p) && SyncsAreCleared(s)
    ensures SyncsAreCleared(s')
  {
    forall q: Pid | PastPreflight(StageOf(s', q))
      ensures ClearedBefore(s'.log, q)
    {
      if PastPreflight(StageOf(s, q)) {
        assert ClearedBefore(s.log, q);
      }
    }
    forall k, q: Pid | 0 <= k < |s'.log| && s'.log[k] == SyncBegun(q)
      ensures ClearedBefore(s'.log[..k], q)
    {
      if k < |s.log| {
        assert s'.log[..k] == s.log[..k] && s.log[k] == SyncBegun(q);
      } else {
        assert s'.log[..k] == s.log && PastPreflight(StageOf(s, q));
      }
    }
  }

  lemma EventsKeepOnce(cs: Configs, s: State, s': State, p: Pid)
    requires EventFacts(cs, s, s', p) && SyncedAtMostOnce(s)
    ensures SyncedAtMostOnce(s')
  {
    if s'.log != s.log {
      assert s'.log == s.log + [s'.log[|s.log|]];
    }
  }

  lemma EventsKeepUndisturbed(cs: Configs, s: State, s': State, p: Pid, r: Pid)
    requires EventFacts(cs, s, s', p) && SyncedAtMostOnce(s) && Exclusive(cs, s) && OthersKeptOut(cs, s)
    requires StageOf(s', r).Syncing? || StageOf(s', r).Synced?
    ensures Undisturbed(cs, s'.log, r)
  {
    forall i, j, q: Pid |
      0 <= i < j < |s'.log| && s'.log[i] == SyncBegun(r) && IsSyncOf(s'.log[j], q)
      && DestinationOf(cs(q)) == DestinationOf(cs(r))
      ensures q == r
    {
      assert s.log[i] == SyncBegun(r);
      assert !NeverSynced(StageOf(s, r));
      assert Undisturbed(cs, s.log, r);
      if j == |s.log| {
        assert q == p && Inside(StageOf(s, q)) && Inside(StageOf(s, r));
      } else {
        assert IsSyncOf(s.log[j], q);
      }
    }
  }

  lemma EventsKeepFiles(cs: Configs, s: State, s': State, p: Pid)
    requires EventFacts(cs, s, s', p) && Exclusive(cs, s) && OthersKeptOut(cs, s)
    ensures forall r: Pid | StageOf(s', r) == Synced(true) :: FilesAt(s', DestinationOf(cs(r))) == SyncedBy(r)
  {
    forall r: Pid | StageOf(s', r) == Synced(true)
      ensures FilesAt(s', DestinationOf(cs(r))) == SyncedBy(r)
    {
      if r != p && s'.destinations != s.destinations {
        assert Inside(StageOf(s, p)) && Inside(StageOf(s, r));
      }
    }
  }

  lemma EventsKeepLog(cs: Configs, s: State, s': State, p: Pid)
    requires EventFacts(cs, s, s', p) && OthersKeptOut(cs, s) && NoSyncBetween(cs, s.log) && ExaminesOwn(s.log)
    ensures NoSyncBetween(cs, s'.log) && ExaminesOwn(s'.log)
  {
    forall k | 0 <= k < |s'.log| && s'.log[k].Postflight?
      ensures Undisturbed(cs, s'.log[..k], s'.log[k].pid)
      ensures s'.log[k].changed ==> s'.log[k].examined == SyncedBy(s'.log[k].pid)
    {
      if k < |s.log| {
        assert s'.log[..k] == s.log[..k] && s'.log[k] == s.log[k];
      } else {
        assert s'.log[..k] == s.log;
      }
    }
  }

  /**
   Over every schedule of deliveries in which one destination has one lock: no
   synchronization begins before its own preflight passed; between a process's
   synchronization and its postflight nobody else synchronizes that destination;
   and postflight examines exactly what that process synchronized.
   */
  lemma {:induction false} DeliveriesAreOrdered(cs: Configs, schedule: seq<Move>)
    requires OneLockPerDestination(cs)
    ensures var s := Run(cs, schedule);
            && SyncsAreCleared(s) && SyncedAtMostOnce(s) && OthersKeptOut(cs, s)
            && NoSyncBetween(cs, s.log) && ExaminesOwn(s.log)
  {
    if schedule != [] {
      var m := schedule[|schedule| - 1];
      var s, s' := Run(cs, schedule[..|schedule| - 1]), Run(cs, schedule);
      DeliveriesAreOrdered(cs, schedule[..|schedule| - 1]);
      LocksAlwaysMatch(cs, schedule[..|schedule| - 1]);
      MatchedLocksExclude(cs, s);
      StepHasEventFacts(cs, s, m);
      EventsKeepCleared(cs, s, s', m.pid);
      EventsKeepOnce(cs, s, s', m.pid);
      EventsKeepFiles(cs, s, s', m.pid);
      EventsKeepLog(cs, s, s', m.pid);
      forall r: Pid | StageOf(s', r).Syncing? || StageOf(s', r).Synced?
        ensures Undisturbed(cs, s'.log, r)
      {
        EventsKeepUndisturbed(cs, s, s', m.pid, r);
      }
    }
  }
}
