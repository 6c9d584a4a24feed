/**
 One delivery among many: whatever other processes do in between, a process that
 holds its lock ends in the protocol as its execution ends.
 */
module DeliveryInterleaving {
  import opened Wrappers
  import opened DeliveryExecutor
  import opened DeliveryRefinement
  import P = DeliveryProtocol

  /** What one process does in a schedule. */
  function OwnActions(moves: seq<P.Move>, p: P.Pid): seq<P.Action> {
    if moves == [] then []
    else
      var m := moves[|moves| - 1];
      OwnActions(moves[..|moves| - 1], p) + if m.pid == p then [m.action] else []
  }

  /** Neither leaving nor dying. */
  predicate StaysInside(actions: seq<P.Action>) {
    forall a | a in actions :: a != P.Leave && a != P.Die
  }

  /** The process is at the same place in both states, and its destination holds the same. */
  predicate Alike(cs: P.Configs, s: P.State, t: P.State, p: P.Pid) {
    && P.StageOf(s, p) == P.StageOf(t, p)
    && P.FilesAt(s, P.DestinationOf(cs(p))) == P.FilesAt(t, P.DestinationOf(cs(p)))
  }

  lemma {:induction false} PerformMore(cs: P.Configs, s: P.State, p: P.Pid, actions: seq<P.Action>, a: P.Action)
    ensures Perform(cs, s, p, actions + [a]) == P.Step(cs, Perform(cs, s, p, actions), P.Move(p, a))
    decreases |actions|
  {
    hide P.Step;
    if actions == [] {
      assert [] + [a] == [a] && [a][1..] == [];
    } else {
      PerformMore(cs, P.Step(cs, s, P.Move(p, actions[0])), p, actions[1..], a);
      assert (actions + [a])[1..] == actions[1..] + [a];
    }
  }

  /** Where a step takes a process that is inside. */
  function NextStage(stage: P.Stage, a: P.Action): P.Stage {
    match (stage, a)
    case (Locked, Checkout(ok)) => if ok then P.CheckedOut else P.Leaving(P.CheckoutFailed)
    case (CheckedOut, Preflight(passed)) => if passed then P.Cleared else P.Leaving(P.PreflightRefused)
    case (CheckedOut, PreflightRaises) => P.Leaving(P.GatesRaised)
    case (Cleared, DryRunUnchanged) => P.Synced(false)
    case (Cleared, SyncRefused) => P.Leaving(P.SyncFailed)
    case (Cleared, SyncBegins) => P.Syncing
    case (Syncing, SyncEnds(ok)) => if ok then P.Synced(true) else P.Leaving(P.SyncFailed)
    case (Synced(_), PostflightRuns(passed)) => P.Leaving(P.Delivered(passed))
    case (Synced(_), PostflightRaises) => P.Leaving(P.GatesRaised)
    case (Leaving(ending), Leave) => P.Gone(ending)
    case (_, Die) => P.Gone(P.Died)
    case _ => stage
  }

  function NextFiles(stage: P.Stage, a: P.Action, p: P.Pid, files: P.Files): P.Files {
    if stage.Cleared? && a.SyncBegins? then P.TornBy(p)
    else if stage.Syncing? && a == P.SyncEnds(true) then P.SyncedBy(p)
    else files
  }

  lemma StageIsLocal(cs: P.Configs, s: P.State, p: P.Pid, a: P.Action)
    requires P.Inside(P.StageOf(s, p))
    ensures P.StageOf(P.Step(cs, s, P.Move(p, a)), p) == NextStage(P.StageOf(s, p), a)
  {
    hide P.LockOf, P.DestinationOf, P.FilesAt;
  }

  lemma FilesAreLocal(cs: P.Configs, s: P.State, p: P.Pid, a: P.Action)
    requires P.Inside(P.StageOf(s, p))
    ensures P.FilesAt(P.Step(cs, s, P.Move(p, a)), P.DestinationOf(cs(p)))
         == NextFiles(P.StageOf(s, p), a, p, P.FilesAt(s, P.DestinationOf(cs(p))))
  {
    hide P.LockOf, P.DestinationOf;
  }

  /** A process inside takes its step without regard to others. */
  lemma OwnStep(cs: P.Configs, s: P.State, t: P.State, p: P.Pid, a: P.Action)
    requires Alike(cs, s, t, p) && P.Inside(P.StageOf(s, p))
    ensures Alike(cs, P.Step(cs, s, P.Move(p, a)), P.Step(cs, t, P.Move(p, a)), p)
    ensures a != P.Leave && a != P.Die ==> P.Inside(P.StageOf(P.Step(cs, s, P.Move(p, a)), p))
  {
    hide P.Step, P.FilesAt, P.StageOf;
    StageIsLocal(cs, s, p, a);
    StageIsLocal(cs, t, p, a);
    FilesAreLocal(cs, s, p, a);
    FilesAreLocal(cs, t, p, a);
  }

  lemma OthersElsewhere(cs: P.Configs, s: P.State, p: P.Pid, q: P.Pid)
    requires P.Exclusive(cs, s) && P.Inside(P.StageOf(s, p)) && P.Inside(P.StageOf(s, q)) && q != p
    ensures P.DestinationOf(cs(q)) != P.DestinationOf(cs(p))
  {
  }

  /** Another process neither moves a process inside nor touches its destination. */
  lemma OtherStep(cs: P.Configs, s: P.State, p: P.Pid, m: P.Move)
    requires P.Exclusive(cs, s) && P.Inside(P.StageOf(s, p)) && m.pid != p
    ensures Alike(cs, P.Step(cs, s, m), s, p)
  {
    hide P.Exclusive;
    var q := m.pid;
    if P.Inside(P.StageOf(s, q)) {
      OthersElsewhere(cs, s, p, q);
    }
  }

  lemma RunMore(cs: P.Configs, before: seq<P.Move>, moves: seq<P.Move>)
    requires moves != []
    ensures P.Run(cs, before + moves)
         == P.Step(cs, P.Run(cs, before + moves[..|moves| - 1]), moves[|moves| - 1])
  {
    hide P.Step;
    var all := before + moves;
    assert all[..|all| - 1] == before + moves[..|moves| - 1];
  }

  /** While it stays inside, a process is where it would be alone, and so is its destination. */
  lemma {:induction false} KeepsPace(cs: P.Configs, before: seq<P.Move>, moves: seq<P.Move>, p: P.Pid)
    requires P.OneLockPerDestination(cs) && P.Inside(P.StageOf(P.Run(cs, before), p))
    requires StaysInside(OwnActions(moves, p))
    ensures P.Inside(P.StageOf(P.Run(cs, before + moves), p))
    ensures Alike(cs, P.Run(cs, before + moves), Perform(cs, P.Run(cs, before), p, OwnActions(moves, p)), p)
  {
    hide P.Step, P.Inside, P.OneLockPerDestination, P.Exclusive;
    if moves == [] {
      assert before + moves == before;
    } else {
      var init, m := moves[..|moves| - 1], moves[|moves| - 1];
      assert forall a | a in OwnActions(init, p) :: a in OwnActions(moves, p);
      KeepsPace(cs, before, init, p);
      RunMore(cs, before, moves);
      var s := P.Run(cs, before + init);
      P.LocksAlwaysMatch(cs, before + init);
      P.MatchedLocksExclude(cs, s);
      if m.pid == p {
        assert m.action in OwnActions(moves, p);
        assert m == P.Move(p, m.action);
        OwnStep(cs, s, Perform(cs, P.Run(cs, before), p, OwnActions(init, p)), p, m.action);
        PerformMore(cs, P.Run(cs, before), p, OwnActions(init, p), m.action);
      } else {
        OtherStep(cs, s, p, m);
        assert OwnActions(moves, p) == OwnActions(init, p);
      }
    }
  }

  /** An execution leaves with its last action, and only then. */
  lemma LeavesLast(secretLike: string -> bool, w: ExecutorWorld, spec: ExecutorSpec, disk: Disk)
    ensures var actions := LockedActions(secretLike, w, spec, disk);
            actions != [] && actions[|actions| - 1] == P.Leave && StaysInside(actions[..|actions| - 1])
  {
    hide RunGates, Synchronize, CheckoutMatches, ReachesRsync;
  }

  lemma LastStepEnds(cs: P.Configs, s: P.State, t: P.State, p: P.Pid)
    requires Alike(cs, s, t, p) && P.Inside(P.StageOf(s, p)) && P.Holds(cs, s, p)
    ensures Alike(cs, P.Step(cs, s, P.Move(p, P.Leave)), P.Step(cs, t, P.Move(p, P.Leave)), p)
    ensures P.StageOf(P.Step(cs, t, P.Move(p, P.Leave)), p).Gone? ==>
              P.LockOf(cs(p)) !in P.Step(cs, s, P.Move(p, P.Leave)).holders
  {
  }

  /**
   In every schedule, when deliveries to one destination share one lock: a process
   that gets its lock and then does what its execution does, with other processes
   moving in between as they like, ends as its execution ends; its lock is free,
   and its destination is copied, torn or untouched as the execution left the disk.
   */
  lemma {:induction false} InterleavedExecutionEnds(
    cs: P.Configs, before: seq<P.Move>, moves: seq<P.Move>, p: P.Pid, secretLike: string -> bool, w: ExecutorWorld,
    spec: ExecutorSpec, disk: Disk)
    requires P.OneLockPerDestination(cs) && P.StageOf(P.Run(cs, before), p) == P.Locked
    requires ValidSpec(spec) && w.lockTaken && moves != [] && moves[|moves| - 1].pid == p
    requires OwnActions(moves, p) == LockedActions(secretLike, w, spec, disk)
    ensures var (s, s', d) := (P.Run(cs, before), P.Run(cs, before + moves), P.DestinationOf(cs(p)));
            var (disk', r) := Execute(secretLike, w, spec, disk);
            && P.StageOf(s', p) == P.Gone(EndingOf(r)) && P.LockOf(cs(p)) !in s'.holders
            && P.FilesAt(s', d) == FilesAfterExecution(secretLike, w, spec, disk, p, P.FilesAt(s, d))
            && Shows(P.FilesAt(s', d), disk'.destination, p, w.sync.rsync, P.FilesAt(s, d), disk.destination)
  {
    hide P.Step, P.Run, LockedActions, Execute, Perform, StaysInside, FilesAfterExecution, Shows, ValidSpec,
         P.OneLockPerDestination, EndingOf;
    var s, init := P.Run(cs, before), moves[..|moves| - 1];
    var own, m := OwnActions(init, p), moves[|moves| - 1];
    LeavesLast(secretLike, w, spec, disk);
    assert OwnActions(moves, p) == own + [m.action];
    assert m == P.Move(p, P.Leave) && (own + [P.Leave])[..|own|] == own;
    P.LocksAlwaysMatch(cs, before);
    ExecutionRefinesProtocol(cs, s, p, secretLike, w, spec, disk);
    KeepsPace(cs, before, init, p);
    RunMore(cs, before, moves);
    P.LocksAlwaysMatch(cs, before + init);
    PerformMore(cs, s, p, own, P.Leave);
    LastStepEnds(cs, P.Run(cs, before + init), Perform(cs, s, p, own), p);
  }

  // ---- Such schedules exist ----

  function Alone(p: P.Pid, actions: seq<P.Action>): seq<P.Move> {
    seq(|actions|, i requires 0 <= i < |actions| => P.Move(p, actions[i]))
  }

  lemma {:induction false} OwnAlone(p: P.Pid, actions: seq<P.Action>)
    ensures OwnActions(Alone(p, actions), p) == actions
  {
    if actions != [] {
      var init := actions[..|actions| - 1];
      OwnAlone(p, init);
      assert Alone(p, actions)[..|actions| - 1] == Alone(p, init);
      assert actions == init + [actions[|actions| - 1]];
    }
  }

  lemma LockedAfterTwo(cs: P.Configs, p: P.Pid)
    ensures P.StageOf(P.Run(cs, [P.Move(p, P.Start), P.Move(p, P.TryLock)]), p) == P.Locked
  {
    var two := [P.Move(p, P.Start), P.Move(p, P.TryLock)];
    assert two[..1] == [P.Move(p, P.Start)] && two[..1][..0] == [];
    assert P.Run(cs, two[..1]) == P.Step(cs, P.INITIAL, P.Move(p, P.Start));
  }

  /** Every execution is done by some process in some schedule. */
  lemma {:induction false} ScheduleExists(
    cs: P.Configs, p: P.Pid, secretLike: string -> bool, w: ExecutorWorld, spec: ExecutorSpec, disk: Disk)
    returns (before: seq<P.Move>, moves: seq<P.Move>)
    ensures P.StageOf(P.Run(cs, before), p) == P.Locked
    ensures moves != [] && moves[|moves| - 1].pid == p
    ensures OwnActions(moves, p) == LockedActions(secretLike, w, spec, disk)
  {
    hide P.Run, LockedActions;
    LeavesLast(secretLike, w, spec, disk);
    before := [P.Move(p, P.Start), P.Move(p, P.TryLock)];
    moves := Alone(p, LockedActions(secretLike, w, spec, disk));
    LockedAfterTwo(cs, p);
    OwnAlone(p, LockedActions(secretLike, w, spec, disk));
  }
}
