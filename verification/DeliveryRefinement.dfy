/**
 One delivery, run without interruption, takes in the protocol of many deliveries
 the steps that its execution takes, and ends as its execution ends.
 */
module DeliveryRefinement {
  import opened Wrappers
  import opened GateEvidence
  import opened DeliveryExecutor
  import P = DeliveryProtocol

  /** The actions of one process from a state on, one after the other. */
  function Perform(cs: P.Configs, s: P.State, p: P.Pid, actions: seq<P.Action>): P.State
    decreases |actions|
  {
    if actions == [] then s else Perform(cs, P.Step(cs, s, P.Move(p, actions[0])), p, actions[1..])
  }

  // ---- The actions that an execution amounts to ----

  function SyncActions(w: SyncWorld, spec: SyncSpec, disk: Disk): seq<P.Action> {
    var sync := Synchronize(w, spec, disk).1;
    if sync.Some? then (if sync.value.changed then [P.SyncBegins, P.SyncEnds(true)] else [P.DryRunUnchanged])
    else if ReachesRsync(w, spec, disk) then [P.SyncBegins, P.SyncEnds(false)]
    else [P.SyncRefused]
  }

  /** Nothing before the copy refuses the synchronization, and there is something to copy. */
  predicate ReachesRsync(w: SyncWorld, spec: SyncSpec, disk: Disk) {
    && w.pathsValid && IsSnapshotName(spec.snapshotName) && w.dryRun.Some? && !w.dryRun.value.blank
    && (spec.snapshotEnabled ==> spec.snapshotName !in disk.snapshots && w.snapshotWritten)
  }

  function PostflightActions(e: Option<Evaluation>): seq<P.Action> {
    [if e.Some? then P.PostflightRuns(e.value.passed) else P.PostflightRaises, P.Leave]
  }

  /** What an execution does after its checkout. */
  function CheckedOutActions(secretLike: string -> bool, w: ExecutorWorld, spec: ExecutorSpec, disk: Disk)
    : seq<P.Action>
  {
    var pre := RunGates(secretLike, w.preflight, spec.preflight);
    if pre.None? then [P.PreflightRaises] + [P.Leave]
    else if !pre.value.passed then [P.Preflight(false)] + [P.Leave]
    else
      [P.Preflight(true)] + (SyncActions(w.sync, spec.sync, disk) +
        if Synchronize(w.sync, spec.sync, disk).1.None? then [P.Leave]
        else PostflightActions(RunGates(secretLike, w.postflight, spec.postflight)))
  }

  /** What an execution does once it has its lock. */
  function LockedActions(secretLike: string -> bool, w: ExecutorWorld, spec: ExecutorSpec, disk: Disk): seq<P.Action> {
    if w.checkout.None? || !CheckoutMatches(w.checkout.value, spec.request) then [P.Checkout(false)] + [P.Leave]
    else [P.Checkout(true)] + CheckedOutActions(secretLike, w, spec, disk)
  }

  /** How the protocol calls the end of an execution that took its lock. */
  function EndingOf(r: Result<DeliveryResult, ExecutorError>): P.Ending {
    match r
    case Success(result) =>
      if result.preflight.passed then P.Delivered(result.ready) else P.PreflightRefused
    case Failure(CheckoutFailed) => P.CheckoutFailed
    case Failure(SyncFailed) => P.SyncFailed
    case Failure(_) => P.GatesRaised
  }

  // ---- Step by step ----

  lemma OneAction(cs: P.Configs, s: P.State, p: P.Pid, a: P.Action, rest: seq<P.Action>)
    ensures Perform(cs, s, p, [a] + rest) == Perform(cs, P.Step(cs, s, P.Move(p, a)), p, rest)
  {
    assert ([a] + rest)[1..] == rest;
  }

  /** A process in its place that holds its lock. */
  predicate IsAt(cs: P.Configs, s: P.State, p: P.Pid, stage: P.Stage) {
    P.StageOf(s, p) == stage && P.Holds(cs, s, p)
  }

  /** The process is gone with this ending, its lock is free, and this is what its destination holds. */
  predicate HasEnded(cs: P.Configs, s: P.State, s': P.State, p: P.Pid, ending: P.Ending, files: P.Files) {
    && P.StageOf(s', p) == P.Gone(ending)
    && s'.holders == s.holders - {P.LockOf(cs(p))}
    && P.FilesAt(s', P.DestinationOf(cs(p))) == files
  }

  /** The steps of a process in its place that leave every destination alone. */
  predicate IsQuiet(stage: P.Stage, a: P.Action, next: P.Stage) {
    match (stage, a)
    case (Locked, Checkout(ok)) => next == if ok then P.CheckedOut else P.Leaving(P.CheckoutFailed)
    case (CheckedOut, PreflightRaises) => next == P.Leaving(P.GatesRaised)
    case (CheckedOut, Preflight(passed)) => next == if passed then P.Cleared else P.Leaving(P.PreflightRefused)
    case (Cleared, DryRunUnchanged) => next == P.Synced(false)
    case (Cleared, SyncRefused) => next == P.Leaving(P.SyncFailed)
    case (Synced(_), PostflightRaises) => next == P.Leaving(P.GatesRaised)
    case (Synced(_), PostflightRuns(passed)) => next == P.Leaving(P.Delivered(passed))
    case _ => false
  }

  lemma QuietStep(
    cs: P.Configs, s: P.State, p: P.Pid, stage: P.Stage, a: P.Action, next: P.Stage, rest: seq<P.Action>)
    returns (s': P.State)
    requires IsAt(cs, s, p, stage) && IsQuiet(stage, a, next)
    ensures IsAt(cs, s', p, next) && s'.holders == s.holders && s'.destinations == s.destinations
    ensures Perform(cs, s, p, [a] + rest) == Perform(cs, s', p, rest)
  {
    s' := P.Step(cs, s, P.Move(p, a));
    OneAction(cs, s, p, a, rest);
  }

  /** A copy that begins and then ends, well or not. */
  lemma CopySteps(cs: P.Configs, s: P.State, p: P.Pid, ok: bool, rest: seq<P.Action>) returns (s': P.State)
    requires IsAt(cs, s, p, P.Cleared)
    ensures IsAt(cs, s', p, if ok then P.Synced(true) else P.Leaving(P.SyncFailed)) && s'.holders == s.holders
    ensures P.FilesAt(s', P.DestinationOf(cs(p))) == if ok then P.SyncedBy(p) else P.TornBy(p)
    ensures Perform(cs, s, p, [P.SyncBegins, P.SyncEnds(ok)] + rest) == Perform(cs, s', p, rest)
  {
    var s1 := P.Step(cs, s, P.Move(p, P.SyncBegins));
    OneAction(cs, s, p, P.SyncBegins, [P.SyncEnds(ok)] + rest);
    assert [P.SyncBegins, P.SyncEnds(ok)] + rest == [P.SyncBegins] + ([P.SyncEnds(ok)] + rest);
    assert IsAt(cs, s1, p, P.Syncing);
    s' := P.Step(cs, s1, P.Move(p, P.SyncEnds(ok)));
    OneAction(cs, s1, p, P.SyncEnds(ok), rest);
  }

  lemma LeaveEnds(cs: P.Configs, s: P.State, p: P.Pid, ending: P.Ending)
    requires IsAt(cs, s, p, P.Leaving(ending))
    ensures HasEnded(cs, s, Perform(cs, s, p, [P.Leave]), p, ending, P.FilesAt(s, P.DestinationOf(cs(p))))
  {
    OneAction(cs, s, p, P.Leave, []);
    assert [P.Leave] + [] == [P.Leave];
  }

  lemma PostflightEnds(cs: P.Configs, s: P.State, p: P.Pid, changed: bool, e: Option<Evaluation>)
    requires IsAt(cs, s, p, P.Synced(changed))
    ensures HasEnded(cs, s, Perform(cs, s, p, PostflightActions(e)), p,
                     if e.Some? then P.Delivered(e.value.passed) else P.GatesRaised,
                     P.FilesAt(s, P.DestinationOf(cs(p))))
  {
    hide P.Step;
    var a := PostflightActions(e)[0];
    var ending := if e.Some? then P.Delivered(e.value.passed) else P.GatesRaised;
    assert PostflightActions(e) == [a] + [P.Leave];
    var s1 := QuietStep(cs, s, p, P.Synced(changed), a, P.Leaving(ending), [P.Leave]);
    LeaveEnds(cs, s1, p, ending);
  }

  /** What the destination holds after a synchronization by p. */
  function FilesAfter(w: SyncWorld, spec: SyncSpec, disk: Disk, p: P.Pid, before: P.Files): P.Files {
    if !ReachesRsync(w, spec, disk) then before
    else if w.rsync.Completed? then P.SyncedBy(p)
    else P.TornBy(p)
  }

  lemma SyncSteps(cs: P.Configs, s: P.State, p: P.Pid, w: SyncWorld, spec: SyncSpec, disk: Disk, rest: seq<P.Action>)
    returns (s': P.State)
    requires IsAt(cs, s, p, P.Cleared)
    ensures Perform(cs, s, p, SyncActions(w, spec, disk) + rest) == Perform(cs, s', p, rest)
    ensures var sync := Synchronize(w, spec, disk).1;
            IsAt(cs, s', p, if sync.Some? then P.Synced(sync.value.changed) else P.Leaving(P.SyncFailed))
    ensures s'.holders == s.holders
    ensures P.FilesAt(s', P.DestinationOf(cs(p)))
         == FilesAfter(w, spec, disk, p, P.FilesAt(s, P.DestinationOf(cs(p))))
  {
    hide P.Step, Perform;
    var sync := Synchronize(w, spec, disk).1;
    if ReachesRsync(w, spec, disk) {
      s' := CopySteps(cs, s, p, sync.Some?, rest);
    } else if sync.Some? {
      s' := QuietStep(cs, s, p, P.Cleared, P.DryRunUnchanged, P.Synced(false), rest);
    } else {
      s' := QuietStep(cs, s, p, P.Cleared, P.SyncRefused, P.Leaving(P.SyncFailed), rest);
    }
  }

  lemma ClearedEnds(
    cs: P.Configs, s: P.State, p: P.Pid, secretLike: string -> bool, w: ExecutorWorld, spec: ExecutorSpec, disk: Disk)
    requires IsAt(cs, s, p, P.Cleared)
    ensures var sync := Synchronize(w.sync, spec.sync, disk).1;
            var post := RunGates(secretLike, w.postflight, spec.postflight);
            var rest := if sync.None? then [P.Leave] else PostflightActions(post);
            HasEnded(cs, s, Perform(cs, s, p, SyncActions(w.sync, spec.sync, disk) + rest), p,
                     if sync.None? then P.SyncFailed else if post.None? then P.GatesRaised
                     else P.Delivered(post.value.passed),
                     FilesAfter(w.sync, spec.sync, disk, p, P.FilesAt(s, P.DestinationOf(cs(p)))))
  {
    hide SyncActions, Synchronize, RunGates, FilesAfter;
    var sync := Synchronize(w.sync, spec.sync, disk).1;
    var post := RunGates(secretLike, w.postflight, spec.postflight);
    if sync.None? {
      var s' := SyncSteps(cs, s, p, w.sync, spec.sync, disk, [P.Leave]);
      LeaveEnds(cs, s', p, P.SyncFailed);
    } else {
      var s' := SyncSteps(cs, s, p, w.sync, spec.sync, disk, PostflightActions(post));
      PostflightEnds(cs, s', p, sync.value.changed, post);
    }
  }

  /** What the destination holds after an execution by p: touched only once preflight has passed. */
  function FilesAfterExecution(
    secretLike: string -> bool, w: ExecutorWorld, spec: ExecutorSpec, disk: Disk, p: P.Pid, before: P.Files): P.Files
  {
    var pre := RunGates(secretLike, w.preflight, spec.preflight);
    if w.checkout.Some? && CheckoutMatches(w.checkout.value, spec.request) && pre.Some? && pre.value.passed then
      FilesAfter(w.sync, spec.sync, disk, p, before)
    else
      before
  }

  /** A destination's files on disk are what the protocol says they are: a whole copy, a torn one, or as before. */
  predicate Shows(files: P.Files, now: Files, p: P.Pid, rsync: Rsync, before: P.Files, kept: Files) {
    || (files == P.SyncedBy(p) && rsync == Completed(now))
    || (files == P.TornBy(p) && rsync == Broke(now))
    || (files == before && now == kept)
  }

  lemma DiskIsShown(
    secretLike: string -> bool, w: ExecutorWorld, spec: ExecutorSpec, disk: Disk, p: P.Pid, before: P.Files)
    requires ValidSpec(spec) && w.lockTaken
    ensures Shows(FilesAfterExecution(secretLike, w, spec, disk, p, before),
                  Execute(secretLike, w, spec, disk).0.destination, p, w.sync.rsync, before, disk.destination)
  {
    hide RunGates, ValidSpec, CheckoutMatches, IsSnapshotName;
  }

  /**
   A process that has its lock and is not interrupted ends in the protocol as its
   execution ends, with its lock free, and with its destination synchronized,
   torn or untouched as the execution left it.
   */
  lemma ExecutionRefinesProtocol(
    cs: P.Configs, s: P.State, p: P.Pid, secretLike: string -> bool, w: ExecutorWorld, spec: ExecutorSpec, disk: Disk)
    requires IsAt(cs, s, p, P.Locked) && ValidSpec(spec) && w.lockTaken
    ensures HasEnded(cs, s, Perform(cs, s, p, LockedActions(secretLike, w, spec, disk)), p,
                     EndingOf(Execute(secretLike, w, spec, disk).1),
                     FilesAfterExecution(secretLike, w, spec, disk, p, P.FilesAt(s, P.DestinationOf(cs(p)))))
    ensures var (before, s') := (P.FilesAt(s, P.DestinationOf(cs(p))),
                                 Perform(cs, s, p, LockedActions(secretLike, w, spec, disk)));
            Shows(P.FilesAt(s', P.DestinationOf(cs(p))), Execute(secretLike, w, spec, disk).0.destination, p,
                  w.sync.rsync, before, disk.destination)
  {
    hide P.Step, Perform, SyncActions, Synchronize, RunGates, FilesAfter, ValidSpec, CheckoutMatches, Shows;
    DiskIsShown(secretLike, w, spec, disk, p, P.FilesAt(s, P.DestinationOf(cs(p))));
    var checkedOut := w.checkout.Some? && CheckoutMatches(w.checkout.value, spec.request);
    if !checkedOut {
      var s1 := QuietStep(cs, s, p, P.Locked, P.Checkout(false), P.Leaving(P.CheckoutFailed), [P.Leave]);
      LeaveEnds(cs, s1, p, P.CheckoutFailed);
    } else {
      CheckedOutEnds(cs, s, p, secretLike, w, spec, disk);
    }
  }

  /** The end of an execution after its checkout, case by case. */
  lemma EndingAfterCheckout(
    secretLike: string -> bool, w: ExecutorWorld, spec: ExecutorSpec, disk: Disk, p: P.Pid, before: P.Files)
    requires ValidSpec(spec) && w.lockTaken
    requires w.checkout.Some? && CheckoutMatches(w.checkout.value, spec.request)
    ensures var pre := RunGates(secretLike, w.preflight, spec.preflight);
            var post := RunGates(secretLike, w.postflight, spec.postflight);
            var sync := Synchronize(w.sync, spec.sync, disk).1;
            var ending := EndingOf(Execute(secretLike, w, spec, disk).1);
            var files := FilesAfterExecution(secretLike, w, spec, disk, p, before);
            if pre.None? then ending == P.GatesRaised && files == before
            else if !pre.value.passed then ending == P.PreflightRefused && files == before
            else
              && ending == (if sync.None? then P.SyncFailed else if post.None? then P.GatesRaised
                            else P.Delivered(post.value.passed))
              && files == FilesAfter(w.sync, spec.sync, disk, p, before)
  {
    hide RunGates, Synchronize, FilesAfter, ValidSpec, CheckoutMatches;
  }

  lemma PreflightEnds(
    cs: P.Configs, s: P.State, p: P.Pid, secretLike: string -> bool, w: ExecutorWorld, spec: ExecutorSpec, disk: Disk)
    requires IsAt(cs, s, p, P.CheckedOut) && ValidSpec(spec) && w.lockTaken
    requires w.checkout.Some? && CheckoutMatches(w.checkout.value, spec.request)
    ensures HasEnded(cs, s, Perform(cs, s, p, CheckedOutActions(secretLike, w, spec, disk)), p,
                     EndingOf(Execute(secretLike, w, spec, disk).1),
                     FilesAfterExecution(secretLike, w, spec, disk, p, P.FilesAt(s, P.DestinationOf(cs(p)))))
  {
    hide P.Step, Perform, SyncActions, Synchronize, RunGates, FilesAfter, ValidSpec, CheckoutMatches, EndingOf, Execute,
         FilesAfterExecution, PostflightActions;
    EndingAfterCheckout(secretLike, w, spec, disk, p, P.FilesAt(s, P.DestinationOf(cs(p))));
    var pre := RunGates(secretLike, w.preflight, spec.preflight);
    if pre.None? {
      var s2 := QuietStep(cs, s, p, P.CheckedOut, P.PreflightRaises, P.Leaving(P.GatesRaised), [P.Leave]);
      LeaveEnds(cs, s2, p, P.GatesRaised);
    } else if !pre.value.passed {
      var s2 := QuietStep(cs, s, p, P.CheckedOut, P.Preflight(false), P.Leaving(P.PreflightRefused), [P.Leave]);
      LeaveEnds(cs, s2, p, P.PreflightRefused);
    } else {
      var rest := SyncActions(w.sync, spec.sync, disk) +
        if Synchronize(w.sync, spec.sync, disk).1.None? then [P.Leave]
        else PostflightActions(RunGates(secretLike, w.postflight, spec.postflight));
      var s2 := QuietStep(cs, s, p, P.CheckedOut, P.Preflight(true), P.Cleared, rest);
      ClearedEnds(cs, s2, p, secretLike, w, spec, disk);
    }
  }

  lemma CheckedOutEnds(
    cs: P.Configs, s: P.State, p: P.Pid, secretLike: string -> bool, w: ExecutorWorld, spec: ExecutorSpec, disk: Disk)
    requires IsAt(cs, s, p, P.Locked) && ValidSpec(spec) && w.lockTaken
    requires w.checkout.Some? && CheckoutMatches(w.checkout.value, spec.request)
    ensures HasEnded(cs, s, Perform(cs, s, p, LockedActions(secretLike, w, spec, disk)), p,
                     EndingOf(Execute(secretLike, w, spec, disk).1),
                     FilesAfterExecution(secretLike, w, spec, disk, p, P.FilesAt(s, P.DestinationOf(cs(p)))))
  {
    hide P.Step, Perform, CheckedOutActions, ValidSpec, CheckoutMatches, EndingOf, Execute,
         FilesAfterExecution;
    var rest := CheckedOutActions(secretLike, w, spec, disk);
    var s1 := QuietStep(cs, s, p, P.Locked, P.Checkout(true), P.CheckedOut, rest);
    PreflightEnds(cs, s1, p, secretLike, w, spec, disk);
  }
}
