/**
 Promotion of a static site through a candidate and a backup volume, with
 rollback. Every Docker command, rename and removal may fail; a failing container
 may leave the volume it was writing with any contents at all.
 */
module StaticSite {
  import opened Wrappers

  /** Paths and what they hold; an absent volume or directory is None. */
  type Files = map<string, string>

  datatype Phase = PrepareVolumes | Build | BackupVolume | PromoteVolume | PromoteSource | Cleanup

  datatype Verdict = PassedVerdict(sha: string) | FailedVerdict(sha: string, phase: Phase, rollbackFailed: bool)

  datatype Host = Host(
    live: Option<Files>,
    candidate: Option<Files>,
    backup: Option<Files>,
    deployRoot: Option<Files>,
    stage: Option<Files>,
    sourceBackup: Option<Files>,
    evidence: Option<Verdict>)

  /** A container that succeeded, or that failed and left its writable volume like this. */
  datatype Effect = Completed | Broke(left: Files)

  /** Which volumes a forced removal really removed. */
  datatype Removal = Removal(candidate: bool, backup: bool)

  /** What the environment does at each step that the program cannot control. */
  datatype World = World(
    staleRemoved: bool, copied: bool, composeFile: bool, partialStage: Option<Files>,
    removedBefore: Removal,
    createdCandidate: bool, createdLive: bool, createdBackup: bool,
    built: bool, builderRan: Effect, output: Files, listed: bool, imageValid: bool,
    candidateTested: nat -> bool,
    backedUp: Effect,
    cleared: Effect, promoted: Effect, liveTested: nat -> bool,
    oldMoved: bool, newMoved: bool, oldRemoved: bool, partialBackup: Option<Files>,
    removedAfter: Removal, evidenceWritten: bool,
    rollbackCleared: Effect, rollbackCopied: Effect, oldRestored: bool, stageRemoved: bool,
    removedFinally: Removal, failureWritten: bool)

  /** What the caller asked for: the repository tree and what the built site must contain. */
  datatype Job = Job(sha: string, source: Files, outputs: seq<string>)

  datatype Exit =
    | NotStarted
    | Passed
    | Failed(phase: Phase, rollbackFailed: bool)
    | Escaped(phase: Phase, rollbackFailed: bool)

  /** The local variables when the guarded part ends, normally or with an exception. */
  datatype Attempt = Attempt(host: Host, phase: Phase, stableChanged: bool, sourceMoved: bool, ok: bool)

  function Contents(volume: Option<Files>): Files {
    if volume.Some? then volume.value else map[]
  }

  predicate Present(files: Files, path: string) {
    path == "." || path in files
  }

  predicate AllPresent(files: Files, outputs: seq<string>) {
    forall p | p in outputs :: Present(files, p)
  }

  /** One container per required output, stopping at the first that fails. */
  predicate Verified(tested: nat -> bool, files: Files, outputs: seq<string>) {
    forall i | 0 <= i < |outputs| :: tested(i) && Present(files, outputs[i])
  }

  function Removed(h: Host, r: Removal): Host {
    h.(candidate := if r.candidate then None else h.candidate, backup := if r.backup then None else h.backup)
  }

  function Cleared(e: Effect): Files {
    if e.Completed? then map[] else e.left
  }

  /** Copying adds to what the destination already holds. */
  function Copied(e: Effect, source: Option<Files>, destination: Option<Files>): Files {
    if e.Completed? then Contents(destination) + Contents(source) else e.left
  }

  function Prepare(w: World, h: Host): (Host, bool) {
    var h0 := Removed(h, w.removedBefore);
    if !w.createdCandidate then (h0, false) else
    var h1 := h0.(candidate := Some(Contents(h0.candidate)));
    if !w.createdLive then (h1, false) else
    var h2 := h1.(live := Some(Contents(h1.live)));
    if !w.createdBackup then (h2, false) else
    (h2.(backup := Some(Contents(h2.backup))), true)
  }

  /** The builder writes into the volume that it is given, over whatever that holds. */
  function BuildCandidate(w: World, job: Job, h: Host): (Host, bool) {
    if !w.built then (h, false) else
    var h1 := h.(candidate := Some(if w.builderRan.Completed? then Contents(h.candidate) + w.output
                                   else w.builderRan.left));
    (h1, w.builderRan.Completed? && w.listed && w.imageValid
         && Verified(w.candidateTested, Contents(h1.candidate), job.outputs))
  }

  function PromoteLive(w: World, job: Job, h: Host): (Host, bool) {
    var h1 := h.(live := Some(Cleared(w.cleared)));
    if w.cleared.Broke? then (h1, false) else
    var h2 := h1.(live := Some(Copied(w.promoted, h1.candidate, h1.live)));
    (h2, w.promoted.Completed? && Verified(w.liveTested, Contents(h2.live), job.outputs))
  }

  /** The host, whether the old source counts as moved, and whether every rename worked. */
  function PromoteTree(w: World, h: Host): (Host, bool, bool) {
    if h.deployRoot.Some? && !w.oldMoved then (h, false, false) else
    var moved := h.deployRoot.Some?;
    var h1 := if moved then h.(deployRoot := None, sourceBackup := h.deployRoot) else h;
    if !w.newMoved then (h1, moved, false) else
    var h2 := h1.(deployRoot := h1.stage, stage := None);
    if h2.sourceBackup.Some? && !w.oldRemoved then (h2.(sourceBackup := w.partialBackup), moved, false) else
    (h2.(sourceBackup := None), false, true)
  }

  function Guarded(w: World, job: Job, h: Host): Attempt {
    var (h1, prepared) := Prepare(w, h);
    if !prepared then Attempt(h1, PrepareVolumes, false, false, false) else
    var (h2, built) := BuildCandidate(w, job, h1);
    if !built then Attempt(h2, Build, false, false, false) else
    var h3 := h2.(backup := Some(Copied(w.backedUp, h2.live, h2.backup)));
    if w.backedUp.Broke? then Attempt(h3, BackupVolume, false, false, false) else
    Promotion(w, job, h3)
  }

  /** From the moment the live volume is touched. */
  function Promotion(w: World, job: Job, h: Host): Attempt {
    var (h4, promoted) := PromoteLive(w, job, h);
    if !promoted then Attempt(h4, PromoteVolume, true, false, false) else
    var (h5, moved, replaced) := PromoteTree(w, h4);
    if !replaced then Attempt(h5, PromoteSource, true, moved, false) else
    var h6 := Removed(h5, w.removedAfter);
    if !w.evidenceWritten then Attempt(h6, Cleanup, true, false, false) else
    Attempt(h6.(evidence := Some(PassedVerdict(job.sha))), Cleanup, true, false, true)
  }

  /** A container that mounts a missing volume creates it empty. */
  function RollBackLive(w: World, h: Host): (Host, bool) {
    var h1 := h.(live := Some(Cleared(w.rollbackCleared)));
    if w.rollbackCleared.Broke? then (h1, false) else
    var h2 := h1.(backup := Some(Contents(h1.backup)));
    (h2.(live := Some(Copied(w.rollbackCopied, h2.backup, h2.live))), w.rollbackCopied.Completed?)
  }

  function Recover(w: World, job: Job, a: Attempt): (Host, Exit) {
    var (h1, restored) := if a.stableChanged then RollBackLive(w, a.host) else (a.host, true);
    var mustRestore := a.sourceMoved && h1.sourceBackup.Some? && h1.deployRoot.None?;
    if mustRestore && !w.oldRestored then (h1, Escaped(a.phase, !restored)) else
    var h2 := if mustRestore then h1.(deployRoot := h1.sourceBackup, sourceBackup := None) else h1;
    var h3 := if w.stageRemoved then h2.(stage := None) else h2;
    var h4 := Removed(h3, w.removedFinally);
    if !w.failureWritten then (h4, Escaped(a.phase, !restored)) else
    (h4.(evidence := Some(FailedVerdict(job.sha, a.phase, !restored))), Failed(a.phase, !restored))
  }

  /** Removing what an earlier run left may fail half way, on the stage or on the moved source. */
  function StaleLeft(w: World, h: Host): Host {
    h.(stage := w.partialStage, sourceBackup := if h.sourceBackup.Some? then w.partialBackup else None)
  }

  function Deploy(w: World, job: Job, h: Host): (Host, Exit) {
    if !w.staleRemoved then (StaleLeft(w, h), NotStarted) else
    var h1 := h.(stage := None, sourceBackup := None);
    if !w.copied then (h1.(stage := w.partialStage), NotStarted) else
    if !w.composeFile then (h1, NotStarted) else
    var a := Guarded(w, job, h1.(stage := Some(job.source)));
    if a.ok then (a.host, Passed) else Recover(w, job, a)
  }

  /** The host as the program changes it, one command at a time. */
  class Deployment {
    const world: World
    const job: Job
    var live: Option<Files>
    var candidate: Option<Files>
    var backup: Option<Files>
    var deployRoot: Option<Files>
    var stage: Option<Files>
    var sourceBackup: Option<Files>
    var evidence: Option<Verdict>
    var phase: Phase
    var stableChanged: bool
    var sourceMoved: bool

    constructor (world: World, job: Job, h: Host)
      ensures this.world == world && this.job == job && Value() == h
    {
      this.world, this.job := world, job;
      live, candidate, backup := h.live, h.candidate, h.backup;
      deployRoot, stage, sourceBackup, evidence := h.deployRoot, h.stage, h.sourceBackup, h.evidence;
      phase, stableChanged, sourceMoved := PrepareVolumes, false, false;
    }

    function Value(): Host
      reads this
    {
      Host(live, candidate, backup, deployRoot, stage, sourceBackup, evidence)
    }

    function Progress(ok: bool): Attempt
      reads this
    {
      Attempt(Value(), phase, stableChanged, sourceMoved, ok)
    }

    method RemoveVolumes(r: Removal)
      modifies this`candidate, this`backup
      ensures Value() == Removed(old(Value()), r)
    {
      if r.candidate {
        candidate := None;
      }
      if r.backup {
        backup := None;
      }
    }

    method VerifyOutputs(tested: nat -> bool, volume: Option<Files>) returns (ok: bool)
      ensures ok == Verified(tested, Contents(volume), job.outputs)
    {
      for i := 0 to |job.outputs|
        invariant forall k | 0 <= k < i :: tested(k) && Present(Contents(volume), job.outputs[k])
      {
        if !tested(i) || !Present(Contents(volume), job.outputs[i]) {
          return false;
        }
      }
      return true;
    }

    method PrepareVolumesPhase() returns (ok: bool)
      modifies this`live, this`candidate, this`backup
      ensures (Value(), ok) == Prepare(world, old(Value()))
    {
      RemoveVolumes(world.removedBefore);
      if !world.createdCandidate {
        return false;
      }
      candidate := Some(Contents(candidate));
      if !world.createdLive {
        return false;
      }
      live := Some(Contents(live));
      if !world.createdBackup {
        return false;
      }
      backup := Some(Contents(backup));
      return true;
    }

    method BuildPhase() returns (ok: bool)
      modifies this`candidate
      ensures (Value(), ok) == BuildCandidate(world, job, old(Value()))
    {
      if !world.built {
        return false;
      }
      candidate := Some(if world.builderRan.Completed? then Contents(candidate) + world.output
                        else world.builderRan.left);
      if world.builderRan.Broke? || !world.listed || !world.imageValid {
        return false;
      }
      ok := VerifyOutputs(world.candidateTested, candidate);
    }

    method PromoteVolumePhase() returns (ok: bool)
      modifies this`live
      ensures (Value(), ok) == PromoteLive(world, job, old(Value()))
    {
      live := Some(Cleared(world.cleared));
      if world.cleared.Broke? {
        return false;
      }
      live := Some(Copied(world.promoted, candidate, live));
      if world.promoted.Broke? {
        return false;
      }
      ok := VerifyOutputs(world.liveTested, live);
    }

    method PromoteSourcePhase() returns (ok: bool)
      requires !sourceMoved
      modifies this`deployRoot, this`stage, this`sourceBackup, this`sourceMoved
      ensures (Value(), sourceMoved, ok) == PromoteTree(world, old(Value()))
    {
      if deployRoot.Some? {
        if !world.oldMoved {
          return false;
        }
        deployRoot, sourceBackup := None, deployRoot;
        sourceMoved := true;
      }
      if !world.newMoved {
        return false;
      }
      deployRoot, stage := stage, None;
      if sourceBackup.Some? {
        if !world.oldRemoved {
          sourceBackup := world.partialBackup;
          return false;
        }
        sourceBackup := None;
      }
      sourceMoved := false;
      return true;
    }

    method Run() returns (ok: bool)
      modifies this
      ensures Progress(ok) == Guarded(world, job, old(Value()))
    {
      phase, stableChanged, sourceMoved := PrepareVolumes, false, false;
      ok := PrepareVolumesPhase();
      if !ok {
        return;
      }

      phase := Build;
      ok := BuildPhase();
      if !ok {
        return;
      }

      phase := BackupVolume;
      backup := Some(Copied(world.backedUp, live, backup));
      if world.backedUp.Broke? {
        return false;
      }
      ok := Promote();
    }

    method Promote() returns (ok: bool)
      requires !sourceMoved
      modifies this
      ensures Progress(ok) == Promotion(world, job, old(Value()))
    {
      phase := PromoteVolume;
      stableChanged := true;
      ok := PromoteVolumePhase();
      if !ok {
        return;
      }

      phase := PromoteSource;
      ok := PromoteSourcePhase();
      if !ok {
        return;
      }

      phase := Cleanup;
      RemoveVolumes(world.removedAfter);
      if !world.evidenceWritten {
        return false;
      }
      evidence := Some(PassedVerdict(job.sha));
    }

    method RestoreVolume() returns (ok: bool)
      modifies this`live, this`backup
      ensures (Value(), ok) == RollBackLive(world, old(Value()))
    {
      live := Some(Cleared(world.rollbackCleared));
      if world.rollbackCleared.Broke? {
        return false;
      }
      backup := Some(Contents(backup));
      live := Some(Copied(world.rollbackCopied, backup, live));
      return world.rollbackCopied.Completed?;
    }

    method HandleFailure() returns (exit: Exit)
      modifies this
      ensures (Value(), exit) == Recover(world, job, old(Progress(false)))
      ensures exit.Failed? || exit.Escaped?
      ensures evidence == if exit.Failed? then Some(FailedVerdict(job.sha, exit.phase, exit.rollbackFailed))
                          else old(evidence)
      ensures !old(stableChanged) ==> Contents(live) == old(Contents(live))
      ensures old(stableChanged) && !exit.rollbackFailed ==> Contents(live) == old(Contents(backup))
    {
      RecoverLive(world, job, Progress(false));
      var rollbackFailed := false;
      if stableChanged {
        var restored := RestoreVolume();
        rollbackFailed := !restored;
      }
      if sourceMoved && sourceBackup.Some? && deployRoot.None? {
        if !world.oldRestored {
          return Escaped(phase, rollbackFailed);
        }
        deployRoot, sourceBackup := sourceBackup, None;
      }
      if world.stageRemoved {
        stage := None;
      }
      RemoveVolumes(world.removedFinally);
      if !world.failureWritten {
        return Escaped(phase, rollbackFailed);
      }
      evidence := Some(FailedVerdict(job.sha, phase, rollbackFailed));
      return Failed(phase, rollbackFailed);
    }

    method DeployStaticSite() returns (exit: Exit)
      modifies this
      ensures (Value(), exit) == Deploy(world, job, old(Value()))
      ensures exit == Passed ==>
                live == Some(Site(world, old(Value()))) && AllPresent(Site(world, old(Value())), job.outputs)
      ensures exit == Passed ==> deployRoot == Some(job.source) && evidence == Some(PassedVerdict(job.sha))
      ensures exit.Failed? || exit.Escaped? ==>
                (Unchanged(old(Value()), Value()) <==>
                   LiveKept(world, old(Value()), exit.phase) && SourceKept(world, job, old(Value()), exit.phase))
    {
      DeployKeepsPromises(world, job, Value());
      if !world.staleRemoved {
        stage := world.partialStage;
        if sourceBackup.Some? {
          sourceBackup := world.partialBackup;
        }
        return NotStarted;
      }
      stage, sourceBackup := None, None;
      if !world.copied {
        stage := world.partialStage;
        return NotStarted;
      }
      if !world.composeFile {
        return NotStarted;
      }
      stage := Some(job.source);
      var ok := Run();
      if ok {
        return Passed;
      }
      exit := HandleFailure();
    }
  }

  // ---- What each exit leaves behind ----

  /** What the backup volume still holds when the copy of the live volume is added to it. */
  function Leftover(w: World, h: Host): Files {
    if w.removedBefore.backup then map[] else Contents(h.backup)
  }

  /** What the candidate volume still holds when the builder writes to it. */
  function Stale(w: World, h: Host): Files {
    if w.removedBefore.candidate then map[] else Contents(h.candidate)
  }

  /** What the candidate volume holds after the build. */
  function Site(w: World, h: Host): Files {
    Stale(w, h) + w.output
  }

  predicate RolledBack(exit: Exit) {
    (exit.Failed? || exit.Escaped?) && !exit.rollbackFailed
  }

  /**
   A failure in any phase through promotion of the source restores the live
   volume exactly when the phase never touched it, or when nothing was left in
   the backup volume beyond the paths that the live volume had.
   */
  lemma FailureRestoresLiveIff(w: World, job: Job, h: Host)
    requires RolledBack(Deploy(w, job, h).1) && Deploy(w, job, h).1.phase != Cleanup
    ensures var (h', exit) := Deploy(w, job, h);
            && (exit.phase in {PromoteVolume, PromoteSource} ==>
                  Contents(h'.live) == Leftover(w, h) + Contents(h.live))
            && (Contents(h'.live) == Contents(h.live) <==>
                  exit.phase in {PrepareVolumes, Build, BackupVolume}
                  || Leftover(w, h).Keys <= Contents(h.live).Keys)
  {
    var start := h.(stage := Some(job.source), sourceBackup := None);
    GuardedKeepsBackup(w, job, start);
    OverlayIsIdentityIff(Leftover(w, h), Contents(h.live));
    assert map[] + (Leftover(w, h) + Contents(h.live)) == Leftover(w, h) + Contents(h.live);
  }

  lemma OverlayIsIdentityIff(below: Files, above: Files)
    ensures below + above == above <==> below.Keys <= above.Keys
  {
    assert (below + above).Keys == below.Keys + above.Keys;
    if below.Keys <= above.Keys {
      assert below + above == above;
    }
  }

  /** Once the backup is made, it holds the old contents until cleanup removes it. */
  lemma GuardedKeepsBackup(w: World, job: Job, h: Host)
    ensures var a := Guarded(w, job, h);
            && (a.phase in {PrepareVolumes, Build, BackupVolume} ==>
                  !a.stableChanged && Contents(a.host.live) == Contents(h.live))
            && (a.phase in {PromoteVolume, PromoteSource, Cleanup} ==> a.stableChanged)
            && (a.phase in {PromoteVolume, PromoteSource} ==>
                  a.host.backup == Some(Leftover(w, h) + Contents(h.live)))
            && (a.phase == Cleanup ==>
                  a.host.backup == if w.removedAfter.backup then None
                                   else Some(Leftover(w, h) + Contents(h.live)))
  {
  }

  /**
   A successful run leaves what was built over what the candidate volume still
   held, with every required output, and the new source. That is exactly what was
   built if and only if nothing else was left in that volume.
   */
  lemma SuccessPromotesCandidate(w: World, job: Job, h: Host)
    requires Deploy(w, job, h).1 == Passed
    ensures var h' := Deploy(w, job, h).0;
            && h'.live == Some(Site(w, h)) && AllPresent(Site(w, h), job.outputs)
            && (h'.live == Some(w.output) <==> Stale(w, h).Keys <= w.output.Keys)
            && h'.deployRoot == Some(job.source) && h'.stage == None && h'.sourceBackup == None
            && h'.evidence == Some(PassedVerdict(job.sha))
  {
    hide Guarded, Verified;
    GuardedPasses(w, job, h.(stage := Some(job.source), sourceBackup := None));
    VerifiedArePresent(w.liveTested, Site(w, h), job.outputs);
    OverlayIsIdentityIff(Stale(w, h), w.output);
  }

  lemma GuardedPasses(w: World, job: Job, h: Host)
    requires h.stage == Some(job.source) && h.sourceBackup == None && Guarded(w, job, h).ok
    ensures var h' := Guarded(w, job, h).host;
            && h'.live == Some(Site(w, h)) && Verified(w.liveTested, Site(w, h), job.outputs)
            && h'.deployRoot == Some(job.source) && h'.stage == None && h'.sourceBackup == None
            && h'.evidence == Some(PassedVerdict(job.sha))
  {
    hide Verified;
    assert map[] + Site(w, h) == Site(w, h);
  }

  lemma VerifiedArePresent(tested: nat -> bool, files: Files, outputs: seq<string>)
    requires Verified(tested, files, outputs)
    ensures AllPresent(files, outputs)
  {
    forall p | p in outputs
      ensures Present(files, p)
    {
      var i :| 0 <= i < |outputs| && outputs[i] == p;
    }
  }

  /** The failure came after the stage had been renamed into place. */
  predicate StageRenamed(w: World, h: Host, exit: Exit)
    requires exit.Failed? || exit.Escaped?
  {
    exit.phase == Cleanup || (exit.phase == PromoteSource && w.newMoved && (h.deployRoot.None? || w.oldMoved))
  }

  lemma GuardedSource(w: World, job: Job, h: Host)
    requires h.stage == Some(job.source) && h.sourceBackup == None
    ensures var a := Guarded(w, job, h);
            && (!a.ok ==> a.host.evidence == h.evidence)
            && if a.phase == Cleanup then
              a.host.deployRoot == Some(job.source) && !a.sourceMoved
            else if a.phase != PromoteSource || (h.deployRoot.Some? && !w.oldMoved) then
              a.host.deployRoot == h.deployRoot && !a.sourceMoved
            else if w.newMoved then
              a.host.deployRoot == Some(job.source)
            else
              && a.host.deployRoot == None && a.host.sourceBackup == h.deployRoot
              && a.sourceMoved == h.deployRoot.Some?
  {
  }

  /** The old source was moved away, and neither the stage nor the old source could be renamed into its place. */
  predicate SourceStranded(w: World, h: Host, exit: Exit)
    requires exit.Failed? || exit.Escaped?
  {
    exit.phase == PromoteSource && h.deployRoot.Some? && w.oldMoved && !w.newMoved && !w.oldRestored
  }

  /**
   The source tree after a failure: the new one exactly when the stage had been
   renamed, and otherwise the old one, so that a failed stage rename is undone.
   Only a rename back that itself fails leaves neither; the old tree is then
   intact in the backup directory, and no verdict is recorded.
   */
  lemma SourceAfterFailure(w: World, job: Job, h: Host)
    requires Deploy(w, job, h).1.Failed? || Deploy(w, job, h).1.Escaped?
    ensures var (h', exit) := Deploy(w, job, h);
            && h'.deployRoot == (if StageRenamed(w, h, exit) then Some(job.source)
                                 else if SourceStranded(w, h, exit) then None
                                 else h.deployRoot)
            && (SourceStranded(w, h, exit) ==>
                  exit.Escaped? && h'.sourceBackup == h.deployRoot && h'.evidence == h.evidence)
  {
    GuardedSource(w, job, h.(stage := Some(job.source), sourceBackup := None));
  }

  /**
   The exact outcome of a failure after the promotion was complete, which only a
   failing evidence write can cause: the backup may already be gone, and then
   the rollback empties the live volume while the new source stays in place.
   */
  lemma FailedEvidenceWrite(w: World, job: Job, h: Host)
    requires RolledBack(Deploy(w, job, h).1) && Deploy(w, job, h).1.phase == Cleanup
    ensures var h' := Deploy(w, job, h).0;
            && !w.evidenceWritten
            && Contents(h'.live) == (if w.removedAfter.backup then map[] else Leftover(w, h) + Contents(h.live))
            && h'.deployRoot == Some(job.source)
  {
    var start := h.(stage := Some(job.source), sourceBackup := None);
    GuardedKeepsBackup(w, job, start);
    assert map[] + (Leftover(w, h) + Contents(h.live)) == Leftover(w, h) + Contents(h.live);
  }

  const QUIET_WORLD := World(
    true, true, true, None, Removal(true, true), true, true, true,
    true, Completed, map["index.html" := "new"], true, true, (i: nat) => true,
    Completed, Completed, Completed, (i: nat) => true,
    true, true, true, None, Removal(true, true), true,
    Completed, Completed, true, true, Removal(true, true), true)

  const OLD_SITE := Host(
    Some(map["index.html" := "old"]), None, None, Some(map["compose.yml" := "old"]), None, None, None)

  const NEW_JOB := Job("0123456789abcdef0123456789abcdef01234567", map["compose.yml" := "new"], ["index.html"])

  /** Losing only the evidence write of an otherwise perfect run loses the live site. */
  lemma EvidenceFailureLosesLiveSite()
    ensures var (h, exit) := Deploy(QUIET_WORLD.(evidenceWritten := false), NEW_JOB, OLD_SITE);
            exit == Failed(Cleanup, false) && h.live == Some(map[]) && h.deployRoot == Some(NEW_JOB.source)
  {
    var w := QUIET_WORLD.(evidenceWritten := false);
    assert Guarded(w, NEW_JOB, OLD_SITE.(stage := Some(NEW_JOB.source))).phase == Cleanup;
    FailedEvidenceWrite(w, NEW_JOB, OLD_SITE);
  }

  /** Failing to remove the old source tree leaves the new source beside the old site. */
  lemma UnremovableBackupSplitsSourceFromSite()
    ensures var (h, exit) := Deploy(QUIET_WORLD.(oldRemoved := false), NEW_JOB, OLD_SITE);
            exit == Failed(PromoteSource, false) && h.live == OLD_SITE.live && h.deployRoot == Some(NEW_JOB.source)
  {
    var w := QUIET_WORLD.(oldRemoved := false);
    assert Guarded(w, NEW_JOB, OLD_SITE.(stage := Some(NEW_JOB.source))).phase == PromoteSource;
    FailureRestoresLiveIff(w, NEW_JOB, OLD_SITE);
  }

  /** Nothing that the deployment serves from has changed. */
  predicate Unchanged(h: Host, h': Host) {
    h'.deployRoot == h.deployRoot && Contents(h'.live) == Contents(h.live)
  }

  // ---- What decides a failure, before the run ----

  predicate Prepares(w: World) {
    w.createdCandidate && w.createdLive && w.createdBackup
  }

  predicate Builds(w: World, job: Job, site: Files) {
    && w.built && w.builderRan.Completed? && w.listed && w.imageValid
    && Verified(w.candidateTested, site, job.outputs)
  }

  predicate PromotesLive(w: World, job: Job, site: Files) {
    w.cleared.Completed? && w.promoted.Completed? && Verified(w.liveTested, site, job.outputs)
  }

  /** The old source, if there is one, makes way for the stage. */
  predicate RenamesStage(w: World, h: Host) {
    (h.deployRoot.None? || w.oldMoved) && w.newMoved
  }

  predicate RemovesOld(w: World, h: Host) {
    h.deployRoot.None? || w.oldRemoved
  }

  predicate Starts(w: World) {
    w.staleRemoved && w.copied && w.composeFile
  }

  /** The phase in which a run stops, or None for a run that passes. */
  function StopsAt(w: World, job: Job, h: Host): Option<Phase> {
    if !Prepares(w) then Some(PrepareVolumes)
    else if !Builds(w, job, Site(w, h)) then Some(Build)
    else if w.backedUp.Broke? then Some(BackupVolume)
    else if !PromotesLive(w, job, Site(w, h)) then Some(PromoteVolume)
    else if !RenamesStage(w, h) || !RemovesOld(w, h) then Some(PromoteSource)
    else if !w.evidenceWritten then Some(Cleanup)
    else None
  }

  predicate TouchesLive(phase: Phase) {
    phase in {PromoteVolume, PromoteSource, Cleanup}
  }

  lemma PromotionStops(w: World, job: Job, h: Host, site: Files)
    requires h.candidate == Some(site) && h.stage == Some(job.source) && h.sourceBackup == None
    ensures var a := Promotion(w, job, h);
            && a.stableChanged
            && a.ok == (PromotesLive(w, job, site) && RenamesStage(w, h) && RemovesOld(w, h) && w.evidenceWritten)
            && (!a.ok ==> a.phase == if !PromotesLive(w, job, site) then PromoteVolume
                                     else if !RenamesStage(w, h) || !RemovesOld(w, h) then PromoteSource
                                     else Cleanup)
  {
    hide Verified;
    assert map[] + site == site;
  }

  lemma SameRenames(w: World, h: Host, h': Host)
    requires h'.deployRoot == h.deployRoot
    ensures (RenamesStage(w, h) <==> RenamesStage(w, h')) && (RemovesOld(w, h) <==> RemovesOld(w, h'))
  {
  }

  lemma GuardedStops(w: World, job: Job, h: Host)
    requires h.stage == Some(job.source) && h.sourceBackup == None
    ensures var a := Guarded(w, job, h);
            && a.ok == StopsAt(w, job, h).None?
            && (StopsAt(w, job, h).Some? ==> a.phase == StopsAt(w, job, h).value)
            && a.stableChanged == (a.ok || TouchesLive(a.phase))
  {
    hide Promotion, Verified, PromotesLive, RenamesStage, RemovesOld;
    if Prepares(w) && Builds(w, job, Site(w, h)) && w.backedUp.Completed? {
      var h2 := BuildCandidate(w, job, Prepare(w, h).0).0;
      var h3 := h2.(backup := Some(Copied(w.backedUp, h2.live, h2.backup)));
      PromotionStops(w, job, h3, Site(w, h));
      SameRenames(w, h, h3);
    }
  }

  /** A run passes, stops and rolls back as its environment decides. */
  lemma DeployStops(w: World, job: Job, h: Host)
    requires Starts(w)
    ensures var exit, stop := Deploy(w, job, h).1, StopsAt(w, job, h);
            && (exit == Passed <==> stop.None?)
            && (stop.Some? ==> (exit.Failed? || exit.Escaped?) && exit.phase == stop.value)
            && (stop.Some? ==>
                  (RolledBack(exit) <==>
                     (TouchesLive(stop.value) ==> w.rollbackCleared.Completed? && w.rollbackCopied.Completed?)))
  {
    GuardedStops(w, job, h.(stage := Some(job.source), sourceBackup := None));
  }

  /** The rollback, if the live volume was touched, leaves it with the same contents. */
  predicate LiveKept(w: World, h: Host, phase: Phase) {
    if !TouchesLive(phase) then true
    else if w.rollbackCleared.Broke? then w.rollbackCleared.left == Contents(h.live)
    else if w.rollbackCopied.Broke? then w.rollbackCopied.left == Contents(h.live)
    else if phase == Cleanup && w.removedAfter.backup then Contents(h.live) == map[]
    else Leftover(w, h).Keys <= Contents(h.live).Keys
  }

  /** The stage did not take the place of a different source, and the old source did not stay moved away. */
  predicate SourceKept(w: World, job: Job, h: Host, phase: Phase) {
    if phase == Cleanup || (phase == PromoteSource && RenamesStage(w, h)) then h.deployRoot == Some(job.source)
    else phase == PromoteSource && h.deployRoot.Some? && w.oldMoved ==> w.oldRestored
  }

  /** What the rollback leaves in the live volume. */
  lemma RecoverLive(w: World, job: Job, a: Attempt)
    ensures Contents(Recover(w, job, a).0.live)
         == if !a.stableChanged then Contents(a.host.live)
            else if w.rollbackCleared.Broke? then w.rollbackCleared.left
            else if w.rollbackCopied.Broke? then w.rollbackCopied.left
            else Contents(a.host.backup)
  {
    assert map[] + Contents(a.host.backup) == Contents(a.host.backup);
  }

  lemma LiveKeptIff(w: World, job: Job, h: Host)
    requires Starts(w) && StopsAt(w, job, h).Some?
    ensures Contents(Deploy(w, job, h).0.live) == Contents(h.live) <==> LiveKept(w, h, StopsAt(w, job, h).value)
  {
    hide Guarded, Recover, StopsAt;
    var start := h.(stage := Some(job.source), sourceBackup := None);
    SameStop(w, job, h, start);
    GuardedStops(w, job, start);
    GuardedKeepsBackup(w, job, start);
    RecoverLive(w, job, Guarded(w, job, start));
    OverlayIsIdentityIff(Leftover(w, h), Contents(h.live));
  }

  lemma SameStop(w: World, job: Job, h: Host, start: Host)
    requires start.deployRoot == h.deployRoot && start.candidate == h.candidate
    ensures StopsAt(w, job, h) == StopsAt(w, job, start)
  {
  }

  lemma SourceKeptIff(w: World, job: Job, h: Host)
    requires Starts(w) && StopsAt(w, job, h).Some?
    ensures Deploy(w, job, h).0.deployRoot == h.deployRoot <==> SourceKept(w, job, h, StopsAt(w, job, h).value)
  {
    DeployStops(w, job, h);
    SourceAfterFailure(w, job, h);
  }

  /**
   Every run that starts and does not pass, whether or not its rollback works and
   its verdict is written, leaves source and site as they were if and only if the
   environment keeps both in the phase in which it stops the run.
   */
  lemma FailureIsAtomicIff(w: World, job: Job, h: Host)
    requires Starts(w) && StopsAt(w, job, h).Some?
    ensures Unchanged(h, Deploy(w, job, h).0) <==>
            LiveKept(w, h, StopsAt(w, job, h).value) && SourceKept(w, job, h, StopsAt(w, job, h).value)
  {
    LiveKeptIff(w, job, h);
    SourceKeptIff(w, job, h);
  }

  /** What a whole run promises at each of its exits. */
  lemma DeployKeepsPromises(w: World, job: Job, h: Host)
    ensures var (h', exit) := Deploy(w, job, h);
            && (exit == Passed ==>
                  && h'.live == Some(Site(w, h)) && AllPresent(Site(w, h), job.outputs)
                  && h'.deployRoot == Some(job.source) && h'.evidence == Some(PassedVerdict(job.sha)))
            && (exit.Failed? || exit.Escaped? ==>
                  (Unchanged(h, h') <==> LiveKept(w, h, exit.phase) && SourceKept(w, job, h, exit.phase)))
  {
    hide Guarded, Recover, LiveKept, SourceKept, StopsAt, Unchanged, AllPresent, Site;
    if Starts(w) {
      DeployStops(w, job, h);
      if StopsAt(w, job, h).Some? {
        FailureIsAtomicIff(w, job, h);
      } else {
        SuccessPromotesCandidate(w, job, h);
      }
    }
  }

  // ---- What a caller can check before the run ----

  /** A rolled-back failure before cleanup restores the live volume. */
  ghost predicate RestoresLive(w: World, job: Job, h: Host) {
    var (h', exit) := Deploy(w, job, h);
    RolledBack(exit) && exit.phase != Cleanup ==> Contents(h'.live) == Contents(h.live)
  }

  /** The backup volume cannot be removed before the run, and the copy of the built site fails. */
  function LeftoverWorld(job: Job): World {
    QUIET_WORLD.(removedBefore := Removal(true, false), output := map p | p in job.outputs :: "",
                 promoted := Broke(map[]))
  }

  lemma LeftoverWorldRollsBack(job: Job, h: Host)
    ensures Starts(LeftoverWorld(job)) && StopsAt(LeftoverWorld(job), job, h) == Some(PromoteVolume)
  {
    forall i | 0 <= i < |job.outputs|
      ensures job.outputs[i] in LeftoverWorld(job).output
    {
      assert job.outputs[i] in job.outputs;
    }
  }

  /**
   Every rolled-back failure before cleanup restores the live volume, whatever
   the environment does, if and only if the backup volume holds no path that the
   live volume lacks when the run begins.
   */
  lemma AlwaysRestoresLiveIff(job: Job, h: Host)
    ensures (forall w :: RestoresLive(w, job, h)) <==> Contents(h.backup).Keys <= Contents(h.live).Keys
  {
    if Contents(h.backup).Keys <= Contents(h.live).Keys {
      forall w
        ensures RestoresLive(w, job, h)
      {
        if RolledBack(Deploy(w, job, h).1) && Deploy(w, job, h).1.phase != Cleanup {
          FailureRestoresLiveIff(w, job, h);
        }
      }
    } else {
      var w := LeftoverWorld(job);
      LeftoverWorldRollsBack(job, h);
      DeployStops(w, job, h);
      LiveKeptIff(w, job, h);
      assert !RestoresLive(w, job, h);
    }
  }

  /** A path left in the backup volume reaches the live site through a rollback. */
  lemma LeftoverReachesLiveSite()
    ensures var h := OLD_SITE.(backup := Some(map["stale.html" := "stale"]));
            !RestoresLive(LeftoverWorld(NEW_JOB), NEW_JOB, h)
            && "stale.html" in Contents(Deploy(LeftoverWorld(NEW_JOB), NEW_JOB, h).0.live)
  {
    var h := OLD_SITE.(backup := Some(map["stale.html" := "stale"]));
    assert "stale.html"[0] != "index.html"[0];
    assert "stale.html" in Contents(h.backup).Keys && "stale.html" !in Contents(h.live).Keys;
    LeftoverWorldRollsBack(NEW_JOB, h);
    DeployStops(LeftoverWorld(NEW_JOB), NEW_JOB, h);
    LiveKeptIff(LeftoverWorld(NEW_JOB), NEW_JOB, h);
  }

  /** A passing run publishes exactly what was built. */
  ghost predicate PublishesBuild(w: World, job: Job, h: Host) {
    Deploy(w, job, h).1 == Passed ==> Deploy(w, job, h).0.live == Some(w.output)
  }

  /** In a passing run every required output was built. */
  ghost predicate BuildsOutputs(w: World, job: Job, h: Host) {
    Deploy(w, job, h).1 == Passed ==> AllPresent(w.output, job.outputs)
  }

  /** The candidate volume cannot be removed before the run, and everything required but one path is built. */
  function StaleWorld(job: Job, path: string): World {
    QUIET_WORLD.(removedBefore := Removal(false, true), output := map p | p in job.outputs && p != path :: "")
  }

  lemma StaleWorldPasses(job: Job, h: Host, path: string)
    requires path in Contents(h.candidate)
    ensures var (h', exit) := Deploy(StaleWorld(job, path), job, h);
            exit == Passed && path in Contents(h'.live) && path !in StaleWorld(job, path).output
  {
    hide Deploy;
    var w := StaleWorld(job, path);
    forall i | 0 <= i < |job.outputs|
      ensures job.outputs[i] in Site(w, h)
    {
      assert job.outputs[i] in job.outputs;
    }
    DeployStops(w, job, h);
    SuccessPromotesCandidate(w, job, h);
  }

  /**
   Every passing run publishes exactly what was built, whatever the environment
   does, if and only if the candidate volume holds nothing when the run begins.
   */
  lemma AlwaysPublishesBuildIff(job: Job, h: Host)
    ensures (forall w :: PublishesBuild(w, job, h)) <==> Contents(h.candidate) == map[]
  {
    hide Deploy;
    if Contents(h.candidate) == map[] {
      forall w
        ensures PublishesBuild(w, job, h)
      {
        if Deploy(w, job, h).1 == Passed {
          SuccessPromotesCandidate(w, job, h);
        }
      }
    } else {
      var path :| path in Contents(h.candidate);
      StaleWorldPasses(job, h, path);
      assert !PublishesBuild(StaleWorld(job, path), job, h);
    }
  }

  /**
   In every passing run each required output was built, whatever the environment
   does, if and only if the candidate volume holds none of them when the run begins.
   */
  lemma AlwaysBuildsOutputsIff(job: Job, h: Host)
    ensures (forall w :: BuildsOutputs(w, job, h)) <==>
            forall p | p in job.outputs :: p == "." || p !in Contents(h.candidate)
  {
    hide Deploy;
    if p :| p in job.outputs && p != "." && p in Contents(h.candidate) {
      StaleWorldPasses(job, h, p);
      assert !Present(StaleWorld(job, p).output, p);
      assert !BuildsOutputs(StaleWorld(job, p), job, h);
    } else {
      forall w
        ensures BuildsOutputs(w, job, h)
      {
        if Deploy(w, job, h).1 == Passed {
          SuccessPromotesCandidate(w, job, h);
          assert forall p | p in job.outputs :: Present(Site(w, h), p);
        }
      }
    }
  }

  /** A page left in the candidate volume passes for one that the build should have made, and is published. */
  lemma StaleOutputPasses()
    ensures var h := OLD_SITE.(candidate := Some(map["index.html" := "stale"]));
            var w := QUIET_WORLD.(removedBefore := Removal(false, true), output := map[]);
            var (h', exit) := Deploy(w, NEW_JOB, h);
            exit == Passed && h'.live == Some(map["index.html" := "stale"]) && !AllPresent(w.output, NEW_JOB.outputs)
  {
    var h := OLD_SITE.(candidate := Some(map["index.html" := "stale"]));
    var w := QUIET_WORLD.(removedBefore := Removal(false, true), output := map[]);
    assert Site(w, h) == map["index.html" := "stale"];
    DeployStops(w, NEW_JOB, h);
    SuccessPromotesCandidate(w, NEW_JOB, h);
    assert "index.html" in NEW_JOB.outputs && !Present(w.output, "index.html");
  }

  // ---- Two runs ----

  /** The tree that a run found is in its place or in the backup directory. */
  predicate TreeSurvives(h: Host, h': Host) {
    h'.deployRoot == h.deployRoot || h'.sourceBackup == h.deployRoot
  }

  /** The second run over a source stranded by the first one ends without losing it. */
  predicate KeepsStranded(w: World, job: Job, before: Host, h: Host) {
    if w.staleRemoved then
      before.deployRoot == Some(job.source) && Starts(w) && StopsAt(w, job, h) in {None, Some(Cleanup)}
    else w.partialBackup == before.deployRoot
  }

  /**
   After a run that left the old source only in its backup directory, the old tree
   survives a second run of the same commit if and only if that run fails to clear
   the backup and leaves it whole, or puts an equal tree in its place.
   */
  lemma StrandedSurvivesIff(first: World, second: World, job: Job, h: Host)
    requires Starts(first) && StopsAt(first, job, h) == Some(PromoteSource)
    requires h.deployRoot.Some? && first.oldMoved && !first.newMoved && !first.oldRestored
    ensures var h' := Deploy(first, job, h).0;
            && h'.sourceBackup == h.deployRoot && h'.deployRoot == None
            && (TreeSurvives(h, Deploy(second, job, h').0) <==> KeepsStranded(second, job, h, h'))
  {
    hide StopsAt;
    DeployStops(first, job, h);
    SourceAfterFailure(first, job, h);
    SecondRunOverStranded(second, job, Deploy(first, job, h).0);
  }

  lemma GuardedWithoutSource(w: World, job: Job, h: Host)
    requires h.deployRoot == None && h.sourceBackup == None && h.stage == Some(job.source)
    ensures var a := Guarded(w, job, h);
            && a.host.sourceBackup == None && !a.sourceMoved
            && a.host.deployRoot == if a.ok || a.phase == Cleanup then Some(job.source) else None
  {
  }

  lemma SecondRunOverStranded(w: World, job: Job, h: Host)
    requires h.deployRoot == None && h.sourceBackup.Some?
    ensures var h' := Deploy(w, job, h).0;
            if w.staleRemoved then
              && h'.sourceBackup == None
              && h'.deployRoot == if Starts(w) && StopsAt(w, job, h) in {None, Some(Cleanup)} then Some(job.source)
                                  else None
            else h'.sourceBackup == w.partialBackup && h'.deployRoot == None
  {
    hide Guarded, StopsAt;
    var start := h.(stage := Some(job.source), sourceBackup := None);
    GuardedWithoutSource(w, job, start);
    GuardedStops(w, job, start);
    SameStop(w, job, h, start);
  }

  /** A stranded source is lost by a second run in which nothing fails. */
  lemma RetryLosesStrandedSource()
    ensures var first := QUIET_WORLD.(newMoved := false, oldRestored := false);
            var h' := Deploy(first, NEW_JOB, OLD_SITE).0;
            var (h'', exit) := Deploy(QUIET_WORLD, NEW_JOB, h');
            h'.sourceBackup == OLD_SITE.deployRoot && exit == Passed && !TreeSurvives(OLD_SITE, h'')
  {
    hide Deploy, Verified;
    var first := QUIET_WORLD.(newMoved := false, oldRestored := false);
    assert Site(first, OLD_SITE) == first.output;
    QuietVerifies(first);
    StrandedSurvivesIff(first, QUIET_WORLD, NEW_JOB, OLD_SITE);
    var h' := Deploy(first, NEW_JOB, OLD_SITE).0;
    assert Site(QUIET_WORLD, h') == QUIET_WORLD.output;
    QuietVerifies(QUIET_WORLD);
    DeployStops(QUIET_WORLD, NEW_JOB, h');
    assert OLD_SITE.deployRoot.value["compose.yml"] != NEW_JOB.source["compose.yml"];
  }

  lemma QuietVerifies(w: World)
    requires w.output == QUIET_WORLD.output
    requires w.candidateTested == QUIET_WORLD.candidateTested && w.liveTested == QUIET_WORLD.liveTested
    ensures Verified(w.candidateTested, w.output, NEW_JOB.outputs) && Verified(w.liveTested, w.output, NEW_JOB.outputs)
  {
  }
}
