/**
 One delivery under its lock: exact checkout, preflight gates, snapshot and
 synchronization, postflight gates. Git, rsync, tar and the gate runner are
 parameters that may fail or raise.
 */
module DeliveryExecutor {
  import opened Wrappers
  import opened DeliveryRequest
  import opened GateEvidence

  type Files = map<string, string>

  /** The destination directory and the snapshots kept beside it. */
  datatype Disk = Disk(destination: Files, snapshots: map<string, Files>)

  datatype SyncResult = SyncResult(
    changed: bool, changedEntries: nat, snapshotCreated: bool, snapshotName: Option<string>, synced: bool)

  /** The name may be given, and otherwise is made from the current time. */
  datatype SyncSpec = SyncSpec(snapshotEnabled: bool, snapshotName: string)

  datatype DryRun = DryRun(lines: nat, blank: bool)

  /** A synchronization command that completed, or that failed and left the destination like this. */
  datatype Rsync = Completed(result: Files) | Broke(left: Files)

  datatype SyncWorld = SyncWorld(
    pathsValid: bool, dryRun: Option<DryRun>, kept: string -> bool, snapshotWritten: bool, rsync: Rsync)

  datatype CheckoutResult = CheckoutResult(headSha: string, trustedRef: string, atDestination: bool)

  datatype ExecutorSpec = ExecutorSpec(
    request: DeployRequest, sync: SyncSpec, preflight: seq<string>, postflight: seq<string>)

  datatype ExecutorWorld = ExecutorWorld(
    lockTaken: bool,
    checkout: Option<CheckoutResult>,
    preflight: Option<seq<Gate>>,
    sync: SyncWorld,
    postflight: Option<seq<Gate>>)

  datatype ExecutorError = InvalidSpec | LockFailed | CheckoutFailed | GatesFailed | SyncFailed

  datatype DeliveryResult = DeliveryResult(
    ready: bool,
    request: Payload,
    headSha: string,
    trustedRef: string,
    sync: Option<SyncResult>,
    preflight: Evaluation,
    postflight: Option<Evaluation>,
    evidence: seq<Gate>,
    failureReason: Option<string>)

  predicate IsAlphanumeric(c: char) {
    'A' <= c <= 'Z' || 'a' <= c <= 'z' || '0' <= c <= '9'
  }

  /** A letter or digit, then safe characters, ending in .tar.gz. */
  predicate IsSnapshotName(name: string) {
    && |name| >= 8
    && IsAlphanumeric(name[0])
    && (forall c | c in name :: IsAlphanumeric(c) || c in "_.-")
    && name[|name| - 7..] == ".tar.gz"
  }

  /** What the snapshot filter lets into the archive. */
  function KeptFiles(kept: string -> bool, files: Files): Files {
    map p | p in files && kept(p) :: files[p]
  }

  function Synchronize(w: SyncWorld, spec: SyncSpec, disk: Disk): (Disk, Option<SyncResult>) {
    if !w.pathsValid || !IsSnapshotName(spec.snapshotName) || w.dryRun.None? then
      (disk, None)
    else if w.dryRun.value.blank then
      (disk, Some(SyncResult(false, 0, false, None, false)))
    else
      var name := spec.snapshotName;
      if spec.snapshotEnabled && (name in disk.snapshots || !w.snapshotWritten) then
        (disk, None)
      else
        var saved := if spec.snapshotEnabled
                     then disk.(snapshots := disk.snapshots[name := KeptFiles(w.kept, disk.destination)])
                     else disk;
        match w.rsync
        case Broke(left) => (saved.(destination := left), None)
        case Completed(result) =>
          (saved.(destination := result),
           Some(SyncResult(true, w.dryRun.value.lines, spec.snapshotEnabled,
                           if spec.snapshotEnabled then Some(name) else None, true)))
  }

  predicate ValidProfile(required: seq<string>) {
    CheckRequired(required).None?
  }

  predicate ValidSpec(spec: ExecutorSpec) {
    && ValidProfile(spec.preflight) && ValidProfile(spec.postflight)
    && forall g | g in spec.preflight :: g !in spec.postflight
  }

  predicate CheckoutMatches(c: CheckoutResult, r: DeployRequest) {
    c.headSha == r.candidateSha && c.trustedRef == r.trustedRef && c.atDestination
  }

  function RunGates(secretLike: string -> bool, gates: Option<seq<Gate>>, required: seq<string>): Option<Evaluation> {
    if gates.None? then None
    else match Evaluate(secretLike, gates.value, required)
      case Success(e) => Some(e)
      case Failure(_) => None
  }

  function Report(
    r: DeployRequest, c: CheckoutResult, sync: Option<SyncResult>, pre: Evaluation, post: Option<Evaluation>)
    : DeliveryResult
  {
    DeliveryResult(
      pre.passed && post.Some? && post.value.passed,
      CanonicalizeRequest(r), c.headSha, c.trustedRef, sync, pre, post,
      pre.evidence + (if post.Some? then post.value.evidence else []),
      if post.Some? && !post.value.passed then post.value.failureReason else pre.failureReason)
  }

  function Execute(secretLike: string -> bool, w: ExecutorWorld, spec: ExecutorSpec, disk: Disk)
    : (Disk, Result<DeliveryResult, ExecutorError>)
  {
    if !ValidSpec(spec) then (disk, Failure(InvalidSpec))
    else if !w.lockTaken then (disk, Failure(LockFailed))
    else if w.checkout.None? || !CheckoutMatches(w.checkout.value, spec.request) then (disk, Failure(CheckoutFailed))
    else
      var checkout := w.checkout.value;
      var pre := RunGates(secretLike, w.preflight, spec.preflight);
      if pre.None? then (disk, Failure(GatesFailed))
      else if !pre.value.passed then (disk, Success(Report(spec.request, checkout, None, pre.value, None)))
      else
        var (disk', sync) := Synchronize(w.sync, spec.sync, disk);
        if sync.None? then (disk', Failure(SyncFailed))
        else
          var post := RunGates(secretLike, w.postflight, spec.postflight);
          if post.None? then (disk', Failure(GatesFailed))
          else (disk', Success(Report(spec.request, checkout, sync, pre.value, post)))
  }

  /** The host whose directories a delivery changes. */
  class Host {
    var destination: Files
    var snapshots: map<string, Files>

    constructor (disk: Disk)
      ensures Value() == disk
    {
      destination, snapshots := disk.destination, disk.snapshots;
    }

    function Value(): Disk
      reads this
    {
      Disk(destination, snapshots)
    }

    method SyncDeployment(w: SyncWorld, spec: SyncSpec) returns (r: Option<SyncResult>)
      modifies this
      ensures (Value(), r) == Synchronize(w, spec, old(Value()))
      ensures r.Some? && !r.value.changed ==> Value() == old(Value())
      ensures forall name | name in old(snapshots) :: name in snapshots && snapshots[name] == old(snapshots)[name]
      ensures spec.snapshotEnabled && destination != old(destination) ==>
                snapshots == old(snapshots)[spec.snapshotName := KeptFiles(w.kept, old(destination))]
    {
      if !w.pathsValid || !IsSnapshotName(spec.snapshotName) || w.dryRun.None? {
        return None;
      }
      if w.dryRun.value.blank {
        return Some(SyncResult(false, 0, false, None, false));
      }
      var created, name := false, None;
      if spec.snapshotEnabled {
        if spec.snapshotName in snapshots || !w.snapshotWritten {
          return None;
        }
        snapshots := snapshots[spec.snapshotName := KeptFiles(w.kept, destination)];
        created, name := true, Some(spec.snapshotName);
      }
      match w.rsync {
        case Broke(left) =>
          destination := left;
          return None;
        case Completed(result) =>
          destination := result;
      }
      return Some(SyncResult(true, w.dryRun.value.lines, created, name, true));
    }

    method RunPhase(secretLike: string -> bool, gates: Option<seq<Gate>>, required: seq<string>)
      returns (e: Option<Evaluation>)
      ensures e == RunGates(secretLike, gates, required)
    {
      if gates.None? {
        return None;
      }
      var r := EvaluateGateEvidence(secretLike, gates.value, required);
      return if r.Success? then Some(r.value) else None;
    }

    method ExecuteDelivery(secretLike: string -> bool, w: ExecutorWorld, spec: ExecutorSpec)
      returns (r: Result<DeliveryResult, ExecutorError>)
      modifies this
      ensures (Value(), r) == Execute(secretLike, w, spec, old(Value()))
      ensures Value() != old(Value()) ==>
                ValidSpec(spec) && w.preflight.Some? && AllPassed(w.preflight.value, spec.preflight)
      ensures spec.sync.snapshotEnabled && destination != old(destination) ==>
                snapshots == old(snapshots)[spec.sync.snapshotName := KeptFiles(w.sync.kept, old(destination))]
      ensures r.Success? ==> (r.value.ready <==> r.value.failureReason.None?)
    {
      DestinationIsProtected(secretLike, w, spec, Value());
      ReadyIffNoReason(secretLike, w, spec, Value());
      if !ValidSpec(spec) {
        return Failure(InvalidSpec);
      }
      if !w.lockTaken {
        return Failure(LockFailed);
      }
      if w.checkout.None? || !CheckoutMatches(w.checkout.value, spec.request) {
        return Failure(CheckoutFailed);
      }
      var preflight := RunPhase(secretLike, w.preflight, spec.preflight);
      if preflight.None? {
        return Failure(GatesFailed);
      }
      if !preflight.value.passed {
        return Success(Report(spec.request, w.checkout.value, None, preflight.value, None));
      }
      var sync := SyncDeployment(w.sync, spec.sync);
      if sync.None? {
        return Failure(SyncFailed);
      }
      var postflight := RunPhase(secretLike, w.postflight, spec.postflight);
      if postflight.None? {
        return Failure(GatesFailed);
      }
      return Success(Report(spec.request, w.checkout.value, sync, preflight.value, postflight));
    }
  }

  /**
   The destination changes only after every preflight gate passed, and whenever
   a snapshot is reported, it holds what the destination held before, filtered.
   */
  lemma DestinationIsProtected(secretLike: string -> bool, w: ExecutorWorld, spec: ExecutorSpec, disk: Disk)
    ensures var (disk', r) := Execute(secretLike, w, spec, disk);
            && (disk' != disk ==>
                  && ValidSpec(spec) && w.preflight.Some?
                  && Evaluate(secretLike, w.preflight.value, spec.preflight).Success?
                  && AllPassed(w.preflight.value, spec.preflight))
            && (spec.sync.snapshotEnabled && disk'.destination != disk.destination ==>
                  disk'.snapshots == disk.snapshots[spec.sync.snapshotName := KeptFiles(w.sync.kept, disk.destination)])
            && (forall name | name in disk.snapshots ::
                  name in disk'.snapshots && disk'.snapshots[name] == disk.snapshots[name])
            && (r.Success? && r.value.sync.Some? && r.value.sync.value.snapshotCreated ==>
                  && r.value.sync.value.snapshotName == Some(spec.sync.snapshotName)
                  && spec.sync.snapshotName !in disk.snapshots
                  && spec.sync.snapshotName in disk'.snapshots
                  && disk'.snapshots[spec.sync.snapshotName] == KeptFiles(w.sync.kept, disk.destination))
  {
    hide IsSnapshotName, ValidSpec, CheckoutMatches, Evaluate, AllPassed;
    if w.preflight.Some? && Evaluate(secretLike, w.preflight.value, spec.preflight).Success? {
      PassesIff(secretLike, w.preflight.value, spec.preflight);
    }
  }

  /** A result is ready exactly when it gives no reason for failure. */
  lemma ReadyIffNoReason(secretLike: string -> bool, w: ExecutorWorld, spec: ExecutorSpec, disk: Disk)
    ensures var r := Execute(secretLike, w, spec, disk).1;
            r.Success? ==> (r.value.ready <==> r.value.failureReason.None?)
  {
    if Execute(secretLike, w, spec, disk).1.Success? {
      PassesIff(secretLike, w.preflight.value, spec.preflight);
      if Execute(secretLike, w, spec, disk).1.value.postflight.Some? {
        PassesIff(secretLike, w.postflight.value, spec.postflight);
      }
    }
  }
}
