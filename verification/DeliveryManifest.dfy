/**
 The manifest written from a delivery result, and the rollback plan read back
 from it.
 */
module DeliveryManifest {
  import opened Wrappers
  import opened DeliveryRequest
  import opened GateEvidence
  import opened DeliveryExecutor

  const MAX_PLAN_TEXT: nat := 256

  /** The secret patterns of the gates and of the manifests, and the test for surrounding space. */
  datatype Patterns = Patterns(gateSecret: string -> bool, manifestSecret: string -> bool, trimmed: string -> bool)

  datatype Metadata = Metadata(
    environment: string, workflow: string, runId: string, actor: string, runnerName: string, rollbackOf: Option<string>)

  datatype Manifest = Manifest(
    status: string,
    ready: bool,
    identity: Payload,
    metadata: Metadata,
    gates: seq<Gate>,
    failureReason: Option<string>,
    sync: Option<SyncResult>)

  datatype ManifestError =
    | PathExists | BadRequest | BadIdentity | BadReady | BadEvidence | BadSync | BadReason | BadMetadata

  /** A manifest scalar: never empty, and safe by the manifest's pattern. */
  predicate Scalar(p: Patterns, text: string) {
    text != "" && SafeScalar(p.manifestSecret, text)
  }

  predicate CanonicalEvidence(p: Patterns, g: Gate) {
    match Evaluate(p.gateSecret, [g], [g.name])
    case Success(e) => |e.evidence| > 0 && e.evidence[0] == g
    case Failure(_) => false
  }

  predicate ConsistentSync(s: SyncResult) {
    (s.snapshotName.Some? ==> IsSnapshotName(s.snapshotName.value)) && (s.synced ==> s.changed)
  }

  function ValidateResult(p: Patterns, valid: FieldRules, r: DeliveryResult): Option<ManifestError> {
    match ParseRequest(valid, r.request)
    case Failure(_) => Some(BadRequest)
    case Success(request) =>
      if CanonicalizeRequest(request) != r.request then Some(BadRequest)
      else if r.headSha != request.candidateSha || !valid("candidate_sha", r.headSha) then Some(BadIdentity)
      else if r.trustedRef != request.trustedRef then Some(BadIdentity)
      else if r.ready != (r.preflight.passed && r.postflight.Some? && r.postflight.value.passed) then Some(BadReady)
      else if r.evidence != r.preflight.evidence + (if r.postflight.Some? then r.postflight.value.evidence else []) then
        Some(BadEvidence)
      else if exists g | g in r.evidence :: !CanonicalEvidence(p, g) then Some(BadEvidence)
      else if r.postflight.None? && r.sync.Some? then Some(BadSync)
      else if r.sync.Some? && !ConsistentSync(r.sync.value) then Some(BadSync)
      else if r.failureReason.Some? && !Scalar(p, r.failureReason.value) then Some(BadReason)
      else if r.ready && r.failureReason.Some? then Some(BadReason)
      else None
  }

  predicate ValidMetadata(p: Patterns, m: Metadata) {
    && Scalar(p, m.environment) && Scalar(p, m.workflow) && Scalar(p, m.runId)
    && Scalar(p, m.actor) && Scalar(p, m.runnerName)
    && (m.rollbackOf.Some? ==> Scalar(p, m.rollbackOf.value))
  }

  /** The manifest of a result; an existing file is never replaced. */
  function WriteManifest(p: Patterns, valid: FieldRules, alreadyExists: bool, m: Metadata, r: DeliveryResult)
    : Result<Manifest, ManifestError>
  {
    if alreadyExists then Failure(PathExists)
    else if ValidateResult(p, valid, r).Some? then Failure(ValidateResult(p, valid, r).value)
    else if !ValidMetadata(p, m) then Failure(BadMetadata)
    else Success(Manifest(
      if r.ready then "success" else "failure", r.ready,
      Identity(ParseRequest(valid, r.request).value), m, r.evidence, r.failureReason, r.sync))
  }

  datatype RollbackSpec = RollbackSpec(service: string, confirmation: string, operator: string, reason: string)

  datatype RollbackPlan = RollbackPlan(request: DeployRequest, snapshot: string, operator: string, reason: string)

  datatype RollbackError =
    | BadSpec | NotApproved | BadManifestRequest | WrongService | WrongConfirmation | NoSnapshot | SnapshotMissing

  predicate PlanText(p: Patterns, text: string) {
    text != "" && p.trimmed(text) && SingleLine(text) && |text| <= MAX_PLAN_TEXT && !p.manifestSecret(text)
  }

  function ConfirmationFor(service: string, sha: string): string {
    "ROLLBACK " + service + " " + sha
  }

  function BuildRollbackPlan(
    p: Patterns, valid: FieldRules, m: Manifest, spec: RollbackSpec, snapshots: map<string, Files>)
    : Result<RollbackPlan, RollbackError>
  {
    if !valid("service", spec.service) || !PlanText(p, spec.operator) || !PlanText(p, spec.reason) then
      Failure(BadSpec)
    else if m.status != "success" || !m.ready || m.failureReason.Some? then
      Failure(NotApproved)
    else match ParseRequest(valid, m.identity)
      case Failure(_) => Failure(BadManifestRequest)
      case Success(request) =>
        if request.service != spec.service then Failure(WrongService)
        else if spec.confirmation != ConfirmationFor(request.service, request.candidateSha) then
          Failure(WrongConfirmation)
        else if m.sync.None? || !m.sync.value.changed || !m.sync.value.snapshotCreated || !m.sync.value.synced then
          Failure(NoSnapshot)
        else if m.sync.value.snapshotName.None? || !IsSnapshotName(m.sync.value.snapshotName.value) then
          Failure(NoSnapshot)
        else if m.sync.value.snapshotName.value !in snapshots then
          Failure(SnapshotMissing)
        else
          Success(RollbackPlan(request, m.sync.value.snapshotName.value, spec.operator, spec.reason))
  }

  // ---- From execution to manifest ----

  lemma LoneGateIsCanonical(p: Patterns, g: Gate)
    requires CheckGate(p.gateSecret, g).None?
    ensures CanonicalEvidence(p, g)
  {
    var gates, required := [g], [g.name];
    assert CheckGates(p.gateSecret, []).None? && gates[..0] == [];
    assert Mentions(gates, g.name);
    assert Named(gates, g.name) == g;
    assert Pick(gates, required) == [g] + Pick(gates, []);
  }

  /**
   Every result that an execution returns for a parsed request is accepted by
   the manifest validator exactly when its failure reason, if any, is a manifest
   scalar.
   */
  lemma ExecutedResultIsRecordableIff(
    p: Patterns, valid: FieldRules, payload: Payload, w: ExecutorWorld, spec: ExecutorSpec, disk: Disk)
    requires ParseRequest(valid, payload) == Success(spec.request)
    requires Execute(p.gateSecret, w, spec, disk).1.Success?
    ensures var r := Execute(p.gateSecret, w, spec, disk).1.value;
            ValidateResult(p, valid, r).None? <==> (r.failureReason.Some? ==> Scalar(p, r.failureReason.value))
  {
    var r := Execute(p.gateSecret, w, spec, disk).1.value;
    CanonicalFormIsPayload(valid, payload);
    ExecutedGates(p, w, spec, disk);
    forall g | g in r.evidence
      ensures CanonicalEvidence(p, g)
    {
      LoneGateIsCanonical(p, g);
    }
    assert valid("candidate_sha", payload["candidate_sha"]);
  }

  /** The gates in a result are valid, and a ready result has no reason. */
  lemma ExecutedGates(p: Patterns, w: ExecutorWorld, spec: ExecutorSpec, disk: Disk)
    requires Execute(p.gateSecret, w, spec, disk).1.Success?
    ensures var r := Execute(p.gateSecret, w, spec, disk).1.value;
            && (forall g | g in r.evidence :: CheckGate(p.gateSecret, g).None?)
            && (r.ready <==> r.failureReason.None?)
  {
    PassesIff(p.gateSecret, w.preflight.value, spec.preflight);
    EvidenceIsKept(p.gateSecret, w.preflight.value, spec.preflight);
    if Execute(p.gateSecret, w, spec, disk).1.value.postflight.Some? {
      PassesIff(p.gateSecret, w.postflight.value, spec.postflight);
      EvidenceIsKept(p.gateSecret, w.postflight.value, spec.postflight);
    }
  }

  predicate ShortName(name: string) {
    0 < |name| <= 10 && SingleLine(name)
  }

  lemma KnownNamesAreShort(name: string)
    requires name in KNOWN_GATES
    ensures ShortName(name)
  {
  }

  /** The gate whose own reason is reported, when neither a missing nor a skipped gate comes first. */
  function Reported(gates: seq<Gate>, required: seq<string>): Option<Gate> {
    NoneMissing(gates, required);
    if FirstMissing(gates, required).Some? || FirstSkipped(gates, required).Some? then None else FirstFailed(gates)
  }

  /**
   A failure reason always fits one line, and it exceeds the scalar limit
   exactly when it carries a gate's own reason that is too long for the gate
   name put in front of it.
   */
  lemma FailureReasonOverflowsIff(p: Patterns, gates: seq<Gate>, required: seq<string>)
    requires Evaluate(p.gateSecret, gates, required).Success?
    requires !Evaluate(p.gateSecret, gates, required).value.passed
    ensures var reason := Evaluate(p.gateSecret, gates, required).value.failureReason.value;
            && reason != "" && SingleLine(reason)
            && (|reason| > MAX_SCALAR <==>
                  var g := Reported(gates, required);
                  g.Some? && |g.value.name| + 2 + |g.value.reason| > MAX_SCALAR)
  {
    CheckedGates(p.gateSecret, gates);
    forall name | name in KNOWN_GATES
      ensures ShortName(name)
    {
      KnownNamesAreShort(name);
    }
    forall g | g in gates
      ensures ShortName(g.name) && SingleLine(g.reason)
    {
      assert CheckGate(p.gateSecret, g).None?;
    }
    JudgedReason(gates, required);
  }

  lemma JudgedReason(gates: seq<Gate>, required: seq<string>)
    requires forall g | g in gates :: ShortName(g.name) && SingleLine(g.reason)
    requires forall r | r in required :: ShortName(r)
    requires !Judge(gates, required).passed
    ensures var reason := Judge(gates, required).failureReason.value;
            && |reason| > 0 && SingleLine(reason)
            && (|reason| > MAX_SCALAR <==>
                  var g := Reported(gates, required);
                  g.Some? && |g.value.name| + 2 + |g.value.reason| > MAX_SCALAR)
  {
    NoneMissing(gates, required);
    if FirstMissing(gates, required).Some? {
      ShortText(MISSING_GATE, FirstMissing(gates, required).value);
    } else {
      SkippedMeans(gates, required);
      if FirstSkipped(gates, required).Some? {
        ShortText(SKIPPED_GATE, FirstSkipped(gates, required).value);
      } else {
        FailedMeans(gates);
        FailureTextLength(FirstFailed(gates).value);
      }
    }
  }

  lemma ShortText(prefix: string, name: string)
    requires prefix in {MISSING_GATE, SKIPPED_GATE} && ShortName(name)
    ensures |prefix + name| > 0 && SingleLine(prefix + name) && |prefix + name| <= MAX_SCALAR
  {
  }

  lemma FailureTextLength(g: Gate)
    requires ShortName(g.name) && SingleLine(g.reason)
    ensures |FailureText(g)| > 0 && SingleLine(FailureText(g))
    ensures |FailureText(g)| > MAX_SCALAR <==> |g.name| + 2 + |g.reason| > MAX_SCALAR
  {
  }

  function Repeat(c: char, n: nat): string {
    seq(n, _ => c)
  }

  /** A gate with the longest reason that its own check allows cannot be recorded once it fails. */
  lemma LongestReasonCannotBeRecorded()
    ensures var p := Patterns(_ => false, _ => false, _ => true);
            var gate := Gate("health", "failed", "https://service", Repeat('x', 512));
            match Evaluate(p.gateSecret, [gate], ["health"])
            case Success(e) => !e.passed && |e.failureReason.value| == 520 && !Scalar(p, e.failureReason.value)
            case Failure(_) => false
  {
    var gate := Gate("health", "failed", "https://service", Repeat('x', 512));
    var gates := [gate];
    assert CheckGates(_ => false, []).None? && gates[..0] == [];
    assert Mentions(gates, "health") && Named(gates, "health") == gate;
    assert FirstMissing(gates, ["health"]) == FirstMissing(gates, []);
    assert FirstSkipped(gates, ["health"]) == FirstSkipped(gates, []);
  }

  /**
   The manifest's pattern finds in the text of a failure only what the gates'
   pattern already finds in the gate's own reason, and nothing in the texts for
   missing and skipped gates.
   */
  ghost predicate PatternsAgree(p: Patterns) {
    && (forall g: Gate | g.name in KNOWN_GATES && p.manifestSecret(FailureText(g)) :: p.gateSecret(g.reason))
    && (forall name | name in KNOWN_GATES :: !p.manifestSecret(MISSING_GATE + name))
    && (forall name | name in KNOWN_GATES :: !p.manifestSecret(SKIPPED_GATE + name))
  }

  /** The reason that these gates report, if a gate's own, fits a scalar together with the gate's name. */
  predicate ReasonFits(gates: seq<Gate>, required: seq<string>) {
    var g := Reported(gates, required);
    g.Some? ==> |g.value.name| + 2 + |g.value.reason| <= MAX_SCALAR
  }

  lemma ReasonIsNoSecret(p: Patterns, gates: seq<Gate>, required: seq<string>)
    requires PatternsAgree(p) && Evaluate(p.gateSecret, gates, required).Success?
    requires !Evaluate(p.gateSecret, gates, required).value.passed
    ensures !p.manifestSecret(Evaluate(p.gateSecret, gates, required).value.failureReason.value)
  {
    CheckedGates(p.gateSecret, gates);
    NoneMissing(gates, required);
    if FirstMissing(gates, required).None? {
      SkippedMeans(gates, required);
      if FirstSkipped(gates, required).None? {
        FailedMeans(gates);
        assert CheckGate(p.gateSecret, FirstFailed(gates).value).None?;
      }
    }
  }

  lemma ReasonIsScalarIff(p: Patterns, gates: seq<Gate>, required: seq<string>)
    requires PatternsAgree(p) && Evaluate(p.gateSecret, gates, required).Success?
    requires !Evaluate(p.gateSecret, gates, required).value.passed
    ensures Scalar(p, Evaluate(p.gateSecret, gates, required).value.failureReason.value) <==>
            ReasonFits(gates, required)
  {
    FailureReasonOverflowsIff(p, gates, required);
    ReasonIsNoSecret(p, gates, required);
  }

  /** The gates that decide a delivery report a reason that fits: preflight, or postflight once preflight passed. */
  ghost predicate ReportedReasonFits(w: ExecutorWorld, spec: ExecutorSpec)
    requires w.preflight.Some?
  {
    if AllPassed(w.preflight.value, spec.preflight) then
      w.postflight.Some? ==> ReasonFits(w.postflight.value, spec.postflight)
    else
      ReasonFits(w.preflight.value, spec.preflight)
  }

  lemma PassedGatesReportNothing(p: Patterns, gates: seq<Gate>, required: seq<string>)
    requires Evaluate(p.gateSecret, gates, required).Success? && Evaluate(p.gateSecret, gates, required).value.passed
    ensures ReasonFits(gates, required)
  {
    NoneMissing(gates, required);
  }

  /** Which evaluation a result reports. */
  lemma ReportedEvaluation(secretLike: string -> bool, w: ExecutorWorld, spec: ExecutorSpec, disk: Disk)
    requires Execute(secretLike, w, spec, disk).1.Success?
    ensures w.preflight.Some? && Evaluate(secretLike, w.preflight.value, spec.preflight).Success?
    ensures var r := Execute(secretLike, w, spec, disk).1.value;
            var pre := Evaluate(secretLike, w.preflight.value, spec.preflight).value;
            && (!pre.passed ==> r.failureReason == pre.failureReason)
            && (pre.passed ==>
                  && w.postflight.Some? && Evaluate(secretLike, w.postflight.value, spec.postflight).Success?
                  && var post := Evaluate(secretLike, w.postflight.value, spec.postflight).value;
                     r.failureReason == if post.passed then None else post.failureReason)
  {
    PassesIff(secretLike, w.preflight.value, spec.preflight);
  }

  /**
   The manifest validator accepts every result that an execution returns for a
   parsed request if and only if the gates that decide the delivery report a
   reason that fits a scalar together with the gate's name.
   */
  lemma ResultIsRecordableIffReasonFits(
    p: Patterns, valid: FieldRules, payload: Payload, w: ExecutorWorld, spec: ExecutorSpec, disk: Disk)
    requires ParseRequest(valid, payload) == Success(spec.request) && PatternsAgree(p)
    requires Execute(p.gateSecret, w, spec, disk).1.Success?
    ensures w.preflight.Some?
    ensures ValidateResult(p, valid, Execute(p.gateSecret, w, spec, disk).1.value).None? <==>
            ReportedReasonFits(w, spec)
  {
    hide Execute, ValidateResult, Scalar, ReasonFits, PatternsAgree, AllPassed;
    ExecutedResultIsRecordableIff(p, valid, payload, w, spec, disk);
    ReportedEvaluation(p.gateSecret, w, spec, disk);
    PassesIff(p.gateSecret, w.preflight.value, spec.preflight);
    if !Evaluate(p.gateSecret, w.preflight.value, spec.preflight).value.passed {
      ReasonIsScalarIff(p, w.preflight.value, spec.preflight);
    } else {
      PassesIff(p.gateSecret, w.postflight.value, spec.postflight);
      if Evaluate(p.gateSecret, w.postflight.value, spec.postflight).value.passed {
        PassedGatesReportNothing(p, w.postflight.value, spec.postflight);
      } else {
        ReasonIsScalarIff(p, w.postflight.value, spec.postflight);
      }
    }
  }

  // ---- From manifest to rollback ----

  /** What the operator must supply for this request. */
  predicate Approves(p: Patterns, valid: FieldRules, spec: RollbackSpec, r: DeployRequest) {
    && valid("service", spec.service) && PlanText(p, spec.operator) && PlanText(p, spec.reason)
    && spec.service == r.service && spec.confirmation == ConfirmationFor(r.service, r.candidateSha)
  }

  predicate ChangedWithSnapshot(s: Option<SyncResult>) {
    s.Some? && s.value.changed && s.value.snapshotCreated && s.value.synced
  }

  /**
   The manifest of an execution yields a rollback plan exactly when the operator
   approves that very service and commit, the delivery was ready, and it
   changed, saved and synchronized the destination. The plan then carries the
   identity of the original request, and its snapshot is the filtered content
   that the destination had before the delivery.
   */
  lemma PlanIffDeliveredWithSnapshot(
    p: Patterns, valid: FieldRules, payload: Payload, w: ExecutorWorld, spec: ExecutorSpec, disk: Disk,
    m: Metadata, rollback: RollbackSpec)
    requires ParseRequest(valid, payload) == Success(spec.request)
    requires Execute(p.gateSecret, w, spec, disk).1.Success?
    requires WriteManifest(p, valid, false, m, Execute(p.gateSecret, w, spec, disk).1.value).Success?
    ensures var (disk', executed) := Execute(p.gateSecret, w, spec, disk);
            var r := executed.value;
            var manifest := WriteManifest(p, valid, false, m, r).value;
            var plan := BuildRollbackPlan(p, valid, manifest, rollback, disk'.snapshots);
            && (plan.Success? <==>
                  Approves(p, valid, rollback, spec.request) && r.ready && ChangedWithSnapshot(r.sync))
            && (plan.Success? ==>
                  && plan.value.request == spec.request.(reason := None)
                  && plan.value.snapshot in disk'.snapshots
                  && disk'.snapshots[plan.value.snapshot] == KeptFiles(w.sync.kept, disk.destination))
  {
    CanonicalFormIsPayload(valid, payload);
    IdentityParsesBack(valid, payload);
    ExecutedGates(p, w, spec, disk);
    DestinationIsProtected(p.gateSecret, w, spec, disk);
  }
}
