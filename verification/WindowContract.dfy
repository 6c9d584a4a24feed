/**
 The publisher's gate: it reads the printed outcome of the remediation-window
 evaluation and decides whether an image may be published.
 */
module WindowContract {
  import opened Wrappers
  import opened RemediationLifecycle
  import opened RemediationWindow
  import opened Texts

  // ---- Decimal outputs ----

  const TEN_DIGITS: nat := 10000000000

  /** "0", or a decimal of at most ten digits that does not begin with zero. */
  predicate IsCount(s: string) {
    s == "0" || (1 <= |s| <= 10 && s[0] != '0' && forall c | c in s :: IsDigit(c))
  }

  function ReadCount(s: string): Option<nat> {
    if IsCount(s) then Some(ValueOf(s)) else None
  }

  /** A printed count reads back as itself, unless it has more than ten digits; then it is not a count. */
  lemma CountReadsBackIff(n: nat)
    ensures ReadCount(Print(n)) == (if n < TEN_DIGITS then Some(n) else None)
  {
    PrintedDigits(n);
    PrintedLength(n, 10);
    assert Pow10(10) == TEN_DIGITS by {
      assert Pow10(5) == 100000;
    }
    if n == 0 {
      assert Print(0) == "0";
    }
  }

  // ---- The gate ----

  /** A flag arrives as text or as a boolean. */
  datatype Flag = Truth(on: bool) | Text(text: string)

  function ReadFlag(f: Flag): Option<bool> {
    if f == Truth(true) || f == Text("true") then Some(true)
    else if f == Truth(false) || f == Text("false") then Some(false)
    else None
  }

  /** What binds the evidence to one image. */
  datatype Binding = Binding(
    imageDigest: string, imageRef: string, sourceSha: string, policyDigest: string, evaluatorVersion: string)

  datatype Fields = Fields(
    outcome: string, result: string, classification: string, failureReason: string, push: Flag,
    windowEnabled: Flag, windowAllowed: string, windowDecision: string, windowClassification: string,
    windowFailureReason: string, matching: string, blocking: string, covered: string, uncovered: string,
    rejected: string, overdue: string, unmatched: string, reintroduced: string, binding: Binding)

  predicate IsOutcome(s: string) {
    s in {"success", "failure", "cancelled", "skipped"}
  }

  predicate IsPassing(s: string) {
    s in {"clean", "unfixed_warning"}
  }

  predicate IsClassification(s: string) {
    IsPassing(s) || s == ALLOWED_CLASSIFICATION
    || s in {"misconfiguration_detected", "secret_detected", "scanner_error"}
  }

  predicate IsHex(s: string, length: nat) {
    |s| == length && forall c | c in s :: IsDigit(c) || 'a' <= c <= 'f'
  }

  const DIGEST_PREFIX := "sha256:"

  predicate IsImageDigest(s: string) {
    DIGEST_PREFIX <= s && IsHex(s[|DIGEST_PREFIX|..], 64)
  }

  predicate IsEvaluatorVersion(s: string) {
    1 <= |s| <= 6 && s[0] != '0' && forall c | c in s :: IsDigit(c)
  }

  predicate IsBlank(c: char) {
    IsSpace(c) || c < ' '
  }

  /** What follows the last '@', if there is one. */
  function AfterLastAt(s: string): Option<string> {
    if s == [] then None
    else if s[|s| - 1] == '@' then Some("")
    else
      match AfterLastAt(s[..|s| - 1])
      case None => None
      case Some(rest) => Some(rest + [s[|s| - 1]])
  }

  /** The reference names exactly this digest and the source is a full commit. */
  predicate Bound(b: Binding) {
    IsImageDigest(b.imageDigest) && AfterLastAt(b.imageRef) == Some(b.imageDigest) && IsHex(b.sourceSha, 40)
  }

  predicate NoBlanks(s: string) {
    forall c | c in s :: !IsBlank(c)
  }

  predicate FullyBound(b: Binding) {
    Bound(b) && NoBlanks(b.imageRef) && IsHex(b.policyDigest, 64) && IsEvaluatorVersion(b.evaluatorVersion)
  }

  /** The printed counts say that there are findings and that every one is covered. */
  predicate CountsCovered(f: Fields) {
    var blocking := ReadCount(f.blocking);
    && blocking.Some? && blocking != Some(0)
    && ReadCount(f.matching).Some? && ReadCount(f.matching) != Some(0)
    && ReadCount(f.covered) == blocking && ReadCount(f.uncovered) == Some(0) && ReadCount(f.rejected) == Some(0)
    && ReadCount(f.overdue) == Some(0) && ReadCount(f.unmatched) == Some(0) && ReadCount(f.reintroduced) == Some(0)
  }

  predicate WindowAllows(f: Fields) {
    && ReadFlag(f.windowEnabled) == Some(true) && f.classification == ALLOWED_CLASSIFICATION
    && f.windowAllowed == "true" && f.windowDecision == "allowed_window"
    && f.windowClassification == ALLOWED_CLASSIFICATION && f.failureReason == "" && f.windowFailureReason == ""
    && CountsCovered(f)
  }

  predicate Acceptable(f: Fields) {
    if !IsOutcome(f.outcome) || !IsClassification(f.classification) then false
    else if ReadFlag(f.push) == Some(true) && !Bound(f.binding) then false
    else if f.outcome == "success" then f.result == "passed" && IsPassing(f.classification)
    else if f.outcome != "failure" || f.result != "failed" then false
    else WindowAllows(f) && FullyBound(f.binding)
  }

  // ---- The gate agrees with the evaluation ----

  /** The gate's fields as printed by an evaluation. */
  ghost predicate PrintedFrom(f: Fields, d: Decision) {
    && f.windowAllowed == (if d.allowed then "true" else "false")
    && f.windowDecision == d.decision && f.windowClassification == d.classification
    && f.windowFailureReason == d.failureReason && f.matching == Print(d.counts.matching)
    && f.blocking == Print(d.counts.total) && f.covered == Print(d.counts.covered)
    && f.uncovered == PrintInt(d.uncovered) && f.rejected == Print(d.counts.rejected)
    && f.overdue == Print(d.counts.overdue) && f.unmatched == Print(d.counts.unmatched)
    && f.reintroduced == Print(d.counts.reintroduced)
  }

  /** A failing scan, with the window enabled, whose only failure is its vulnerabilities. */
  predicate FailedOnVulnerabilities(f: Fields) {
    && f.outcome == "failure" && f.result == "failed" && f.classification == ALLOWED_CLASSIFICATION
    && f.failureReason == "" && ReadFlag(f.windowEnabled) == Some(true)
  }

  lemma AllowedCountsAreCovered(f: Fields, d: Decision)
    requires PrintedFrom(f, d) && d.uncovered == d.counts.total - d.counts.covered
    requires d.counts.covered == d.counts.total == d.counts.matching > 0
    requires d.counts.total == d.counts.covered + d.counts.rejected + d.counts.overdue + d.counts.unmatched
                               + d.counts.reintroduced
    ensures CountsCovered(f) <==> d.counts.total < TEN_DIGITS
  {
    CountReadsBackIff(d.counts.total);
    CountReadsBackIff(0);
  }

  /**
   For every set of findings, a failing scan passes the gate exactly when the
   evaluation allowed it and the total has at most ten digits.
   */
  lemma GateAgreesWithVerdictIff(
    f: Fields, raws: seq<RawObservation>, entries: seq<PolicyEntry>, now: Instant)
    requires PrintedFrom(f, Verdict(raws, entries, now)) && FailedOnVulnerabilities(f) && FullyBound(f.binding)
    ensures Acceptable(f) <==>
            Verdict(raws, entries, now).allowed && Verdict(raws, entries, now).counts.total < TEN_DIGITS
  {
    var d := Verdict(raws, entries, now);
    CountsAreConserved(raws, entries, now);
    if d.allowed {
      AllowedCountsAreCovered(f, d);
    } else {
      assert f.windowAllowed == "false";
      assert f.windowAllowed[0] == 'f';
    }
  }

  // ---- The recorded evidence ----

  function Sanitized(s: string, valid: bool): string {
    if valid then s else ""
  }

  predicate SafeRef(s: string) {
    |s| <= 2048 && NoBlanks(s)
  }

  function SanitizedBinding(b: Binding): Binding {
    Binding(
      Sanitized(b.imageDigest, IsImageDigest(b.imageDigest)), Sanitized(b.imageRef, SafeRef(b.imageRef)),
      Sanitized(b.sourceSha, IsHex(b.sourceSha, 40)), Sanitized(b.policyDigest, IsHex(b.policyDigest, 64)),
      Sanitized(b.evaluatorVersion, IsEvaluatorVersion(b.evaluatorVersion)))
  }

  datatype Evidence = Evidence(binding: Binding, gateAccepted: bool, promotionAuthorized: bool)

  /** The evidence is decided on the sanitized fields that it records. */
  function BuildEvidence(outputs: Fields): Evidence {
    var binding := SanitizedBinding(outputs.binding);
    var enabled := ReadFlag(outputs.windowEnabled) == Some(true);
    var accepted := Acceptable(outputs.(windowEnabled := Truth(enabled), binding := binding));
    Evidence(binding, accepted, ReadFlag(outputs.push) == Some(true) && accepted)
  }

  /** The image is looked at when it is pushed or when the scan did not succeed. */
  predicate BindingMatters(f: Fields) {
    ReadFlag(f.push) == Some(true) || f.outcome != "success"
  }

  lemma {:induction false} NameAfterAt(name: string, digest: string)
    requires '@' !in digest
    ensures AfterLastAt(name + "@" + digest) == Some(digest)
  {
    var s := name + "@" + digest;
    if digest == [] {
      assert s[|s| - 1] == '@';
    } else {
      var init, last := digest[..|digest| - 1], digest[|digest| - 1];
      NameAfterAt(name, init);
      assert s[..|s| - 1] == name + "@" + init;
      assert last in digest && digest == init + [last];
    }
  }

  lemma {:induction false} AfterLastAtEnds(s: string)
    ensures AfterLastAt(s).Some? ==>
              exists k: nat :: k < |s| && s == s[..k] + "@" + AfterLastAt(s).value
  {
    if s != [] && s[|s| - 1] != '@' && AfterLastAt(s).Some? {
      var init := s[..|s| - 1];
      AfterLastAtEnds(init);
      var k: nat :| k < |init| && init == init[..k] + "@" + AfterLastAt(init).value;
      assert s == s[..k] + "@" + AfterLastAt(s).value;
    } else if s != [] && s[|s| - 1] == '@' {
      assert s == s[..|s| - 1] + "@" + "";
    }
  }

  /** A reference is bound to a digest exactly when it is some name followed by '@' and that digest. */
  lemma BoundIffNameAtDigest(ref: string, digest: string)
    requires IsImageDigest(digest)
    ensures AfterLastAt(ref) == Some(digest) <==> exists name :: ref == name + "@" + digest
  {
    if AfterLastAt(ref) == Some(digest) {
      AfterLastAtEnds(ref);
      var k: nat :| k < |ref| && ref == ref[..k] + "@" + digest;
    }
    if name :| ref == name + "@" + digest {
      assert digest == DIGEST_PREFIX + digest[|DIGEST_PREFIX|..];
      NameAfterAt(name, digest);
    }
  }

  lemma SanitizedBound(b: Binding)
    ensures Bound(SanitizedBinding(b)) <==> Bound(b) && SafeRef(b.imageRef)
    ensures FullyBound(SanitizedBinding(b)) <==> FullyBound(b) && SafeRef(b.imageRef)
  {
    assert AfterLastAt("") == None;
  }

  /**
   Sanitizing refuses more than the gate itself exactly when the image is looked
   at and its reference is too long or has blanks; promotion always names the
   image that was scanned.
   */
  lemma EvidenceAgreesWithGateIff(f: Fields)
    ensures var e := BuildEvidence(f);
            && (e.gateAccepted <==> Acceptable(f) && (BindingMatters(f) ==> SafeRef(f.binding.imageRef)))
            && (e.promotionAuthorized ==>
                  Bound(e.binding) && e.binding.imageDigest == f.binding.imageDigest
                  && e.binding.imageRef == f.binding.imageRef && e.binding.sourceSha == f.binding.sourceSha)
  {
    SanitizedBound(f.binding);
  }

  // ---- The contract of the services ----

  datatype Context = Context(name: string, scope: string, exposure: string)

  /** A service as configured; its scope and exposure are None when they are not valid. */
  datatype Service = NotAnObject | Service(name: string, context: Option<(string, string)>)

  datatype ContractError = NotPushed | UnsafePolicyFile | NoServices | BadService | BadName | DuplicateName | BadContext

  predicate IsNameChar(c: char, first: bool) {
    IsDigit(c) || 'a' <= c <= 'z' || (!first && (c == '.' || c == '_' || c == '-'))
  }

  predicate IsServiceName(s: string) {
    1 <= |s| <= 63 && IsNameChar(s[0], true) && forall c | c in s :: IsNameChar(c, false)
  }

  predicate GoodService(s: Service) {
    s.Service? && IsServiceName(s.name) && s.context.Some?
  }

  ghost predicate GoodServices(services: seq<Service>) {
    && (forall s | s in services :: GoodService(s))
    && (forall i, j | 0 <= i < j < |services| && services[i].Service? && services[j].Service? ::
          services[i].name != services[j].name)
  }

  /**
   With windows enabled, the contract holds exactly for a pushed image, a safe
   policy file and at least one service, all well formed and with distinct
   names; it keeps the context of every service, in order.
   */
  method ValidateContract(enabled: bool, push: bool, safePolicyFile: bool, services: seq<Service>)
    returns (r: Result<seq<Context>, ContractError>)
    ensures r.Success? <==> !enabled || (push && safePolicyFile && services != [] && GoodServices(services))
    ensures !enabled ==> r == Success([])
    ensures enabled && r.Success? ==>
              && |r.value| == |services|
              && forall i | 0 <= i < |services| :: services[i].Service? && services[i].context.Some?
                   && r.value[i] == Context(services[i].name, services[i].context.value.0, services[i].context.value.1)
  {
    if !enabled {
      return Success([]);
    }
    if !push {
      return Failure(NotPushed);
    }
    if !safePolicyFile {
      return Failure(UnsafePolicyFile);
    }
    if services == [] {
      return Failure(NoServices);
    }
    var contexts: seq<Context> := [];
    var seen: set<string> := {};
    for i := 0 to |services|
      invariant |contexts| == i
      invariant forall k | 0 <= k < i :: GoodService(services[k]) && services[k].name in seen
                  && contexts[k] == Context(services[k].name, services[k].context.value.0, services[k].context.value.1)
      invariant forall n | n in seen :: exists k :: 0 <= k < i && services[k].Service? && services[k].name == n
      invariant forall k, l | 0 <= k < l < i :: services[k].name != services[l].name
    {
      var service := services[i];
      assert service in services;
      if service.NotAnObject? {
        return Failure(BadService);
      }
      if !IsServiceName(service.name) {
        return Failure(BadName);
      }
      if service.name in seen {
        return Failure(DuplicateName);
      }
      seen := seen + {service.name};
      if service.context.None? {
        return Failure(BadContext);
      }
      contexts := contexts + [Context(service.name, service.context.value.0, service.context.value.1)];
    }
    return Success(contexts);
  }
}
