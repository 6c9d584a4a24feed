/**
 The evaluation of remediation windows: blocking findings are allowed only while
 each one is covered by an active, reviewed policy entry.
 */
module RemediationWindow {
  import opened Wrappers
  import opened RemediationLifecycle
  import Timestamps

  const DAY: int := 86400
  const DUE_SOON: int := 72 * 3600
  const ALLOWED_CLASSIFICATION := "actionable_vulnerability"

  datatype Severity = Critical | High
  datatype Exposure = Internal | InternetFacing | PrivilegedBoundary

  datatype Fingerprint = Fingerprint(
    service: string, advisory: string, purl: string, installed: string, fixed: string, lineage: seq<string>)

  /** A policy entry as written; one with a missing or malformed field is Malformed. */
  datatype RawEntry =
    | Malformed
    | RawEntry(id: string, fingerprint: Fingerprint, firstSeen: Instant, deadline: Instant, lifecycle: Entry)

  datatype PolicyEntry = PolicyEntry(
    id: string, fingerprint: Fingerprint, firstSeen: Instant, originalDeadline: Instant, deadline: Instant,
    status: string, revisions: nat)

  datatype PolicyError =
    | NoEntries | BadField | DuplicateId | DuplicateFingerprint | FirstSeenInFuture | ReviewedInFuture
    | DeadlineBeforeFirstSeen | BadLifecycle(error: LifecycleError) | UnreadableReference | UnreadableDate

  datatype Observation = Observation(
    fingerprint: Fingerprint, image: string, classification: string, severity: Severity, exposure: Exposure,
    knownExploited: bool, fixedImageVerified: bool, sourceSha: string)

  /** An observation as received; one that cannot be made canonical is Invalid. */
  datatype RawObservation = Invalid | Valid(observation: Observation)

  datatype State = Active | DueSoon | Overdue | Rejected | Unmatched | Reintroduced

  datatype Finding = Finding(state: State, reason: string, entry: Option<PolicyEntry>)

  datatype Counts = Counts(
    total: nat, covered: nat, rejected: nat, overdue: nat, unmatched: nat, reintroduced: nat, dueSoon: nat,
    matching: nat)

  datatype Decision = Decision(
    allowed: bool, state: string, decision: string, classification: string, failureReason: string,
    counts: Counts, uncovered: int, nearest: Option<Instant>)

  const NOT_APPLICABLE := Decision(
    false, "not_applicable", "not_applicable", "", "", Counts(0, 0, 0, 0, 0, 0, 0, 0), 0, None)

  // ---- Policy ----

  function AddEntry(entries: seq<PolicyEntry>, raw: RawEntry, reference: Instant)
    : Result<seq<PolicyEntry>, PolicyError>
  {
    if raw.Malformed? || raw.id == "" then Failure(BadField)
    else if exists e | e in entries :: e.id == raw.id then Failure(DuplicateId)
    else if exists e | e in entries :: e.fingerprint == raw.fingerprint then Failure(DuplicateFingerprint)
    else if raw.firstSeen > reference then Failure(FirstSeenInFuture)
    else if raw.lifecycle.reviewedAt > reference then Failure(ReviewedInFuture)
    else if raw.deadline <= raw.firstSeen then Failure(DeadlineBeforeFirstSeen)
    else
      match Normalize(Dates(raw.firstSeen, raw.deadline, reference), raw.lifecycle)
      case Failure(error) => Failure(BadLifecycle(error))
      case Success(l) =>
        Success(entries + [PolicyEntry(raw.id, raw.fingerprint, raw.firstSeen, l.originalDeadline, l.effectiveDeadline,
                                       l.status, |l.history|)])
  }

  function AddEntries(raws: seq<RawEntry>, reference: Instant): Result<seq<PolicyEntry>, PolicyError> {
    if raws == [] then
      Success([])
    else
      var entries :- AddEntries(raws[..|raws| - 1], reference);
      AddEntry(entries, raws[|raws| - 1], reference)
  }

  function LoadPolicy(raws: seq<RawEntry>, reference: Instant): Result<seq<PolicyEntry>, PolicyError> {
    if raws == [] then Failure(NoEntries) else AddEntries(raws, reference)
  }

  method LoadPolicyEntries(raws: seq<RawEntry>, reference: Instant) returns (r: Result<seq<PolicyEntry>, PolicyError>)
    ensures r == LoadPolicy(raws, reference)
  {
    if raws == [] {
      return Failure(NoEntries);
    }
    var entries: seq<PolicyEntry> := [];
    for i := 0 to |raws|
      invariant AddEntries(raws[..i], reference) == Success(entries)
    {
      assert raws[..i + 1][..i] == raws[..i];
      var next := AddEntry(entries, raws[i], reference);
      if next.Failure? {
        EntryFailureStays(raws, reference, i + 1);
        return next;
      }
      entries := next.value;
    }
    assert raws[..|raws|] == raws;
    return Success(entries);
  }

  lemma {:induction false} EntryFailureStays(raws: seq<RawEntry>, reference: Instant, k: nat)
    requires k <= |raws| && AddEntries(raws[..k], reference).Failure?
    ensures AddEntries(raws, reference) == AddEntries(raws[..k], reference)
    decreases |raws| - k
  {
    if k < |raws| {
      assert raws[..|raws| - 1][..k] == raws[..k];
      EntryFailureStays(raws[..|raws| - 1], reference, k);
    } else {
      assert raws[..k] == raws;
    }
  }

  // ---- One finding ----

  function MaxWindow(s: Severity): int {
    if s.Critical? then 7 * DAY else 30 * DAY
  }

  /** Reasons to refuse an observation before any policy is consulted. */
  function OutrightReason(o: Observation): Option<string> {
    if o.classification != ALLOWED_CLASSIFICATION then Some("classification_block")
    else if o.knownExploited then Some("known_exploited")
    else if o.fixedImageVerified then Some("fixed_image_available")
    else if o.severity.Critical? && !o.exposure.Internal? then Some("critical_exposure_block")
    else None
  }

  function Lookup(entries: seq<PolicyEntry>, f: Fingerprint): (e: Option<PolicyEntry>)
    ensures e.Some? ==> e.value in entries && e.value.fingerprint == f
    ensures e.None? ==> forall x | x in entries :: x.fingerprint != f
  {
    if entries == [] then None
    else if entries[|entries| - 1].fingerprint == f then Some(entries[|entries| - 1])
    else Lookup(entries[..|entries| - 1], f)
  }

  function EvaluateOne(o: Observation, entries: seq<PolicyEntry>, now: Instant): Finding {
    var refused := OutrightReason(o);
    if refused.Some? then Finding(Rejected, refused.value, None) else
    var found := Lookup(entries, o.fingerprint);
    if found.None? then Finding(Unmatched, "policy_entry_not_found", None) else
    var e := found.value;
    if e.status != "active" then Finding(Reintroduced, "finding_reintroduced", found)
    else if e.deadline - e.firstSeen > MaxWindow(o.severity) then Finding(Rejected, "window_limit_exceeded", found)
    else if now > e.deadline then Finding(Overdue, "window_overdue", found)
    else if now < e.firstSeen then Finding(Rejected, "future_first_seen", found)
    else if e.deadline - now <= DUE_SOON then Finding(DueSoon, "", found)
    else Finding(Active, "", found)
  }

  // ---- All findings ----

  datatype Key = Key(fingerprint: Fingerprint, image: string)

  function KeyOf(o: Observation): Key {
    Key(o.fingerprint, o.image)
  }

  predicate HasKey(kept: seq<Observation>, k: Key) {
    exists o :: o in kept && KeyOf(o) == k
  }

  /** The first valid observation of every key. */
  function Kept(raws: seq<RawObservation>): seq<Observation> {
    if raws == [] then
      []
    else
      var kept, last := Kept(raws[..|raws| - 1]), raws[|raws| - 1];
      if last.Valid? && !HasKey(kept, KeyOf(last.observation)) then kept + [last.observation] else kept
  }

  function Count<T>(s: seq<T>, f: T -> bool): nat {
    if s == [] then 0 else Count(s[..|s| - 1], f) + (if f(s[|s| - 1]) then 1 else 0)
  }

  function IsInvalid(): RawObservation -> bool {
    r => r == Invalid
  }

  function InStates(entries: seq<PolicyEntry>, now: Instant, states: set<State>): Observation -> bool {
    o => EvaluateOne(o, entries, now).state in states
  }

  function Matched(entries: seq<PolicyEntry>, now: Instant): Observation -> bool {
    o => EvaluateOne(o, entries, now).entry.Some?
  }

  function Nearest(kept: seq<Observation>, entries: seq<PolicyEntry>, now: Instant): Option<Instant> {
    if kept == [] then
      None
    else
      var rest, e := Nearest(kept[..|kept| - 1], entries, now), EvaluateOne(kept[|kept| - 1], entries, now).entry;
      if e.None? then rest
      else if rest.None? || e.value.deadline < rest.value then Some(e.value.deadline)
      else rest
  }

  function Tally(kept: seq<Observation>, invalid: nat, entries: seq<PolicyEntry>, now: Instant): Counts {
    Counts(
      |kept| + invalid,
      Count(kept, InStates(entries, now, {Active, DueSoon})),
      Count(kept, InStates(entries, now, {Rejected})) + invalid,
      Count(kept, InStates(entries, now, {Overdue})),
      Count(kept, InStates(entries, now, {Unmatched})),
      Count(kept, InStates(entries, now, {Reintroduced})),
      Count(kept, InStates(entries, now, {DueSoon})),
      Count(kept, Matched(entries, now)))
  }

  function Decide(c: Counts, nearest: Option<Instant>): Decision {
    var uncovered := c.total - c.covered;
    if c.total == 0 then
      NOT_APPLICABLE
    else if uncovered == 0 then
      Decision(true, if c.dueSoon > 0 then "due_soon" else "active", "allowed_window", ALLOWED_CLASSIFICATION, "",
               c, uncovered, nearest)
    else
      var (state, reason) :=
        if c.reintroduced > 0 then ("reintroduced", "finding_reintroduced")
        else if c.overdue > 0 then ("overdue", "window_overdue")
        else if c.rejected > 0 then ("blocked", "window_rejected")
        else ("blocked", "uncovered_blocking_findings");
      Decision(false, state, "blocked", ALLOWED_CLASSIFICATION, reason, c, uncovered, nearest)
  }

  function Verdict(raws: seq<RawObservation>, entries: seq<PolicyEntry>, now: Instant): Decision {
    var kept := Kept(raws);
    Decide(Tally(kept, Count(raws, IsInvalid()), entries, now), Nearest(kept, entries, now))
  }

  /** Printed dates are parsed again: those of an entry when its finding gets that far. */
  predicate DatesRead(padded: bool, o: Observation, entries: seq<PolicyEntry>) {
    OutrightReason(o).None? ==>
      var e := Lookup(entries, o.fingerprint);
      e.Some? && e.value.status == "active" ==>
        Timestamps.ReadsBack(padded, e.value.firstSeen) && Timestamps.ReadsBack(padded, e.value.deadline)
  }

  function Evaluate(padded: bool, enabled: bool, policy: seq<RawEntry>, raws: seq<RawObservation>, now: Instant)
    : Result<Decision, PolicyError>
  {
    if !enabled then
      Success(NOT_APPLICABLE)
    else if policy != [] && !Timestamps.ReadsBack(padded, now) then
      Failure(UnreadableReference)
    else
      var entries :- LoadPolicy(policy, now);
      if exists o :: o in Kept(raws) && !DatesRead(padded, o, entries) then Failure(UnreadableDate)
      else Success(Verdict(raws, entries, now))
  }

  method EvaluateRemediationWindows(
      padded: bool, enabled: bool, policy: seq<RawEntry>, raws: seq<RawObservation>, now: Instant)
    returns (r: Result<Decision, PolicyError>)
    ensures r == Evaluate(padded, enabled, policy, raws, now)
  {
    if !enabled {
      return Success(NOT_APPLICABLE);
    }
    if policy != [] && !Timestamps.ReadsBack(padded, now) {
      return Failure(UnreadableReference);
    }
    var entries :- LoadPolicyEntries(policy, now);
    var normalized, rejected := NormalizeObservations(raws);
    for i := 0 to |normalized|
      invariant forall j | 0 <= j < i :: DatesRead(padded, normalized[j], entries)
    {
      if !DatesRead(padded, normalized[i], entries) {
        return Failure(UnreadableDate);
      }
    }
    var nearest := NearestDeadline(normalized, entries, now);
    return Success(Decide(Tally(normalized, rejected, entries, now), nearest));
  }

  method NormalizeObservations(raws: seq<RawObservation>) returns (normalized: seq<Observation>, rejected: nat)
    ensures normalized == Kept(raws) && rejected == Count(raws, IsInvalid())
  {
    normalized, rejected := [], 0;
    var seen: set<Key> := {};
    for i := 0 to |raws|
      invariant normalized == Kept(raws[..i])
      invariant rejected == Count(raws[..i], IsInvalid())
      invariant forall k :: k in seen <==> HasKey(normalized, k)
    {
      assert raws[..i + 1][..i] == raws[..i];
      match raws[i] {
        case Invalid =>
          rejected := rejected + 1;
        case Valid(o) =>
          if KeyOf(o) !in seen {
            AddedKey(normalized, o);
            seen := seen + {KeyOf(o)};
            normalized := normalized + [o];
          }
      }
    }
    assert raws[..|raws|] == raws;
  }

  lemma AddedKey(kept: seq<Observation>, o: Observation)
    ensures forall k :: HasKey(kept + [o], k) <==> HasKey(kept, k) || k == KeyOf(o)
  {
    assert o in kept + [o];
    forall k | HasKey(kept, k)
      ensures HasKey(kept + [o], k)
    {
      var x :| x in kept && KeyOf(x) == k;
      assert x in kept + [o];
    }
  }

  method NearestDeadline(kept: seq<Observation>, entries: seq<PolicyEntry>, now: Instant)
    returns (nearest: Option<Instant>)
    ensures nearest == Nearest(kept, entries, now)
  {
    nearest := None;
    for i := 0 to |kept|
      invariant nearest == Nearest(kept[..i], entries, now)
    {
      assert kept[..i + 1][..i] == kept[..i];
      var e := EvaluateOne(kept[i], entries, now).entry;
      if e.Some? && (nearest.None? || e.value.deadline < nearest.value) {
        nearest := Some(e.value.deadline);
      }
    }
    assert kept[..|kept|] == kept;
  }

  // ---- Conservation ----

  lemma {:induction false} EveryFindingCountedOnce(kept: seq<Observation>, entries: seq<PolicyEntry>, now: Instant)
    ensures Count(kept, InStates(entries, now, {Active, DueSoon})) + Count(kept, InStates(entries, now, {Rejected}))
          + Count(kept, InStates(entries, now, {Overdue})) + Count(kept, InStates(entries, now, {Unmatched}))
          + Count(kept, InStates(entries, now, {Reintroduced})) == |kept|
    ensures Count(kept, InStates(entries, now, {Active, DueSoon})) <= Count(kept, Matched(entries, now)) <= |kept|
  {
    if kept != [] {
      EveryFindingCountedOnce(kept[..|kept| - 1], entries, now);
    }
  }

  /**
   Every blocking finding is covered, rejected, overdue, unmatched or
   reintroduced, and counted once; the verdict allows exactly when there are
   findings and all of them are covered, each then matching a policy entry.
   */
  lemma CountsAreConserved(raws: seq<RawObservation>, entries: seq<PolicyEntry>, now: Instant)
    ensures var d := Verdict(raws, entries, now);
            && d.counts.total == d.counts.covered + d.counts.rejected + d.counts.overdue + d.counts.unmatched
                                 + d.counts.reintroduced
            && d.counts.total == |Kept(raws)| + Count(raws, IsInvalid())
            && (d.allowed <==> d.counts.total > 0 && d.counts.covered == d.counts.total)
            && (d.allowed <==> d.decision == "allowed_window")
            && (d.allowed <==> d.counts.total > 0 && d.failureReason == "")
            && (d.allowed ==> d.counts.matching == d.counts.total && d.classification == ALLOWED_CLASSIFICATION)
            && d.uncovered == d.counts.total - d.counts.covered
  {
    EveryFindingCountedOnce(Kept(raws), entries, now);
  }

  // ---- Bounds on an allowance ----

  lemma {:induction false} LoadedEntriesAreSane(raws: seq<RawEntry>, reference: Instant)
    requires AddEntries(raws, reference).Success?
    ensures forall e | e in AddEntries(raws, reference).value :: e.firstSeen <= reference && e.id != ""
    ensures forall e | e in AddEntries(raws, reference).value ::
              exists r :: r in raws && r.RawEntry? && r.id == e.id && r.fingerprint == e.fingerprint
                          && r.firstSeen == e.firstSeen
  {
    if raws != [] {
      LoadedEntriesAreSane(raws[..|raws| - 1], reference);
      var last := raws[|raws| - 1];
      assert last in raws && forall r | r in raws[..|raws| - 1] :: r in raws;
    }
  }

  lemma {:induction false} CountsAll<T>(s: seq<T>, f: T -> bool)
    ensures Count(s, f) <= |s|
    ensures Count(s, f) == |s| <==> forall x | x in s :: f(x)
  {
    if s != [] {
      var init := s[..|s| - 1];
      CountsAll(init, f);
      assert s == init + [s[|s| - 1]];
    }
  }

  /** An entry of the policy for this fingerprint, first seen within the window of this severity. */
  ghost predicate WithinWindow(policy: seq<RawEntry>, o: Observation, now: Instant) {
    exists r :: r in policy && r.RawEntry? && r.fingerprint == o.fingerprint
                && r.firstSeen <= now <= r.firstSeen + MaxWindow(o.severity)
  }

  lemma CoveredIsWithinWindow(policy: seq<RawEntry>, o: Observation, now: Instant)
    requires LoadPolicy(policy, now).Success?
    ensures var f := EvaluateOne(o, LoadPolicy(policy, now).value, now);
            && f.reason != "future_first_seen"
            && (f.state in {Active, DueSoon} ==> WithinWindow(policy, o, now))
  {
    LoadedEntriesAreSane(policy, now);
    var e := Lookup(LoadPolicy(policy, now).value, o.fingerprint);
    if e.Some? {
      var r :| r in policy && r.RawEntry? && r.fingerprint == e.value.fingerprint && r.firstSeen == e.value.firstSeen;
    }
  }

  /**
   No history of extensions stretches an allowance: whenever the verdict allows,
   every finding is valid and has a policy entry, and the evaluation is within 7
   days (critical) or 30 days (high) of its first sighting there. The branch for
   a first sighting in the future is never taken.
   */
  lemma AllowanceIsBounded(policy: seq<RawEntry>, raws: seq<RawObservation>, now: Instant)
    requires LoadPolicy(policy, now).Success?
    ensures var entries := LoadPolicy(policy, now).value;
            && (Verdict(raws, entries, now).allowed ==>
                  Count(raws, IsInvalid()) == 0 && forall o | o in Kept(raws) :: WithinWindow(policy, o, now))
            && (forall o :: EvaluateOne(o, entries, now).reason != "future_first_seen")
  {
    var entries := LoadPolicy(policy, now).value;
    CountsAreConserved(raws, entries, now);
    CountsAll(Kept(raws), InStates(entries, now, {Active, DueSoon}));
    forall o
      ensures EvaluateOne(o, entries, now).reason != "future_first_seen"
      ensures InStates(entries, now, {Active, DueSoon})(o) ==> WithinWindow(policy, o, now)
    {
      CoveredIsWithinWindow(policy, o, now);
    }
  }

  // ---- Time ----

  /** A policy accepted once is accepted, entry for entry, at every later time. */
  lemma {:induction false} PolicyOutlives(raws: seq<RawEntry>, now: Instant, later: Instant)
    requires now <= later && AddEntries(raws, now).Success?
    ensures AddEntries(raws, later) == AddEntries(raws, now)
  {
    if raws != [] {
      PolicyOutlives(raws[..|raws| - 1], now, later);
      var raw := raws[|raws| - 1];
      if raw.lifecycle.history.Some? {
        var d := Dates(raw.firstSeen, raw.deadline, now);
        TrackingOutlives(d, later, raw.lifecycle.reviewedAt, raw.lifecycle.history.value);
      }
    }
  }

  /** How far along its window a finding is; other states do not move. */
  function Progress(s: State): nat {
    match s
    case Active => 0
    case DueSoon => 1
    case Overdue => 2
    case _ => 3
  }

  /** As time passes a finding stays, or moves from active through due soon to overdue. */
  lemma FindingsOnlyAge(o: Observation, entries: seq<PolicyEntry>, now: Instant, later: Instant)
    requires now <= later && forall e | e in entries :: e.firstSeen <= now
    ensures var a, b := EvaluateOne(o, entries, now), EvaluateOne(o, entries, later);
            && a.entry == b.entry
            && (a.state == b.state || (Progress(a.state) < Progress(b.state) <= 2))
  {
  }

  lemma {:induction false} CountImplied<T>(s: seq<T>, f: T -> bool, g: T -> bool)
    requires forall x | x in s :: f(x) ==> g(x)
    ensures Count(s, f) <= Count(s, g)
  {
    if s != [] {
      assert s[|s| - 1] in s;
      CountImplied(s[..|s| - 1], f, g);
    }
  }

  /** Time never unblocks: what could be evaluated now can be later, and what is blocked now is blocked then. */
  lemma BlockedStaysBlocked(
      padded: bool, policy: seq<RawEntry>, raws: seq<RawObservation>, now: Instant, later: Instant)
    requires now <= later && Evaluate(padded, true, policy, raws, now).Success?
    ensures Evaluate(padded, true, policy, raws, later).Success?
    ensures var a, b := Evaluate(padded, true, policy, raws, now).value,
                        Evaluate(padded, true, policy, raws, later).value;
            && a.counts.total == b.counts.total && a.counts.covered >= b.counts.covered
            && (a.decision == "blocked" ==> b.decision == "blocked")
            && a.nearest == b.nearest
  {
    hide Verdict;
    PolicyOutlives(policy, now, later);
    LoadedEntriesAreSane(policy, now);
    VerdictAges(LoadPolicy(policy, now).value, raws, now, later);
  }

  lemma VerdictAges(entries: seq<PolicyEntry>, raws: seq<RawObservation>, now: Instant, later: Instant)
    requires now <= later && forall e | e in entries :: e.firstSeen <= now
    ensures var a, b := Verdict(raws, entries, now), Verdict(raws, entries, later);
            && a.counts.total == b.counts.total && a.counts.covered >= b.counts.covered
            && (a.decision == "blocked" ==> b.decision == "blocked")
            && a.nearest == b.nearest
  {
    var kept := Kept(raws);
    forall o
      ensures InStates(entries, later, {Active, DueSoon})(o) ==> InStates(entries, now, {Active, DueSoon})(o)
      ensures EvaluateOne(o, entries, later).entry == EvaluateOne(o, entries, now).entry
    {
      FindingsOnlyAge(o, entries, now, later);
    }
    CountImplied(kept, InStates(entries, later, {Active, DueSoon}), InStates(entries, now, {Active, DueSoon}));
    NearestSame(kept, entries, now, later);
    CountsAreConserved(raws, entries, now);
    CountsAreConserved(raws, entries, later);
  }

  lemma {:induction false} NearestSame(kept: seq<Observation>, entries: seq<PolicyEntry>, now: Instant, later: Instant)
    requires forall o :: EvaluateOne(o, entries, later).entry == EvaluateOne(o, entries, now).entry
    ensures Nearest(kept, entries, later) == Nearest(kept, entries, now)
  {
    if kept != [] {
      NearestSame(kept[..|kept| - 1], entries, now, later);
    }
  }
}
