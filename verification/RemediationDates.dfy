/** Which policies can be evaluated once their dates have been printed and are read again. */
module RemediationDates {
  import opened Wrappers
  import opened RemediationLifecycle
  import opened RemediationWindow
  import opened RemediationOrder
  import Timestamps

  /** Loaded entries were first seen by now and before their deadline, and have a fingerprint each. */
  ghost predicate Sane(entries: seq<PolicyEntry>, now: Instant) {
    && (forall e | e in entries :: e.firstSeen <= now && e.firstSeen < e.deadline)
    && (forall i, j | 0 <= i < j < |entries| :: entries[i].fingerprint != entries[j].fingerprint)
  }

  lemma AddedEntryIsSane(entries: seq<PolicyEntry>, raw: RawEntry, now: Instant)
    requires Sane(entries, now) && AddEntry(entries, raw, now).Success?
    ensures Sane(AddEntry(entries, raw, now).value, now)
  {
    ExtendedIffRevised(Dates(raw.firstSeen, raw.deadline, now), raw.lifecycle);
  }

  lemma {:induction false} LoadedIsSane(raws: seq<RawEntry>, now: Instant)
    requires AddEntries(raws, now).Success?
    ensures Sane(AddEntries(raws, now).value, now)
  {
    hide AddEntry;
    if raws != [] {
      LoadedIsSane(raws[..|raws| - 1], now);
      AddedEntryIsSane(AddEntries(raws[..|raws| - 1], now).value, raws[|raws| - 1], now);
    }
  }

  lemma {:induction false} FoundByFingerprint(entries: seq<PolicyEntry>, e: PolicyEntry, now: Instant)
    requires Sane(entries, now) && e in entries
    ensures Lookup(entries, e.fingerprint) == Some(e)
  {
    var i :| 0 <= i < |entries| && entries[i] == e;
    var found := Lookup(entries, e.fingerprint);
    assert found.Some?;
    var j :| 0 <= j < |entries| && entries[j] == found.value;
  }

  /** A finding that is refused for no reason of its own. */
  function PlainFinding(f: Fingerprint): Observation {
    Observation(f, "", ALLOWED_CLASSIFICATION, High, Internal, false, false, "")
  }

  /** The sightings of all active entries have printed dates that read back. */
  ghost predicate ActiveDatesRead(padded: bool, entries: seq<PolicyEntry>) {
    forall e | e in entries && e.status == "active" :: Timestamps.ReadsBack(padded, e.firstSeen)
  }

  lemma ReadableForAll(padded: bool, entries: seq<PolicyEntry>, now: Instant, o: Observation)
    requires Sane(entries, now) && ActiveDatesRead(padded, entries)
    ensures DatesRead(padded, o, entries)
  {
  }

  lemma UnreadableForOne(padded: bool, entries: seq<PolicyEntry>, now: Instant, e: PolicyEntry)
    requires Sane(entries, now) && e in entries && e.status == "active" && !Timestamps.ReadsBack(padded, e.firstSeen)
    ensures !DatesRead(padded, PlainFinding(e.fingerprint), entries)
  {
    FoundByFingerprint(entries, e, now);
  }

  lemma OneIsKept(o: Observation)
    ensures Kept([Valid(o)]) == [o]
  {
    assert Kept([Valid(o)][..0]) == [];
  }

  /** Every list of observations is evaluated. */
  ghost predicate EvaluatesAll(padded: bool, policy: seq<RawEntry>, now: Instant) {
    forall raws: seq<RawObservation> :: Evaluate(padded, true, policy, raws, now).Success?
  }

  /**
   A policy that loads can be evaluated for every list of observations if and only
   if the reference time and the first sighting of every active entry read back
   once printed. With padded years they always do.
   */
  lemma EvaluatesAllIff(padded: bool, policy: seq<RawEntry>, now: Instant)
    requires LoadPolicy(policy, now).Success?
    ensures EvaluatesAll(padded, policy, now) <==>
            Timestamps.ReadsBack(padded, now) && ActiveDatesRead(padded, LoadPolicy(policy, now).value)
  {
    hide Verdict, AddEntries, DatesRead, Kept, Timestamps.ReadsBack;
    var entries := LoadPolicy(policy, now).value;
    LoadedIsSane(policy, now);
    if Timestamps.ReadsBack(padded, now) && ActiveDatesRead(padded, entries) {
      forall raws: seq<RawObservation>
        ensures Evaluate(padded, true, policy, raws, now).Success?
      {
        forall o | o in Kept(raws)
          ensures DatesRead(padded, o, entries)
        {
          ReadableForAll(padded, entries, now, o);
        }
      }
    } else {
      SomeIsNotEvaluated(padded, policy, now);
    }
  }

  lemma SomeIsNotEvaluated(padded: bool, policy: seq<RawEntry>, now: Instant)
    requires LoadPolicy(policy, now).Success? && Sane(LoadPolicy(policy, now).value, now)
    requires !Timestamps.ReadsBack(padded, now) || !ActiveDatesRead(padded, LoadPolicy(policy, now).value)
    ensures !EvaluatesAll(padded, policy, now)
  {
    hide Verdict, AddEntries, DatesRead, Kept, Timestamps.ReadsBack;
    var entries := LoadPolicy(policy, now).value;
    if !Timestamps.ReadsBack(padded, now) {
      assert !Evaluate(padded, true, policy, [], now).Success?;
    } else {
      var e :| e in entries && e.status == "active" && !Timestamps.ReadsBack(padded, e.firstSeen);
      var o := PlainFinding(e.fingerprint);
      UnreadableForOne(padded, entries, now, e);
      OneIsKept(o);
      assert o in Kept([Valid(o)]);
      assert !Evaluate(padded, true, policy, [Valid(o)], now).Success?;
    }
  }

  /** Seen in the last second before the year 1000 and open for a day. */
  function EarlyPolicy(f: Fingerprint): seq<RawEntry> {
    [RawEntry("entry", f, Timestamps.FIRST_READABLE - 1, Timestamps.FIRST_READABLE - 1 + DAY,
              Entry("active", Timestamps.FIRST_READABLE - 1, None))]
  }

  /** A policy and a finding that are evaluated and allowed exactly when years are padded. */
  lemma EarlyEntryNeedsPadding(padded: bool)
    ensures LoadPolicy(EarlyPolicy(HIGH_FINDING.fingerprint), Timestamps.FIRST_READABLE).Success?
    ensures var r := Evaluate(padded, true, EarlyPolicy(HIGH_FINDING.fingerprint), [Valid(HIGH_FINDING)],
                              Timestamps.FIRST_READABLE);
            if padded then r.Success? && r.value.allowed else r == Failure(UnreadableDate)
  {
    hide Verdict;
    var policy, now := EarlyPolicy(HIGH_FINDING.fingerprint), Timestamps.FIRST_READABLE;
    assert policy[..0] == [];
    var none: seq<PolicyEntry> := [];
    assert AddEntries(policy[..0], now) == Success(none);
    assert LoadPolicy(policy, now).Success?;
    var entries := LoadPolicy(policy, now).value;
    assert |entries| == 1 && Lookup(entries, HIGH_FINDING.fingerprint) == Some(entries[0]);
    OneIsKept(HIGH_FINDING);
    assert HIGH_FINDING in Kept([Valid(HIGH_FINDING)]);
    if padded {
      CountsAreConserved([Valid(HIGH_FINDING)], entries, now);
      OneIsCovered(entries, now);
    }
  }

  lemma OneIsCovered(entries: seq<PolicyEntry>, now: Instant)
    requires EvaluateOne(HIGH_FINDING, entries, now).state in {Active, DueSoon}
    ensures Verdict([Valid(HIGH_FINDING)], entries, now).allowed
  {
    OneIsKept(HIGH_FINDING);
    CountsAll([HIGH_FINDING], InStates(entries, now, {Active, DueSoon}));
    CountsAreConserved([Valid(HIGH_FINDING)], entries, now);
    assert Count([Valid(HIGH_FINDING)][..0], IsInvalid()) == 0;
  }
}
