/** Inputs at which the publisher's gate, its recorded evidence and the evaluation part ways. */
module WindowLimits {
  import opened Wrappers
  import opened RemediationLifecycle
  import opened RemediationWindow
  import opened RemediationOrder
  import opened Texts
  import opened WindowContract

  // ---- As many findings as we like ----

  function FindingIn(o: Observation, i: nat): Observation {
    o.(image := Print(i))
  }

  /** The same finding in so many images. */
  function Findings(o: Observation, n: nat): seq<Observation> {
    seq(n, i requires 0 <= i < n => FindingIn(o, i))
  }

  function AsReceived(kept: seq<Observation>): seq<RawObservation> {
    seq(|kept|, i requires 0 <= i < |kept| => Valid(kept[i]))
  }

  lemma FindingIsNew(o: Observation, n: nat)
    ensures !HasKey(Findings(o, n), KeyOf(FindingIn(o, n)))
  {
    forall x | x in Findings(o, n)
      ensures KeyOf(x) != KeyOf(FindingIn(o, n))
    {
      var i :| 0 <= i < n && Findings(o, n)[i] == x;
      if Print(i) == Print(n) {
        PrintIsInjective(i, n);
      }
    }
  }

  lemma {:induction false} AllAreKept(o: Observation, n: nat)
    ensures Kept(AsReceived(Findings(o, n))) == Findings(o, n)
    ensures Count(AsReceived(Findings(o, n)), IsInvalid()) == 0
  {
    if n > 0 {
      var before, raws := Findings(o, n - 1), AsReceived(Findings(o, n));
      AllAreKept(o, n - 1);
      FindingIsNew(o, n - 1);
      assert Findings(o, n) == before + [FindingIn(o, n - 1)];
      assert raws[..n - 1] == AsReceived(before) && raws[n - 1] == Valid(FindingIn(o, n - 1));
    }
  }

  lemma {:induction false} AllAreCovered(o: Observation, n: nat, entries: seq<PolicyEntry>, now: Instant)
    requires EvaluateOne(o, entries, now).state in {Active, DueSoon}
    ensures Count(Findings(o, n), InStates(entries, now, {Active, DueSoon})) == n
  {
    if n > 0 {
      AllAreCovered(o, n - 1, entries, now);
      assert Findings(o, n)[..n - 1] == Findings(o, n - 1);
      assert EvaluateOne(FindingIn(o, n - 1), entries, now).state == EvaluateOne(o, entries, now).state;
    }
  }

  /** Covered findings are allowed in any number. */
  lemma ManyFindingsAreAllowed(n: nat)
    requires n > 0
    ensures LoadPolicy(OneEntryPolicy(HIGH_FINDING.fingerprint, 20), START).Success?
    ensures var d := Verdict(AsReceived(Findings(HIGH_FINDING, n)),
                             LoadPolicy(OneEntryPolicy(HIGH_FINDING.fingerprint, 20), START).value, START);
            d.allowed && d.counts.total == n
  {
    CoveredBy(HIGH_FINDING, 20);
    var entries := LoadPolicy(OneEntryPolicy(HIGH_FINDING.fingerprint, 20), START).value;
    AllAreKept(HIGH_FINDING, n);
    AllAreCovered(HIGH_FINDING, n, entries, START);
    CountsAreConserved(AsReceived(Findings(HIGH_FINDING, n)), entries, START);
  }

  // ---- A bound image ----

  function Hex(length: nat): string {
    seq(length, _ => 'a')
  }

  function Digest(): string {
    DIGEST_PREFIX + Hex(64)
  }

  /** A binding of this image name to a digest. */
  function BindingOf(name: string): Binding {
    Binding(Digest(), name + "@" + Digest(), Hex(40), Hex(64), "1")
  }

  lemma BindingIsBound(name: string)
    ensures Bound(BindingOf(name))
    ensures NoBlanks(name) ==> FullyBound(BindingOf(name))
  {
    hide IsImageDigest, AfterLastAt, IsSpace, Digest;
    DigestIsDigest();
    NameAfterAt(name, Digest());
    NoBlankAt();
  }

  lemma NoBlankAt()
    ensures !IsBlank('@')
  {
  }

  lemma DigestIsDigest()
    ensures IsImageDigest(Digest()) && '@' !in Digest() && NoBlanks(Digest())
  {
    hide IsSpace;
    assert Digest()[|DIGEST_PREFIX|..] == Hex(64);
    NoBlanksInDigest();
  }

  lemma NoBlanksInDigest()
    ensures NoBlanks(DIGEST_PREFIX) && NoBlanks(Hex(64))
  {
  }

  /** The fields of a failing scan, printed from a decision. */
  function FieldsOf(d: Decision, binding: Binding): Fields {
    Fields(
      "failure", "failed", ALLOWED_CLASSIFICATION, "", Truth(true), Truth(true),
      if d.allowed then "true" else "false", d.decision, d.classification, d.failureReason,
      Print(d.counts.matching), Print(d.counts.total), Print(d.counts.covered), PrintInt(d.uncovered),
      Print(d.counts.rejected), Print(d.counts.overdue), Print(d.counts.unmatched), Print(d.counts.reintroduced),
      binding)
  }

  /** Ten billion covered findings are allowed by the evaluation and refused by the gate. */
  lemma TenBillionFindingsAreRefused()
    ensures LoadPolicy(OneEntryPolicy(HIGH_FINDING.fingerprint, 20), START).Success?
    ensures var d := Verdict(AsReceived(Findings(HIGH_FINDING, TEN_DIGITS)),
                             LoadPolicy(OneEntryPolicy(HIGH_FINDING.fingerprint, 20), START).value, START);
            d.allowed && !Acceptable(FieldsOf(d, BindingOf("web")))
  {
    hide Verdict, Acceptable, Findings, AsReceived;
    ManyFindingsAreAllowed(TEN_DIGITS);
    BindingIsBound("web");
    var entries := LoadPolicy(OneEntryPolicy(HIGH_FINDING.fingerprint, 20), START).value;
    var raws := AsReceived(Findings(HIGH_FINDING, TEN_DIGITS));
    GateAgreesWithVerdictIff(FieldsOf(Verdict(raws, entries, START), BindingOf("web")), raws, entries, START);
  }

  /** A clean, pushed image under a name with a space passes the gate and is refused in the recorded evidence. */
  lemma SpacedNameIsRecordedAsRefused(f: Fields)
    requires f.outcome == "success" && f.result == "passed" && f.classification == "clean" && f.push == Truth(true)
    requires f.binding == BindingOf("my web")
    ensures Acceptable(f) && !BuildEvidence(f).gateAccepted
  {
    BindingIsBound("my web");
    EvidenceAgreesWithGateIff(f);
    assert f.binding.imageRef[2] == ' ';
    assert ' ' in f.binding.imageRef && IsBlank(' ');
  }
}
