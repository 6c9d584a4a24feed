/** When the verdict does not depend on the order in which observations arrive, and when it does. */
module RemediationOrder {
  import opened Wrappers
  import opened RemediationLifecycle
  import opened RemediationWindow

  /** All that the evaluation takes from an observation besides its key. */
  datatype Profile = Outright | Risk(severity: Severity)

  function ProfileOf(o: Observation): Profile {
    if OutrightReason(o).Some? then Outright else Risk(o.severity)
  }

  predicate SameView(a: Observation, b: Observation) {
    KeyOf(a) == KeyOf(b) && ProfileOf(a) == ProfileOf(b)
  }

  /** Observations with equal keys carry the same risk; equal observations do in particular. */
  ghost predicate Agree(raws: seq<RawObservation>) {
    forall a, b | Valid(a) in raws && Valid(b) in raws && KeyOf(a) == KeyOf(b) :: ProfileOf(a) == ProfileOf(b)
  }

  ghost predicate DistinctKeys(kept: seq<Observation>) {
    forall i, j | 0 <= i < j < |kept| :: KeyOf(kept[i]) != KeyOf(kept[j])
  }

  ghost predicate Viewed(o: Observation, kept: seq<Observation>) {
    exists x :: x in kept && SameView(o, x)
  }

  ghost predicate SameViews(a: seq<Observation>, b: seq<Observation>) {
    (forall o | o in a :: Viewed(o, b)) && (forall o | o in b :: Viewed(o, a))
  }

  ghost predicate Respects(f: Observation -> bool) {
    forall a, b | SameView(a, b) :: f(a) == f(b)
  }

  lemma SameViewSameFinding(a: Observation, b: Observation, entries: seq<PolicyEntry>, now: Instant)
    requires SameView(a, b)
    ensures EvaluateOne(a, entries, now).state == EvaluateOne(b, entries, now).state
    ensures EvaluateOne(a, entries, now).entry == EvaluateOne(b, entries, now).entry
  {
  }

  /** What is kept: valid observations, one for every key that occurs. */
  lemma {:induction false} KeptIsFirstPerKey(raws: seq<RawObservation>)
    ensures DistinctKeys(Kept(raws))
    ensures forall o | o in Kept(raws) :: Valid(o) in raws
    ensures forall o | Valid(o) in raws :: HasKey(Kept(raws), KeyOf(o))
  {
    if raws != [] {
      var init, last := raws[..|raws| - 1], raws[|raws| - 1];
      KeptIsFirstPerKey(init);
      assert raws == init + [last];
      if last.Valid? && !HasKey(Kept(init), KeyOf(last.observation)) {
        AddedKey(Kept(init), last.observation);
        assert Kept(raws) == Kept(init) + [last.observation];
      }
    }
  }

  lemma {:induction false} CountRemoved<T>(s: seq<T>, k: nat, f: T -> bool)
    requires k < |s|
    ensures Count(s, f) == Count(s[..k] + s[k + 1..], f) + (if f(s[k]) then 1 else 0)
  {
    var n := |s| - 1;
    if k == n {
      assert s[..k] + s[k + 1..] == s[..n];
    } else {
      CountRemoved(s[..n], k, f);
      var t := s[..k] + s[k + 1..];
      assert t[..|t| - 1] == s[..n][..k] + s[..n][k + 1..] && t[|t| - 1] == s[n];
    }
  }

  lemma Counterpart(o: Observation, b: seq<Observation>) returns (k: nat)
    requires Viewed(o, b)
    ensures k < |b| && SameView(o, b[k])
  {
    var x :| x in b && SameView(o, x);
    k :| 0 <= k < |b| && b[k] == x;
  }

  lemma {:induction false} SameViewsCountSame(a: seq<Observation>, b: seq<Observation>, f: Observation -> bool)
    requires DistinctKeys(a) && DistinctKeys(b) && SameViews(a, b) && Respects(f)
    ensures Count(a, f) == Count(b, f) && |a| == |b|
  {
    if a == [] {
      if b != [] {
        NothingViewed(b);
      }
    } else {
      var init, last := a[..|a| - 1], a[|a| - 1];
      assert a == init + [last] && last in a;
      var k := Counterpart(last, b);
      RemovedViews(init, last, b, k);
      SameViewsCountSame(init, Without(b, k), f);
      CountRemoved(b, k, f);
    }
  }

  lemma NothingViewed(b: seq<Observation>)
    requires b != []
    ensures !Viewed(b[0], []) && b[0] in b
  {
  }

  function Without(b: seq<Observation>, k: nat): seq<Observation>
    requires k < |b|
  {
    b[..k] + b[k + 1..]
  }

  /** Removing one of some observations with distinct keys leaves exactly those with another key. */
  lemma WithoutLeaves(b: seq<Observation>, k: nat)
    requires k < |b| && DistinctKeys(b)
    ensures DistinctKeys(Without(b, k))
    ensures forall x :: x in Without(b, k) <==> x in b && KeyOf(x) != KeyOf(b[k])
  {
    var rest := Without(b, k);
    assert forall i | 0 <= i < |rest| :: rest[i] == b[if i < k then i else i + 1];
    forall x | x in b && KeyOf(x) != KeyOf(b[k])
      ensures x in rest
    {
      var j :| 0 <= j < |b| && b[j] == x;
      assert x == rest[if j < k then j else j - 1];
    }
  }

  lemma ViewsSurvive(a: seq<Observation>, i: nat, b: seq<Observation>, k: nat)
    requires i < |a| && k < |b| && DistinctKeys(a) && DistinctKeys(b) && SameView(a[i], b[k])
    requires forall o | o in a :: Viewed(o, b)
    ensures forall o | o in Without(a, i) :: Viewed(o, Without(b, k))
  {
    hide ProfileOf, DistinctKeys, Without;
    WithoutLeaves(a, i);
    WithoutLeaves(b, k);
    forall o | o in Without(a, i)
      ensures Viewed(o, Without(b, k))
    {
      var x :| x in b && SameView(o, x);
      assert x in Without(b, k);
    }
  }

  lemma RemovedViews(init: seq<Observation>, last: Observation, b: seq<Observation>, k: nat)
    requires k < |b| && SameView(last, b[k])
    requires DistinctKeys(init + [last]) && DistinctKeys(b) && SameViews(init + [last], b)
    ensures DistinctKeys(init) && DistinctKeys(Without(b, k)) && SameViews(init, Without(b, k))
  {
    hide ProfileOf, DistinctKeys, Viewed;
    var a := init + [last];
    assert Without(a, |init|) == init;
    WithoutLeaves(a, |init|);
    WithoutLeaves(b, k);
    ViewsSurvive(a, |init|, b, k);
    ViewsSurvive(b, k, a, |init|);
  }

  function DeadlineOf(o: Observation, entries: seq<PolicyEntry>, now: Instant): Option<Instant> {
    var e := EvaluateOne(o, entries, now).entry;
    if e.Some? then Some(e.value.deadline) else None
  }

  function Deadlines(kept: seq<Observation>, entries: seq<PolicyEntry>, now: Instant): set<Option<Instant>> {
    (set o | o in kept :: DeadlineOf(o, entries, now)) - {None}
  }

  predicate IsLeast(nearest: Option<Instant>, deadlines: set<Option<Instant>>) {
    if nearest.None? then deadlines == {}
    else nearest in deadlines && forall d | d in deadlines :: d.Some? && nearest.value <= d.value
  }

  /** The nearest deadline is the least deadline of any matched entry. */
  lemma {:induction false} NearestIsLeast(kept: seq<Observation>, entries: seq<PolicyEntry>, now: Instant)
    ensures IsLeast(Nearest(kept, entries, now), Deadlines(kept, entries, now))
  {
    if kept != [] {
      var init, last := kept[..|kept| - 1], kept[|kept| - 1];
      NearestIsLeast(init, entries, now);
      assert kept == init + [last];
      assert Deadlines(kept, entries, now)
          == Deadlines(init, entries, now) + ({DeadlineOf(last, entries, now)} - {None});
    }
  }

  lemma SameViewsDeadlines(a: seq<Observation>, b: seq<Observation>, entries: seq<PolicyEntry>, now: Instant)
    requires forall o | o in a :: Viewed(o, b)
    ensures Deadlines(a, entries, now) <= Deadlines(b, entries, now)
  {
    forall o | o in a
      ensures exists x :: x in b && DeadlineOf(x, entries, now) == DeadlineOf(o, entries, now)
    {
      var k := Counterpart(o, b);
      SameViewSameFinding(o, b[k], entries, now);
      assert b[k] in b;
    }
  }

  lemma LeastIsUnique(x: Option<Instant>, y: Option<Instant>, deadlines: set<Option<Instant>>)
    requires IsLeast(x, deadlines) && IsLeast(y, deadlines)
    ensures x == y
  {
  }

  lemma SameViewsNearestSame(a: seq<Observation>, b: seq<Observation>, entries: seq<PolicyEntry>, now: Instant)
    requires SameViews(a, b)
    ensures Nearest(a, entries, now) == Nearest(b, entries, now)
  {
    var deadlines := Deadlines(a, entries, now);
    assert deadlines == Deadlines(b, entries, now) by {
      SameViewsDeadlines(a, b, entries, now);
      SameViewsDeadlines(b, a, entries, now);
    }
    NearestIsLeast(a, entries, now);
    NearestIsLeast(b, entries, now);
    LeastIsUnique(Nearest(a, entries, now), Nearest(b, entries, now), deadlines);
  }

  lemma {:induction false} InvalidCountIsMultiplicity(raws: seq<RawObservation>)
    ensures Count(raws, IsInvalid()) == multiset(raws)[Invalid]
  {
    if raws != [] {
      InvalidCountIsMultiplicity(raws[..|raws| - 1]);
      assert raws == raws[..|raws| - 1] + [raws[|raws| - 1]];
    }
  }

  lemma SameViewsSameTally(
    a: seq<Observation>, b: seq<Observation>, invalid: nat, entries: seq<PolicyEntry>, now: Instant)
    requires DistinctKeys(a) && DistinctKeys(b) && SameViews(a, b)
    ensures Tally(a, invalid, entries, now) == Tally(b, invalid, entries, now)
  {
    forall x, y | SameView(x, y)
      ensures EvaluateOne(x, entries, now).state == EvaluateOne(y, entries, now).state
      ensures EvaluateOne(x, entries, now).entry == EvaluateOne(y, entries, now).entry
    {
      SameViewSameFinding(x, y, entries, now);
    }
    SameViewsCountSame(a, b, InStates(entries, now, {Active, DueSoon}));
    SameViewsCountSame(a, b, InStates(entries, now, {Rejected}));
    SameViewsCountSame(a, b, InStates(entries, now, {Overdue}));
    SameViewsCountSame(a, b, InStates(entries, now, {Unmatched}));
    SameViewsCountSame(a, b, InStates(entries, now, {Reintroduced}));
    SameViewsCountSame(a, b, InStates(entries, now, {DueSoon}));
    SameViewsCountSame(a, b, Matched(entries, now));
  }

  /**
   When observations with equal keys carry the same risk, reordering the
   observations changes nothing: not the decision, state, reason, nearest
   deadline or any count.
   */
  lemma OrderDoesNotMatter(
    raws: seq<RawObservation>, reordered: seq<RawObservation>, entries: seq<PolicyEntry>, now: Instant)
    requires multiset(raws) == multiset(reordered) && Agree(raws)
    ensures Verdict(raws, entries, now) == Verdict(reordered, entries, now)
  {
    KeptIsFirstPerKey(raws);
    KeptIsFirstPerKey(reordered);
    InvalidCountIsMultiplicity(raws);
    InvalidCountIsMultiplicity(reordered);
    KeptSameViews(raws, reordered);
    SameViewsSameTally(Kept(raws), Kept(reordered), Count(raws, IsInvalid()), entries, now);
    SameViewsNearestSame(Kept(raws), Kept(reordered), entries, now);
  }

  lemma SameViewSameDates(padded: bool, a: Observation, b: Observation, entries: seq<PolicyEntry>)
    requires SameView(a, b)
    ensures DatesRead(padded, a, entries) == DatesRead(padded, b, entries)
  {
    hide Lookup;
  }

  lemma SameViewsReadAlike(padded: bool, a: seq<Observation>, b: seq<Observation>, entries: seq<PolicyEntry>)
    requires SameViews(a, b)
    ensures (exists o :: o in a && !DatesRead(padded, o, entries)) <==>
            (exists o :: o in b && !DatesRead(padded, o, entries))
  {
    hide DatesRead, SameView, Viewed;
    if o :| o in a && !DatesRead(padded, o, entries) {
      var k := Counterpart(o, b);
      SameViewSameDates(padded, o, b[k], entries);
      assert b[k] in b;
    }
    if o :| o in b && !DatesRead(padded, o, entries) {
      var k := Counterpart(o, a);
      SameViewSameDates(padded, o, a[k], entries);
      assert a[k] in a;
    }
  }

  /** Nor does the order decide whether the printed dates can be read again. */
  lemma EvaluationIgnoresOrder(padded: bool, policy: seq<RawEntry>, raws: seq<RawObservation>,
                               reordered: seq<RawObservation>, now: Instant)
    requires multiset(raws) == multiset(reordered) && Agree(raws)
    ensures Evaluate(padded, true, policy, raws, now) == Evaluate(padded, true, policy, reordered, now)
  {
    hide Verdict, Agree, SameViews, DatesRead, Kept;
    var entries := LoadPolicy(policy, now);
    if entries.Success? {
      OrderDoesNotMatter(raws, reordered, entries.value, now);
      KeptSameViews(raws, reordered);
      SameViewsReadAlike(padded, Kept(raws), Kept(reordered), entries.value);
    }
  }

  lemma KeptSameViews(raws: seq<RawObservation>, reordered: seq<RawObservation>)
    requires multiset(raws) == multiset(reordered) && Agree(raws)
    ensures SameViews(Kept(raws), Kept(reordered))
  {
    assert forall r :: r in raws <==> r in multiset(raws);
    assert forall r :: r in reordered <==> r in multiset(reordered);
    KeptViewed(raws, reordered);
    KeptViewed(reordered, raws);
  }

  lemma KeptViewed(raws: seq<RawObservation>, others: seq<RawObservation>)
    requires Agree(raws) && forall r :: r in raws <==> r in others
    ensures forall o | o in Kept(raws) :: Viewed(o, Kept(others))
  {
    hide ProfileOf, Kept, DistinctKeys;
    KeptIsFirstPerKey(raws);
    KeptIsFirstPerKey(others);
    forall o | o in Kept(raws)
      ensures Viewed(o, Kept(others))
    {
      assert Valid(o) in raws && Valid(o) in others;
      var x :| x in Kept(others) && KeyOf(x) == KeyOf(o);
      assert Valid(x) in others;
    }
  }

  /** An observation whose key was already seen changes nothing. */
  lemma RepeatedKeyChangesNothing(raws: seq<RawObservation>, o: Observation, entries: seq<PolicyEntry>, now: Instant)
    requires HasKey(Kept(raws), KeyOf(o))
    ensures Verdict(raws + [Valid(o)], entries, now) == Verdict(raws, entries, now)
  {
    assert (raws + [Valid(o)])[..|raws|] == raws;
  }

  // ---- Equal keys that carry different risks ----

  /** A time in the year 2000. */
  const START: Instant := 63_082_281_600

  /** A policy with one active entry that stays open for this many days. */
  function OneEntryPolicy(f: Fingerprint, days: nat): seq<RawEntry> {
    [RawEntry("entry", f, START, START + days * DAY, Entry("active", START, None))]
  }

  lemma OneEntryLoads(f: Fingerprint, days: nat)
    requires days > 0
    ensures var entries := LoadPolicy(OneEntryPolicy(f, days), START);
            && entries.Success? && |entries.value| == 1
            && var e := entries.value[0];
               e.fingerprint == f && e.firstSeen == START && e.deadline == START + days * DAY && e.status == "active"
  {
    var raw := OneEntryPolicy(f, days)[0];
    assert OneEntryPolicy(f, days)[..0] == [];
    assert days * DAY > 0;
    assert Normalize(Dates(START, START + days * DAY, START), raw.lifecycle).Success?;
    var none: seq<PolicyEntry> := [];
    assert AddEntries(OneEntryPolicy(f, days)[..0], START) == Success(none);
    assert AddEntry(none, raw, START).Success?;
  }

  predicate FitsIn(o: Observation, days: nat) {
    ProfileOf(o).Risk? && days * DAY <= MaxWindow(o.severity)
  }

  /** Whether an observation is covered by a young entry that stays open for so many days. */
  lemma CoveredBy(o: Observation, days: nat)
    requires days > 0
    ensures var entries := LoadPolicy(OneEntryPolicy(o.fingerprint, days), START);
            entries.Success? && (EvaluateOne(o, entries.value, START).state in {Active, DueSoon} <==> FitsIn(o, days))
  {
    OneEntryLoads(o.fingerprint, days);
    var entries := LoadPolicy(OneEntryPolicy(o.fingerprint, days), START).value;
    assert Lookup(entries, o.fingerprint) == Some(entries[0]);
  }

  // ---- Bringing a disagreeing pair to the front ----

  lemma {:induction false} RestAgrees(a: Observation, b: Observation, rest: seq<RawObservation>)
    returns (k: seq<Observation>)
    requires KeyOf(a) == KeyOf(b)
    ensures Kept([Valid(a), Valid(b)] + rest) == [a] + k && Kept([Valid(b), Valid(a)] + rest) == [b] + k
  {
    hide Kept, HasKey;
    if rest == [] {
      k := [];
      PairKeepsFirst(a, b);
      PairKeepsFirst(b, a);
      assert [Valid(a), Valid(b)] + rest == [Valid(a), Valid(b)] && [Valid(b), Valid(a)] + rest == [Valid(b), Valid(a)];
    } else {
      var init, last := rest[..|rest| - 1], rest[|rest| - 1];
      k := RestAgrees(a, b, init);
      KeptSnoc([Valid(a), Valid(b)] + init, last);
      KeptSnoc([Valid(b), Valid(a)] + init, last);
      assert [Valid(a), Valid(b)] + rest == ([Valid(a), Valid(b)] + init) + [last];
      assert [Valid(b), Valid(a)] + rest == ([Valid(b), Valid(a)] + init) + [last];
      if last.Valid? {
        SameKeysSameHead(a, b, k, KeyOf(last.observation));
        if !HasKey([a] + k, KeyOf(last.observation)) {
          assert ([a] + k) + [last.observation] == [a] + (k + [last.observation]);
          assert ([b] + k) + [last.observation] == [b] + (k + [last.observation]);
          k := k + [last.observation];
        }
      }
    }
  }

  lemma KeptSnoc(raws: seq<RawObservation>, last: RawObservation)
    ensures Kept(raws + [last]) ==
            if last.Valid? && !HasKey(Kept(raws), KeyOf(last.observation)) then Kept(raws) + [last.observation]
            else Kept(raws)
  {
    assert (raws + [last])[..|raws|] == raws;
  }

  lemma PairKeepsFirst(a: Observation, b: Observation)
    requires KeyOf(a) == KeyOf(b)
    ensures Kept([Valid(a), Valid(b)]) == [a]
  {
    KeptSnoc([], Valid(a));
    KeptSnoc([Valid(a)], Valid(b));
    assert [] + [Valid(a)] == [Valid(a)] && [Valid(a)] + [Valid(b)] == [Valid(a), Valid(b)];
    assert [] + [a] == [a] && a in [a];
  }

  lemma SameKeysSameHead(a: Observation, b: Observation, k: seq<Observation>, key: Key)
    requires KeyOf(a) == KeyOf(b)
    ensures HasKey([a] + k, key) <==> HasKey([b] + k, key)
  {
    assert a in [a] + k && b in [b] + k;
    forall o | o in k
      ensures o in [a] + k && o in [b] + k
    {
    }
  }

  lemma CoveredCount(raws: seq<RawObservation>, entries: seq<PolicyEntry>, now: Instant)
    requires Kept(raws) != []
    ensures Verdict(raws, entries, now).counts.covered == Count(Kept(raws), InStates(entries, now, {Active, DueSoon}))
  {
  }

  lemma CountFront<T>(x: T, s: seq<T>, f: T -> bool)
    ensures Count([x] + s, f) == Count(s, f) + (if f(x) then 1 else 0)
  {
    CountRemoved([x] + s, 0, f);
    assert ([x] + s)[..0] + ([x] + s)[1..] == s;
  }

  /** With the pair in front, equal verdicts mean that both are covered or both are not. */
  lemma EqualVerdictsCoverAlike(
    a: Observation, b: Observation, rest: seq<RawObservation>, entries: seq<PolicyEntry>, now: Instant)
    requires KeyOf(a) == KeyOf(b)
    requires Verdict([Valid(a), Valid(b)] + rest, entries, now) == Verdict([Valid(b), Valid(a)] + rest, entries, now)
    ensures EvaluateOne(a, entries, now).state in {Active, DueSoon} <==>
            EvaluateOne(b, entries, now).state in {Active, DueSoon}
  {
    hide Kept, Verdict, EvaluateOne, Count;
    var k := RestAgrees(a, b, rest);
    var f := InStates(entries, now, {Active, DueSoon});
    CoveredCount([Valid(a), Valid(b)] + rest, entries, now);
    CoveredCount([Valid(b), Valid(a)] + rest, entries, now);
    CountFront(a, k, f);
    CountFront(b, k, f);
    assert f(a) <==> f(b);
  }

  /** Every order of these observations gets the same verdict, under every accepted policy and at every time. */
  ghost predicate OrderFree(raws: seq<RawObservation>) {
    forall padded: bool, reordered: seq<RawObservation>, policy: seq<RawEntry>, now: Instant
      | multiset(reordered) == multiset(raws) ::
        Evaluate(padded, true, policy, reordered, now) == Evaluate(padded, true, policy, raws, now)
  }

  lemma OrderFreeUnder(raws: seq<RawObservation>, reordered: seq<RawObservation>, policy: seq<RawEntry>)
    requires OrderFree(raws) && multiset(reordered) == multiset(raws) && LoadPolicy(policy, START).Success?
    ensures var entries := LoadPolicy(policy, START).value;
            Verdict(reordered, entries, START) == Verdict(raws, entries, START)
  {
    hide Verdict, Kept, Lookup, LoadPolicy;
    assert Evaluate(true, true, policy, reordered, START) == Evaluate(true, true, policy, raws, START);
  }

  lemma OrderFreeFitsAlike(
    raws: seq<RawObservation>, a: Observation, b: Observation, rest: seq<RawObservation>, days: nat)
    requires OrderFree(raws) && KeyOf(a) == KeyOf(b) && days > 0
    requires multiset([Valid(a), Valid(b)] + rest) == multiset(raws) == multiset([Valid(b), Valid(a)] + rest)
    ensures FitsIn(a, days) <==> FitsIn(b, days)
  {
    CoveredBy(a, days);
    CoveredBy(b, days);
    var policy := OneEntryPolicy(a.fingerprint, days);
    OrderFreeUnder(raws, [Valid(a), Valid(b)] + rest, policy);
    OrderFreeUnder(raws, [Valid(b), Valid(a)] + rest, policy);
    EqualVerdictsCoverAlike(a, b, rest, LoadPolicy(policy, START).value, START);
  }

  /** What is left of some elements without two different ones. */
  lemma PairInFront<T>(s: seq<T>, x: T, y: T) returns (rest: seq<T>)
    requires x in s && y in s && x != y
    ensures multiset([x, y] + rest) == multiset(s) == multiset([y, x] + rest)
  {
    var rest1 := OneInFront(s, x);
    assert y in multiset([x] + rest1);
    assert y in rest1;
    rest := OneInFront(rest1, y);
    assert [x, y] + rest == [x] + ([y] + rest) && [y, x] + rest == [y] + ([x] + rest);
  }

  lemma OneInFront<T>(s: seq<T>, x: T) returns (rest: seq<T>)
    requires x in s
    ensures multiset([x] + rest) == multiset(s)
  {
    var i :| 0 <= i < |s| && s[i] == x;
    rest := s[..i] + s[i + 1..];
    assert s == s[..i] + [x] + s[i + 1..];
  }

  lemma OrderFreeMeansAgree(raws: seq<RawObservation>, a: Observation, b: Observation)
    requires OrderFree(raws) && Valid(a) in raws && Valid(b) in raws && KeyOf(a) == KeyOf(b)
    ensures ProfileOf(a) == ProfileOf(b)
  {
    if a != b {
      var rest := PairInFront(raws, Valid(a), Valid(b));
      OrderFreeFitsAlike(raws, a, b, rest, 5);
      OrderFreeFitsAlike(raws, a, b, rest, 20);
    }
  }

  /**
   The evaluation of a list of observations is free of their order, under every
   policy and at every time, exactly when observations with equal keys carry equal
   risks. The key leaves out severity and the reasons to refuse outright.
   */
  lemma OrderFreeIffAgree(raws: seq<RawObservation>)
    ensures OrderFree(raws) <==> Agree(raws)
  {
    hide Evaluate, ProfileOf;
    if Agree(raws) {
      forall padded: bool, reordered: seq<RawObservation>, policy: seq<RawEntry>, now: Instant
        | multiset(reordered) == multiset(raws)
        ensures Evaluate(padded, true, policy, reordered, now) == Evaluate(padded, true, policy, raws, now)
      {
        EvaluationIgnoresOrder(padded, policy, raws, reordered, now);
      }
    }
    if OrderFree(raws) {
      forall a, b | Valid(a) in raws && Valid(b) in raws && KeyOf(a) == KeyOf(b)
        ensures ProfileOf(a) == ProfileOf(b)
      {
        OrderFreeMeansAgree(raws, a, b);
      }
    }
  }

  /** Of two observations with one key the first one decides. */
  lemma FirstDecides(a: Observation, b: Observation, entries: seq<PolicyEntry>, now: Instant)
    requires KeyOf(a) == KeyOf(b)
    ensures Verdict([Valid(a), Valid(b)], entries, now).allowed <==>
            EvaluateOne(a, entries, now).state in {Active, DueSoon}
    ensures Verdict([Valid(a), Valid(b)], entries, now).decision ==
            if EvaluateOne(a, entries, now).state in {Active, DueSoon} then "allowed_window" else "blocked"
  {
    PairKeepsFirst(a, b);
    InvalidCountIsMultiplicity([Valid(a), Valid(b)]);
    assert Invalid !in multiset([Valid(a), Valid(b)]);
    CountsAreConserved([Valid(a), Valid(b)], entries, now);
    CountsAll([a], InStates(entries, now, {Active, DueSoon}));
    assert a in [a];
  }

  const HIGH_FINDING := Observation(
    Fingerprint("web", "CVE-2024-0001", "pkg:deb/openssl", "3.0", "3.1", []), "web", ALLOWED_CLASSIFICATION, High,
    Internal, false, false, "")

  const CRITICAL_FINDING := HIGH_FINDING.(severity := Critical)

  /** Under such a policy all dates can be read again. */
  lemma YoungEntryEvaluates(padded: bool, f: Fingerprint, days: nat, raws: seq<RawObservation>)
    requires days > 0
    ensures LoadPolicy(OneEntryPolicy(f, days), START).Success?
    ensures Evaluate(padded, true, OneEntryPolicy(f, days), raws, START)
         == Success(Verdict(raws, LoadPolicy(OneEntryPolicy(f, days), START).value, START))
  {
    hide Verdict, LoadPolicy, Kept;
    OneEntryLoads(f, days);
    var entries := LoadPolicy(OneEntryPolicy(f, days), START).value;
    forall o | o in Kept(raws)
      ensures DatesRead(padded, o, entries)
    {
      assert Lookup(entries, o.fingerprint).Some? ==> Lookup(entries, o.fingerprint).value == entries[0];
    }
  }

  /** One key, two risks: a window of twenty days allows the pair in one order and blocks it in the other. */
  lemma OneKeyTwoRisks(padded: bool)
    ensures KeyOf(HIGH_FINDING) == KeyOf(CRITICAL_FINDING)
    ensures var policy := OneEntryPolicy(HIGH_FINDING.fingerprint, 20);
            var a, b := Evaluate(padded, true, policy, [Valid(HIGH_FINDING), Valid(CRITICAL_FINDING)], START),
                        Evaluate(padded, true, policy, [Valid(CRITICAL_FINDING), Valid(HIGH_FINDING)], START);
            a.Success? && b.Success? && a.value.allowed && b.value.decision == "blocked"
  {
    hide Verdict, Evaluate, LoadPolicy;
    CoveredBy(HIGH_FINDING, 20);
    CoveredBy(CRITICAL_FINDING, 20);
    var entries := LoadPolicy(OneEntryPolicy(HIGH_FINDING.fingerprint, 20), START).value;
    FirstDecides(HIGH_FINDING, CRITICAL_FINDING, entries, START);
    FirstDecides(CRITICAL_FINDING, HIGH_FINDING, entries, START);
    YoungEntryEvaluates(padded, HIGH_FINDING.fingerprint, 20, [Valid(HIGH_FINDING), Valid(CRITICAL_FINDING)]);
    YoungEntryEvaluates(padded, HIGH_FINDING.fingerprint, 20, [Valid(CRITICAL_FINDING), Valid(HIGH_FINDING)]);
  }
}
