/**
 The reviewed history of one policy entry: revisions may extend, resolve and
 reintroduce it, and may not contradict what was reviewed before. Times are
 instants in seconds.
 */
module RemediationLifecycle {
  import opened Wrappers

  type Instant = int

  datatype Revision = Revision(
    action: string, firstSeen: Instant, previousDeadline: Instant, deadline: Instant, reviewedAt: Instant)

  datatype LifecycleError =
    | StatusNotAllowed | ReviewInFuture | HistoryRequired | HistoryEmpty | ActionNotAllowed | FirstSeenChanged
    | DeadlineMismatch | ReviewOutOfOrder | NotActive | NotResolved | DeadlineNotExtended | DeadlineChanged
    | StatusMismatch

  /** What the loop tracks while it reads the history. */
  datatype Tracked = Tracked(deadline: Instant, status: string, reviewedAt: Instant)

  datatype Lifecycle = Lifecycle(
    status: string, originalDeadline: Instant, effectiveDeadline: Instant, history: seq<Revision>)

  /** An entry as reviewed; a missing history is None. */
  datatype Entry = Entry(status: string, reviewedAt: Instant, history: Option<seq<Revision>>)

  /** The dates that the history must respect. */
  datatype Dates = Dates(firstSeen: Instant, originalDeadline: Instant, reference: Instant)

  function Advance(d: Dates, t: Tracked, r: Revision): Result<Tracked, LifecycleError> {
    if r.action !in {"extended", "resolved", "reintroduced"} then Failure(ActionNotAllowed)
    else if r.firstSeen != d.firstSeen then Failure(FirstSeenChanged)
    else if r.previousDeadline != t.deadline then Failure(DeadlineMismatch)
    else if r.reviewedAt > d.reference then Failure(ReviewInFuture)
    else if r.reviewedAt <= t.reviewedAt then Failure(ReviewOutOfOrder)
    else if r.action == "extended" then
      if t.status != "active" then Failure(NotActive)
      else if r.deadline <= r.previousDeadline then Failure(DeadlineNotExtended)
      else Success(Tracked(r.deadline, t.status, r.reviewedAt))
    else if r.action == "resolved" then
      if t.status != "active" then Failure(NotActive)
      else if r.deadline != r.previousDeadline then Failure(DeadlineChanged)
      else Success(Tracked(t.deadline, "resolved", r.reviewedAt))
    else
      if t.status != "resolved" then Failure(NotResolved)
      else if r.deadline != r.previousDeadline then Failure(DeadlineChanged)
      else Success(Tracked(t.deadline, "reintroduced", r.reviewedAt))
  }

  function Track(d: Dates, reviewedAt: Instant, history: seq<Revision>): Result<Tracked, LifecycleError> {
    if history == [] then
      Success(Tracked(d.originalDeadline, "active", reviewedAt))
    else
      var before :- Track(d, reviewedAt, history[..|history| - 1]);
      Advance(d, before, history[|history| - 1])
  }

  function Normalize(d: Dates, e: Entry): Result<Lifecycle, LifecycleError> {
    if e.status !in {"active", "resolved", "reintroduced"} then Failure(StatusNotAllowed)
    else if e.reviewedAt > d.reference then Failure(ReviewInFuture)
    else if e.history.None? then
      if e.status != "active" then Failure(HistoryRequired)
      else Success(Lifecycle("active", d.originalDeadline, d.originalDeadline, []))
    else if e.history.value == [] then Failure(HistoryEmpty)
    else
      var t :- Track(d, e.reviewedAt, e.history.value);
      if t.status != e.status then Failure(StatusMismatch)
      else Success(Lifecycle(e.status, d.originalDeadline, t.deadline, e.history.value))
  }

  method NormalizeLifecycle(d: Dates, e: Entry) returns (r: Result<Lifecycle, LifecycleError>)
    ensures r == Normalize(d, e)
  {
    if e.status !in {"active", "resolved", "reintroduced"} {
      return Failure(StatusNotAllowed);
    }
    if e.reviewedAt > d.reference {
      return Failure(ReviewInFuture);
    }
    if e.history.None? {
      return if e.status == "active"
             then Success(Lifecycle("active", d.originalDeadline, d.originalDeadline, []))
             else Failure(HistoryRequired);
    }
    var raw := e.history.value;
    if raw == [] {
      return Failure(HistoryEmpty);
    }
    var trackedDeadline, trackedStatus, previousReviewedAt := d.originalDeadline, "active", e.reviewedAt;
    var history: seq<Revision> := [];
    for i := 0 to |raw|
      invariant history == raw[..i]
      invariant Track(d, e.reviewedAt, raw[..i])
             == Success(Tracked(trackedDeadline, trackedStatus, previousReviewedAt))
    {
      assert raw[..i + 1][..i] == raw[..i];
      var next := Advance(d, Tracked(trackedDeadline, trackedStatus, previousReviewedAt), raw[i]);
      if next.Failure? {
        FailureStays(d, e.reviewedAt, raw, i + 1);
        return Failure(next.error);
      }
      trackedDeadline, trackedStatus, previousReviewedAt :=
        next.value.deadline, next.value.status, next.value.reviewedAt;
      history := history + [raw[i]];
    }
    assert raw[..|raw|] == raw;
    if trackedStatus != e.status {
      return Failure(StatusMismatch);
    }
    return Success(Lifecycle(e.status, d.originalDeadline, trackedDeadline, history));
  }

  lemma {:induction false} FailureStays(d: Dates, reviewedAt: Instant, history: seq<Revision>, k: nat)
    requires k <= |history| && Track(d, reviewedAt, history[..k]).Failure?
    ensures Track(d, reviewedAt, history) == Track(d, reviewedAt, history[..k])
    decreases |history| - k
  {
    if k < |history| {
      assert history[..|history| - 1][..k] == history[..k];
      FailureStays(d, reviewedAt, history[..|history| - 1], k);
    } else {
      assert history[..k] == history;
    }
  }

  // ---- The histories that are accepted ----

  /** The deadline in force before revision i. */
  function DeadlineBefore(d: Dates, history: seq<Revision>, i: nat): Instant
    requires i <= |history|
  {
    if i == 0 then d.originalDeadline else history[i - 1].deadline
  }

  function ReviewBefore(reviewedAt: Instant, history: seq<Revision>, i: nat): Instant
    requires i <= |history|
  {
    if i == 0 then reviewedAt else history[i - 1].reviewedAt
  }

  /** One revision's dates: same first sighting, previous deadline in force, a later review. */
  predicate Linked(d: Dates, reviewedAt: Instant, history: seq<Revision>, i: nat)
    requires i < |history|
  {
    && history[i].firstSeen == d.firstSeen
    && history[i].previousDeadline == DeadlineBefore(d, history, i)
    && ReviewBefore(reviewedAt, history, i) < history[i].reviewedAt <= d.reference
    && if history[i].action == "extended" then history[i].deadline > history[i].previousDeadline
       else history[i].deadline == history[i].previousDeadline
  }

  ghost predicate Chained(d: Dates, reviewedAt: Instant, history: seq<Revision>) {
    forall i: nat | i < |history| :: Linked(d, reviewedAt, history, i)
  }

  /** The actions read: extended any number of times, then optionally resolved, then optionally reintroduced. */
  ghost predicate Grammatical(history: seq<Revision>, k: nat) {
    && k <= |history| <= k + 2
    && (forall i | 0 <= i < k :: history[i].action == "extended")
    && (|history| > k ==> history[k].action == "resolved")
    && (|history| > k + 1 ==> history[k + 1].action == "reintroduced")
  }

  ghost predicate Regular(history: seq<Revision>) {
    exists k: nat :: Grammatical(history, k)
  }

  function StatusAfter(history: seq<Revision>): string {
    if history == [] || history[|history| - 1].action == "extended" then "active"
    else history[|history| - 1].action
  }

  /** What tracking computes, when it accepts. */
  function Outcome(d: Dates, reviewedAt: Instant, history: seq<Revision>): Tracked {
    Tracked(DeadlineBefore(d, history, |history|), StatusAfter(history), ReviewBefore(reviewedAt, history, |history|))
  }

  lemma {:induction false} TracksIff(d: Dates, reviewedAt: Instant, history: seq<Revision>)
    ensures Track(d, reviewedAt, history).Success? <==>
            Chained(d, reviewedAt, history) && Regular(history)
    ensures Track(d, reviewedAt, history).Success? ==>
            Track(d, reviewedAt, history).value == Outcome(d, reviewedAt, history)
  {
    if history == [] {
      assert Grammatical(history, 0);
    } else {
      var n := |history| - 1;
      var init, last := history[..n], history[n];
      TracksIff(d, reviewedAt, init);
      assert history == init + [last];
      ChainedSnoc(d, reviewedAt, init, last);
      GrammaticalSnoc(init, last);
    }
  }

  lemma ChainedSnoc(d: Dates, reviewedAt: Instant, init: seq<Revision>, last: Revision)
    ensures Chained(d, reviewedAt, init + [last]) <==>
            Chained(d, reviewedAt, init) && Linked(d, reviewedAt, init + [last], |init|)
    ensures DeadlineBefore(d, init + [last], |init|) == DeadlineBefore(d, init, |init|)
    ensures ReviewBefore(reviewedAt, init + [last], |init|) == ReviewBefore(reviewedAt, init, |init|)
  {
    var history := init + [last];
    forall i: nat | i < |init|
      ensures Linked(d, reviewedAt, history, i) <==> Linked(d, reviewedAt, init, i)
    {
      assert history[i] == init[i];
      assert i > 0 ==> history[i - 1] == init[i - 1];
    }
  }

  /** Whether an action may follow a status. */
  predicate Follows(action: string, status: string) {
    if action == "extended" || action == "resolved" then status == "active"
    else action == "reintroduced" && status == "resolved"
  }

  lemma GrammarGrows(init: seq<Revision>, last: Revision, k: nat)
    requires Grammatical(init, k) && Follows(last.action, StatusAfter(init))
    ensures Regular(init + [last])
  {
    var history := init + [last];
    assert forall i | 0 <= i < |init| :: history[i] == init[i];
    assert history[|init|] == last;
    if last.action == "extended" {
      assert Grammatical(history, |history|);
    } else if last.action == "resolved" {
      assert Grammatical(history, |init|);
    } else {
      assert Grammatical(history, |init| - 1);
    }
  }

  lemma GrammarShrinks(init: seq<Revision>, last: Revision, k: nat)
    requires Grammatical(init + [last], k)
    ensures Regular(init) && Follows(last.action, StatusAfter(init))
  {
    var history := init + [last];
    assert forall i | 0 <= i < |init| :: history[i] == init[i];
    assert history[|init|] == last;
    assert Grammatical(init, if k <= |init| then k else |init|);
  }

  /** One more action fits the grammar exactly when the status so far allows it. */
  lemma GrammaticalSnoc(init: seq<Revision>, last: Revision)
    ensures Regular(init + [last]) <==> Regular(init) && Follows(last.action, StatusAfter(init))
  {
    if k: nat :| Grammatical(init + [last], k) {
      GrammarShrinks(init, last, k);
    }
    if k: nat :| Grammatical(init, k) && Follows(last.action, StatusAfter(init)) {
      GrammarGrows(init, last, k);
    }
  }

  /** Exactly these entries are accepted. */
  ghost predicate WellReviewed(d: Dates, e: Entry) {
    && e.reviewedAt <= d.reference
    && match e.history
       case None => e.status == "active"
       case Some(history) =>
         && history != []
         && Chained(d, e.reviewedAt, history)
         && Regular(history)
         && e.status == StatusAfter(history)
  }

  /**
   A history is accepted exactly when its actions follow the grammar, each
   previous deadline is the one in force, reviews strictly increase up to the
   reference time, and the status is that of the last action.
   */
  lemma AcceptedIff(d: Dates, e: Entry)
    ensures Normalize(d, e).Success? <==> WellReviewed(d, e)
    ensures Normalize(d, e).Success? && e.history.Some? ==>
            Normalize(d, e).value.effectiveDeadline == DeadlineBefore(d, e.history.value, |e.history.value|)
  {
    if e.history.Some? {
      TracksIff(d, e.reviewedAt, e.history.value);
    }
  }

  ghost predicate Extends(history: seq<Revision>) {
    exists i :: 0 <= i < |history| && history[i].action == "extended"
  }

  lemma DeadlineStep(d: Dates, reviewedAt: Instant, init: seq<Revision>, last: Revision)
    requires Chained(d, reviewedAt, init + [last])
    ensures Chained(d, reviewedAt, init)
    ensures DeadlineBefore(d, init + [last], |init| + 1) >= DeadlineBefore(d, init, |init|)
    ensures DeadlineBefore(d, init + [last], |init| + 1) > DeadlineBefore(d, init, |init|) <==>
            last.action == "extended"
  {
    ChainedSnoc(d, reviewedAt, init, last);
  }

  lemma ExtendsStep(init: seq<Revision>, last: Revision)
    ensures Extends(init + [last]) <==> Extends(init) || last.action == "extended"
  {
    var history := init + [last];
    assert forall i | 0 <= i < |init| :: history[i] == init[i];
    assert history[|init|] == last;
  }

  lemma {:induction false} DeadlinesNeverFall(d: Dates, reviewedAt: Instant, history: seq<Revision>)
    requires Chained(d, reviewedAt, history)
    ensures DeadlineBefore(d, history, |history|) >= d.originalDeadline
    ensures DeadlineBefore(d, history, |history|) > d.originalDeadline <==> Extends(history)
  {
    if history != [] {
      var init, last := history[..|history| - 1], history[|history| - 1];
      assert history == init + [last];
      DeadlineStep(d, reviewedAt, init, last);
      ExtendsStep(init, last);
      DeadlinesNeverFall(d, reviewedAt, init);
    }
  }

  /** The effective deadline is later than the original exactly when some revision extended it. */
  lemma ExtendedIffRevised(d: Dates, e: Entry)
    requires Normalize(d, e).Success?
    ensures var l := Normalize(d, e).value;
            && l.effectiveDeadline >= l.originalDeadline == d.originalDeadline
            && (l.effectiveDeadline > l.originalDeadline <==> e.history.Some? && Extends(e.history.value))
  {
    AcceptedIff(d, e);
    if e.history.Some? {
      DeadlinesNeverFall(d, e.reviewedAt, e.history.value);
    }
  }

  /** Every non-empty prefix of an accepted history is accepted under the status that it reaches. */
  lemma {:induction false} PrefixesAreAccepted(d: Dates, e: Entry, k: nat)
    requires Normalize(d, e).Success? && e.history.Some? && 0 < k <= |e.history.value|
    ensures var prefix := e.history.value[..k];
            Normalize(d, Entry(StatusAfter(prefix), e.reviewedAt, Some(prefix))).Success?
    decreases |e.history.value|
  {
    var history := e.history.value;
    if k < |history| {
      var init := history[..|history| - 1];
      TracksIff(d, e.reviewedAt, history);
      TracksIff(d, e.reviewedAt, init);
      var shorter := Entry(StatusAfter(init), e.reviewedAt, Some(init));
      AcceptedIff(d, shorter);
      PrefixesAreAccepted(d, shorter, k);
      assert init[..k] == history[..k];
    } else {
      assert history[..k] == history;
      TracksIff(d, e.reviewedAt, history);
      AcceptedIff(d, e);
    }
  }

  /** A later reference time accepts whatever an earlier one accepted, with the same outcome. */
  lemma {:induction false} TrackingOutlives(d: Dates, later: Instant, reviewedAt: Instant, history: seq<Revision>)
    requires d.reference <= later && Track(d, reviewedAt, history).Success?
    ensures Track(d.(reference := later), reviewedAt, history) == Track(d, reviewedAt, history)
  {
    if history != [] {
      TrackingOutlives(d, later, reviewedAt, history[..|history| - 1]);
    }
  }
}
