/**
 The directory of deployment manifests: each deployment writes one immutable
 manifest, a copy of the last successful one is kept beside them, and only the
 newest manifests by name are retained.
 */
module ManifestRetention {
  import opened Wrappers
  import opened Collections
  import opened TextOrder
  import opened Texts
  import opened Timestamps

  const LAST_SUCCESSFUL := "last-successful.json"
  const SUFFIX := ".json"
  const MAX_RETENTION := 500

  /** What one deployment records; the content is its encoded payload. */
  datatype Record = Record(time: Time, sha: string, runId: string, success: bool, content: string)

  datatype WriteError = BadRetention | AlreadyExists

  /** The files of the directory by name. */
  type Files = map<string, string>

  // ---- Names ----

  predicate IsSafe(c: char) {
    '0' <= c <= '9' || 'A' <= c <= 'Z' || 'a' <= c <= 'z' || c == '.' || c == '_' || c == '-'
  }

  function Segment(value: string): string {
    if value == "" then "unknown"
    else seq(|value|, i requires 0 <= i < |value| => if IsSafe(value[i]) then value[i] else '-')
  }

  function Tail(r: Record): string {
    "-" + Segment(r.sha[..if |r.sha| < 12 then |r.sha| else 12]) + "-" + Segment(r.runId) + SUFFIX
  }

  function NameOf(padded: bool, r: Record): string {
    FormatCompact(padded, r.time) + Tail(r)
  }

  predicate EndsWith(s: string, suffix: string) {
    |suffix| <= |s| && s[|s| - |suffix|..] == suffix
  }

  predicate IsManifest(name: string) {
    EndsWith(name, SUFFIX) && name != LAST_SUCCESSFUL
  }

  function Names(files: Files): set<string> {
    set n | n in files && IsManifest(n)
  }

  // ---- One write ----

  function Recorded(padded: bool, files: Files, r: Record): Files {
    var written := files[NameOf(padded, r) := r.content];
    if r.success then written[LAST_SUCCESSFUL := r.content] else written
  }

  /** All that is not a manifest, and the newest manifests by name. */
  function Prune(files: Files, retention: nat): Files {
    files - (Names(files) - Newest(Names(files), retention))
  }

  function WriteOne(padded: bool, files: Files, r: Record, retention: int): Result<Files, WriteError> {
    if !(1 <= retention <= MAX_RETENTION) then Failure(BadRetention)
    else if NameOf(padded, r) in files then Failure(AlreadyExists)
    else Success(Prune(Recorded(padded, files, r), retention))
  }

  class Directory {
    const padded: bool
    var files: Files

    constructor (padded: bool)
      ensures files == map[] && this.padded == padded
    {
      this.padded := padded;
      files := map[];
    }

    /** Writes a manifest and removes those beyond the retention; returns the name it was written under. */
    method Write(r: Record, retention: int) returns (name: Result<string, WriteError>)
      modifies this
      ensures WriteOne(padded, old(files), r, retention) ==
              if name.Success? then Success(files) else Failure(name.error)
      ensures name.Success? ==> name.value == NameOf(padded, r)
      ensures name.Failure? ==> files == old(files)
    {
      if !(1 <= retention <= MAX_RETENTION) {
        return Failure(BadRetention);
      }
      var path := NameOf(padded, r);
      if path in files {
        return Failure(AlreadyExists);
      }
      files := files[path := r.content];
      if r.success {
        files := files[LAST_SUCCESSFUL := r.content];
      }
      RemoveExpired(retention);
      return Success(path);
    }

    /** Unlinks every manifest beyond the retention, from the newest of them to the oldest. */
    method RemoveExpired(retention: nat)
      modifies this
      ensures files == Prune(old(files), retention)
    {
      var listing := Glob();
      var ascending := Sort(listing, (n: string) => n);
      SortIsAscending(listing);
      NewestAreLast(ascending, retention);
      var expired := if |ascending| <= retention then 0 else |ascending| - retention;
      DroppedAreNotLast(ascending, expired);
      for i := expired downto 0
        invariant files == old(files) - Elements(ascending[i..expired])
      {
        assert ascending[i..expired] == [ascending[i]] + ascending[i + 1..expired];
        files := files - {ascending[i]};
      }
    }

    /** The names of the manifests, in no particular order. */
    method Glob() returns (listing: seq<string>)
      ensures Distinct(listing) && Elements(listing) == Names(files)
    {
      listing := [];
      var left := Names(files);
      while left != {}
        invariant Distinct(listing) && left !! Elements(listing) && left + Elements(listing) == Names(files)
        decreases |left|
      {
        var n :| n in left;
        ListedOneMore(listing, left, n);
        listing := listing + [n];
        left := left - {n};
      }
    }
  }

  lemma ListedOneMore(listing: seq<string>, left: set<string>, n: string)
    requires Distinct(listing) && left !! Elements(listing) && n in left
    ensures Distinct(listing + [n]) && (left - {n}) !! Elements(listing + [n])
    ensures (left - {n}) + Elements(listing + [n]) == left + Elements(listing)
  {
    assert n !in Elements(listing);
    assert Elements(listing + [n]) == Elements(listing) + {n};
  }

  lemma SortIsAscending(listing: seq<string>)
    requires Distinct(listing)
    ensures var s := Sort(listing, (n: string) => n); Ascending(s) && Elements(s) == Elements(listing)
  {
    var s := Sort(listing, (n: string) => n);
    SortOrders(listing, (n: string) => n);
    assert forall x :: x in s <==> x in multiset(s);
    assert forall x :: x in listing <==> x in multiset(listing);
    DistinctIffMultiplicityOne(listing);
    DistinctIffMultiplicityOne(s);
    forall i, j | 0 <= i < j < |s|
      ensures TextLess(s[i], s[j])
    {
      TextTotal(s[i], s[j]);
    }
  }

  /** The elements before a position are those that are not among the last. */
  lemma DroppedAreNotLast(s: seq<string>, k: nat)
    requires Ascending(s) && k <= |s|
    ensures Elements(s[0..k]) == Elements(s) - Elements(s[k..])
  {
    AscendingIsDistinct(s);
    assert s == s[0..k] + s[k..];
  }

  // ---- One write, whatever the clock says ----

  lemma NamesAreManifests(padded: bool, r: Record)
    requires Valid(r.time)
    ensures IsManifest(NameOf(padded, r))
  {
    var name := NameOf(padded, r);
    assert name[|name| - |SUFFIX|..] == SUFFIX;
    CompactStartsWithDigit(padded, r.time);
    assert name[0] == FormatCompact(padded, r.time)[0] && LAST_SUCCESSFUL[0] == 'l';
  }

  /** A write never changes a manifest that is already there: it keeps or removes it. */
  lemma ManifestsAreImmutable(padded: bool, files: Files, r: Record, retention: int)
    requires Valid(r.time) && WriteOne(padded, files, r, retention).Success?
    ensures var after := WriteOne(padded, files, r, retention).value;
            && (forall n | n in Names(files) && n in after :: after[n] == files[n])
            && Names(after) <= Names(files) + {NameOf(padded, r)}
  {
    NamesAreManifests(padded, r);
  }

  /**
   The manifest just written survives its own write exactly when fewer
   manifests than the retention have a greater name.
   */
  lemma WrittenSurvivesIff(padded: bool, files: Files, r: Record, retention: int)
    requires Valid(r.time) && WriteOne(padded, files, r, retention).Success?
    ensures NameOf(padded, r) in WriteOne(padded, files, r, retention).value <==>
            |Above(NameOf(padded, r), Names(files))| < retention
  {
    NamesAreManifests(padded, r);
    TextIrreflexive(NameOf(padded, r));
    assert Names(Recorded(padded, files, r)) == Names(files) + {NameOf(padded, r)};
    assert Above(NameOf(padded, r), Names(Recorded(padded, files, r))) == Above(NameOf(padded, r), Names(files));
  }

  lemma EarlierNameIsLess(padded: bool, a: Record, b: Record)
    requires Valid(a.time) && Valid(b.time) && Seconds(a.time) < Seconds(b.time)
    requires YearWidth(padded, a.time) == YearWidth(padded, b.time)
    ensures TextLess(NameOf(padded, a), NameOf(padded, b)) && NameOf(padded, a) != NameOf(padded, b)
  {
    TextOrderIsTimeOrder(padded, a.time, b.time);
    TextLessConcat(FormatCompact(padded, a.time), FormatCompact(padded, b.time), Tail(a), Tail(b));
    TextIrreflexive(NameOf(padded, a));
  }

  /** With retention 1, a write under a smaller name than the one before loses its own manifest. */
  lemma LesserNameIsLost(padded: bool, a: Record, b: Record)
    requires Valid(a.time) && Valid(b.time) && TextLess(NameOf(padded, b), NameOf(padded, a))
    ensures var first := WriteOne(padded, map[], a, 1);
            && first.Success? && WriteOne(padded, first.value, b, 1).Success?
            && NameOf(padded, b) !in WriteOne(padded, first.value, b, 1).value
  {
    var first := WriteOne(padded, map[], a, 1).value;
    TextIrreflexive(NameOf(padded, a));
    NamesAreManifests(padded, a);
    NamesAreManifests(padded, b);
    WrittenSurvivesIff(padded, map[], a, 1);
    assert Names(map[]) == {} && Above(NameOf(padded, a), {}) == {};
    assert NameOf(padded, b) != LAST_SUCCESSFUL;
    assert NameOf(padded, a) in Names(first);
    assert NameOf(padded, a) in Above(NameOf(padded, b), Names(first));
    WrittenSurvivesIff(padded, first, b, 1);
  }

  /** When the clock has gone back, a write with retention 1 removes the very manifest that it reports. */
  lemma ClockGoneBackLosesManifest(padded: bool, a: Record, b: Record)
    requires Valid(a.time) && Valid(b.time) && Seconds(b.time) < Seconds(a.time)
    requires YearWidth(padded, a.time) == YearWidth(padded, b.time)
    ensures var first := WriteOne(padded, map[], a, 1);
            && first.Success? && WriteOne(padded, first.value, b, 1).Success?
            && NameOf(padded, b) !in WriteOne(padded, first.value, b, 1).value
  {
    EarlierNameIsLess(padded, b, a);
    LesserNameIsLost(padded, a, b);
  }

  // ---- A history of writes ----

  function WriteAll(padded: bool, records: seq<Record>, retention: int): Result<Files, WriteError> {
    if records == [] then
      Success(map[])
    else
      var before :- WriteAll(padded, records[..|records| - 1], retention);
      WriteOne(padded, before, records[|records| - 1], retention)
  }

  /** Each timestamp is later than the one before. */
  ghost predicate Later(records: seq<Record>) {
    && (forall r | r in records :: Valid(r.time))
    && (forall i, j | 0 <= i < j < |records| :: Seconds(records[i].time) < Seconds(records[j].time))
  }

  /** Moreover all years are printed equally wide, as they always are when padded. */
  ghost predicate StrictlyLater(padded: bool, records: seq<Record>) {
    && Later(records)
    && (forall i, j | 0 <= i < j < |records| ::
          YearWidth(padded, records[i].time) == YearWidth(padded, records[j].time))
  }

  function Window(records: seq<Record>, retention: nat): seq<Record> {
    if |records| <= retention then records else records[|records| - retention..]
  }

  function NamesOf(padded: bool, records: seq<Record>): seq<string> {
    seq(|records|, i requires 0 <= i < |records| => NameOf(padded, records[i]))
  }

  function LastSuccess(records: seq<Record>): Option<Record> {
    if records == [] then None
    else if records[|records| - 1].success then Some(records[|records| - 1])
    else LastSuccess(records[..|records| - 1])
  }

  /** The directory holds these manifests with their contents, this last success, and nothing else. */
  ghost predicate Holds(padded: bool, files: Files, manifests: seq<Record>, last: Option<Record>) {
    && Names(files) == Elements(NamesOf(padded, manifests))
    && (forall r | r in manifests :: NameOf(padded, r) in files && files[NameOf(padded, r)] == r.content)
    && (if last.None? then LAST_SUCCESSFUL !in files
        else LAST_SUCCESSFUL in files && files[LAST_SUCCESSFUL] == last.value.content)
    && (forall n | n in files :: IsManifest(n) || n == LAST_SUCCESSFUL)
  }

  lemma NamesAscend(padded: bool, records: seq<Record>)
    requires StrictlyLater(padded, records)
    ensures Ascending(NamesOf(padded, records))
  {
    forall i, j | 0 <= i < j < |records|
      ensures TextLess(NameOf(padded, records[i]), NameOf(padded, records[j]))
    {
      EarlierNameIsLess(padded, records[i], records[j]);
    }
  }

  lemma NewNameIsNew(padded: bool, manifests: seq<Record>, r: Record)
    requires StrictlyLater(padded, manifests + [r])
    ensures IsManifest(NameOf(padded, r))
    ensures NameOf(padded, r) !in Elements(NamesOf(padded, manifests))
    ensures forall m | m in manifests :: NameOf(padded, m) != NameOf(padded, r) && IsManifest(NameOf(padded, m))
  {
    var all := manifests + [r];
    assert all[|manifests|] == r;
    NamesAreManifests(padded, r);
    forall i | 0 <= i < |manifests|
      ensures NameOf(padded, manifests[i]) != NameOf(padded, r) && IsManifest(NameOf(padded, manifests[i]))
    {
      assert all[i] == manifests[i] && all[i] in all;
      EarlierNameIsLess(padded, all[i], r);
      NamesAreManifests(padded, all[i]);
    }
  }

  lemma RecordedHolds(padded: bool, files: Files, manifests: seq<Record>, last: Option<Record>, r: Record)
    requires Holds(padded, files, manifests, last)
    requires IsManifest(NameOf(padded, r)) && NameOf(padded, r) !in Elements(NamesOf(padded, manifests))
    requires forall m | m in manifests :: NameOf(padded, m) != NameOf(padded, r) && IsManifest(NameOf(padded, m))
    ensures NameOf(padded, r) !in files
    ensures Holds(padded, Recorded(padded, files, r), manifests + [r], if r.success then Some(r) else last)
  {
    hide NameOf;
    assert NamesOf(padded, manifests + [r]) == NamesOf(padded, manifests) + [NameOf(padded, r)];
    assert Elements(NamesOf(padded, manifests + [r])) == Elements(NamesOf(padded, manifests)) + {NameOf(padded, r)};
    assert NameOf(padded, r) in files ==> NameOf(padded, r) in Names(files);
    assert Names(Recorded(padded, files, r)) == Names(files) + {NameOf(padded, r)};
  }

  lemma WindowNames(padded: bool, manifests: seq<Record>, retention: nat)
    requires StrictlyLater(padded, manifests)
    ensures var kept := Window(manifests, retention);
            && Newest(Elements(NamesOf(padded, manifests)), retention) == Elements(NamesOf(padded, kept))
            && forall m | m in kept :: m in manifests && NameOf(padded, m) in Elements(NamesOf(padded, kept))
  {
    hide NameOf;
    NamesAscend(padded, manifests);
    var names, kept := NamesOf(padded, manifests), Window(manifests, retention);
    NewestAreLast(names, retention);
    assert NamesOf(padded, kept) == if |names| <= retention then names else names[|names| - retention..];
    forall m | m in kept
      ensures NameOf(padded, m) in Elements(NamesOf(padded, kept))
    {
      var i :| 0 <= i < |kept| && kept[i] == m;
      assert NamesOf(padded, kept)[i] == NameOf(padded, m);
    }
  }

  lemma PrunedHolds(padded: bool, files: Files, manifests: seq<Record>, last: Option<Record>, retention: nat,
                    kept: seq<Record>)
    requires Holds(padded, files, manifests, last)
    requires Newest(Elements(NamesOf(padded, manifests)), retention) == Elements(NamesOf(padded, kept))
    requires forall m | m in kept :: m in manifests && NameOf(padded, m) in Elements(NamesOf(padded, kept))
    ensures Holds(padded, Prune(files, retention), kept, last)
  {
    assert Names(Prune(files, retention)) == Newest(Names(files), retention);
  }

  lemma LaterSlice(padded: bool, records: seq<Record>, from: nat, to: nat)
    requires StrictlyLater(padded, records) && from <= to <= |records|
    ensures StrictlyLater(padded, records[from..to])
  {
    var slice := records[from..to];
    assert forall i | 0 <= i < |slice| :: slice[i] == records[from + i];
  }

  lemma WindowStep(padded: bool, init: seq<Record>, r: Record, retention: nat)
    requires StrictlyLater(padded, init + [r])
    ensures StrictlyLater(padded, init) && StrictlyLater(padded, Window(init, retention) + [r])
    ensures Window(Window(init, retention) + [r], retention) == Window(init + [r], retention)
  {
    hide StrictlyLater;
    var all, held := init + [r], Window(init, retention);
    assert init == all[0..|init|] && held + [r] == all[|init| - |held|..|all|];
    LaterSlice(padded, all, 0, |init|);
    LaterSlice(padded, all, |init| - |held|, |all|);
  }

  lemma LaterWriteHolds(padded: bool, files: Files, held: seq<Record>, last: Option<Record>, r: Record, retention: int)
    requires 1 <= retention <= MAX_RETENTION && Holds(padded, files, held, last) && StrictlyLater(padded, held + [r])
    ensures WriteOne(padded, files, r, retention).Success?
    ensures Holds(padded, WriteOne(padded, files, r, retention).value, Window(held + [r], retention),
                  if r.success then Some(r) else last)
  {
    NewNameIsNew(padded, held, r);
    RecordedHolds(padded, files, held, last, r);
    WindowNames(padded, held + [r], retention);
    PrunedHolds(padded, Recorded(padded, files, r), held + [r], if r.success then Some(r) else last, retention,
                Window(held + [r], retention));
  }

  lemma NothingHeld(padded: bool)
    ensures Holds(padded, map[], [], None)
  {
    assert Names(map[]) == {} == Elements(NamesOf(padded, []));
  }

  lemma ExtendedHolds(padded: bool, init: seq<Record>, r: Record, retention: int)
    requires 1 <= retention <= MAX_RETENTION && StrictlyLater(padded, init + [r])
    requires WriteAll(padded, init, retention).Success?
    requires Holds(padded, WriteAll(padded, init, retention).value, Window(init, retention), LastSuccess(init))
    ensures var all := init + [r];
            && WriteAll(padded, all, retention).Success?
            && Holds(padded, WriteAll(padded, all, retention).value, Window(all, retention), LastSuccess(all))
  {
    WindowStep(padded, init, r, retention);
    LaterWriteHolds(padded, WriteAll(padded, init, retention).value, Window(init, retention), LastSuccess(init), r,
                    retention);
    assert (init + [r])[..|init|] == init;
  }

  /**
   Every write succeeds; the directory then holds exactly the newest manifests, as
   many as the retention allows, each with its own content, and beside them the
   last success, even when the manifest of that success is gone.
   */
  ghost predicate HoldsNewest(padded: bool, records: seq<Record>, retention: nat) {
    && WriteAll(padded, records, retention).Success?
    && var files := WriteAll(padded, records, retention).value;
       && Holds(padded, files, Window(records, retention), LastSuccess(records))
       && |Names(files)| == if |records| <= retention then |records| else retention
  }

  lemma {:induction false} WritesHoldWindow(padded: bool, records: seq<Record>, retention: int)
    requires 1 <= retention <= MAX_RETENTION && StrictlyLater(padded, records)
    ensures WriteAll(padded, records, retention).Success?
    ensures Holds(padded, WriteAll(padded, records, retention).value, Window(records, retention), LastSuccess(records))
  {
    if records == [] {
      NothingHeld(padded);
    } else {
      var init, r := records[..|records| - 1], records[|records| - 1];
      assert records == init + [r];
      WindowStep(padded, init, r, retention);
      WritesHoldWindow(padded, init, retention);
      ExtendedHolds(padded, init, r, retention);
    }
  }

  lemma HeldCount(padded: bool, files: Files, manifests: seq<Record>, last: Option<Record>)
    requires Holds(padded, files, manifests, last) && StrictlyLater(padded, manifests)
    ensures |Names(files)| == |manifests|
  {
    hide Names, NameOf, StrictlyLater;
    NamesAscend(padded, manifests);
    AscendingIsDistinct(NamesOf(padded, manifests));
    DistinctSize(NamesOf(padded, manifests));
  }

  lemma WindowIsLater(padded: bool, records: seq<Record>, retention: nat)
    requires StrictlyLater(padded, records)
    ensures StrictlyLater(padded, Window(records, retention))
    ensures |Window(records, retention)| == if |records| <= retention then |records| else retention
  {
    hide StrictlyLater;
    var kept := Window(records, retention);
    assert kept == records[|records| - |kept|..|records|];
    LaterSlice(padded, records, |records| - |kept|, |records|);
  }

  /** With strictly later timestamps, printed equally wide, the newest manifests are held. */
  lemma RetentionKeepsNewest(padded: bool, records: seq<Record>, retention: int)
    requires 1 <= retention <= MAX_RETENTION && StrictlyLater(padded, records)
    ensures HoldsNewest(padded, records, retention)
  {
    hide WriteAll, Holds, StrictlyLater, Names, Window, LastSuccess;
    WritesHoldWindow(padded, records, retention);
    WindowIsLater(padded, records, retention);
    HeldCount(padded, WriteAll(padded, records, retention).value, Window(records, retention), LastSuccess(records));
  }

  ghost predicate RecordedInYears(records: seq<Record>, lo: nat, hi: nat) {
    forall r | r in records :: InYears(r.time, lo, hi)
  }

  /** Whatever is written, at whichever later and later times of these years, the newest manifests are held. */
  ghost predicate RetentionIsExact(padded: bool, lo: nat, hi: nat) {
    forall records: seq<Record>, retention: nat
      | Later(records) && RecordedInYears(records, lo, hi) && 1 <= retention <= MAX_RETENTION ::
      HoldsNewest(padded, records, retention)
  }

  lemma LaterInYears(padded: bool, records: seq<Record>, lo: nat, hi: nat)
    requires Later(records) && RecordedInYears(records, lo, hi) && SameWidths(padded, lo, hi)
    ensures StrictlyLater(padded, records)
  {
    forall i, j | 0 <= i < j < |records|
      ensures YearWidth(padded, records[i].time) == YearWidth(padded, records[j].time)
    {
      WidthsInRange(padded, lo, hi, records[i].time, records[j].time);
    }
  }

  /** A record of the first second of a year. */
  function NewYear(year: nat): Record {
    Record(StartOf(year), "", "", true, "")
  }

  /** Two writes at which the manifest of a year of nines outlives the newer one of the longer year. */
  lemma LongerYearIsLost(nines: nat)
    requires nines in {9, 99, 999}
    ensures Later([NewYear(nines), NewYear(nines + 1)])
    ensures !HoldsNewest(false, [NewYear(nines), NewYear(nines + 1)], 1)
  {
    hide Seconds, Valid, WriteOne, Names, LastSuccess, FormatCompact, Format, TextLess, Print;
    var a, b := NewYear(nines), NewYear(nines + 1);
    LongerYearsMisorder(nines);
    LongerNameIsLess(nines);
    LesserNameIsLost(false, a, b);
    TwoWrites(a, b);
  }

  lemma LongerNameIsLess(nines: nat)
    requires nines in {9, 99, 999}
    ensures TextLess(NameOf(false, NewYear(nines + 1)), NameOf(false, NewYear(nines)))
  {
    hide FormatCompact, Format, Print, Tail;
    FirstDigit(StartOf(nines));
    FirstDigit(StartOf(nines + 1));
    NinesAndMore(nines);
  }

  lemma TwoWrites(a: Record, b: Record)
    requires WriteOne(false, map[], a, 1).Success?
    requires WriteOne(false, WriteOne(false, map[], a, 1).value, b, 1).Success?
    requires NameOf(false, b) !in WriteOne(false, WriteOne(false, map[], a, 1).value, b, 1).value
    ensures !HoldsNewest(false, [a, b], 1)
  {
    hide WriteOne, NameOf, Names;
    assert [a, b][..1] == [a] && [a][..0] == [];
    assert WriteAll(false, [], 1) == Success(map[]);
    assert WriteAll(false, [a], 1) == WriteOne(false, map[], a, 1);
    assert Window([a, b], 1) == [b] && b in [b];
  }

  lemma SameWidthsSuffice(padded: bool, lo: nat, hi: nat)
    requires SameWidths(padded, lo, hi)
    ensures RetentionIsExact(padded, lo, hi)
  {
    hide HoldsNewest, Later, StrictlyLater, SameWidths, RecordedInYears;
    forall records: seq<Record>, retention: nat
      | Later(records) && RecordedInYears(records, lo, hi) && 1 <= retention <= MAX_RETENTION
      ensures HoldsNewest(padded, records, retention)
    {
      LaterInYears(padded, records, lo, hi);
      RetentionKeepsNewest(padded, records, retention);
    }
  }

  /**
   The newest manifests are held in every history within a range of years, under
   every retention, if and only if years are padded or the first and the last year
   of the range have equally many digits.
   */
  lemma RetentionIsExactIff(padded: bool, lo: nat, hi: nat)
    requires 1 <= lo <= hi <= 9999
    ensures RetentionIsExact(padded, lo, hi) <==> SameWidths(padded, lo, hi)
  {
    hide HoldsNewest, Later, SameWidths, InYears, Seconds, TextLess, FormatCompact, Format;
    if SameWidths(padded, lo, hi) {
      SameWidthsSuffice(padded, lo, hi);
    } else {
      var nines := CrossingMisorders(padded, lo, hi);
      LongerYearIsLost(nines);
      assert RecordedInYears([NewYear(nines), NewYear(nines + 1)], lo, hi);
    }
  }
}
