/**
 Names of the components in a migration diagnostic: safe, without duplicates,
 and in order.
 */
module ComponentNames {
  import opened Wrappers
  import opened Collections
  import opened TextOrder
  import opened Texts

  const MAX_LENGTH := 64

  datatype Component = Component(name: string, digest: string)

  datatype Manifest = Manifest(side: string, digest: string, components: seq<Component>)

  datatype DiagnosticsError = BadSide | BadDigest

  // ---- Safe names ----

  predicate IsSafeChar(c: char) {
    'A' <= c <= 'Z' || 'a' <= c <= 'z' || IsDigit(c) || c == '_' || c == '.' || c == '-'
  }

  predicate IsSafeText(s: string) {
    s != "" && s[0] != '_' && s[0] != '.' && s[0] != '-' && forall c | c in s :: IsSafeChar(c)
  }

  predicate IsSafeName(s: string) {
    IsSafeText(s) && |s| <= MAX_LENGTH
  }

  /** The text without the spaces around it. */
  function Strip(s: string): string
    decreases |s|
  {
    if s == "" then ""
    else if IsSpace(s[0]) then Strip(s[1..])
    else if IsSpace(s[|s| - 1]) then Strip(s[..|s| - 1])
    else s
  }

  function Candidate(raw: string, index: nat): string {
    if IsSafeName(Strip(raw)) then Strip(raw) else "component_" + Print(index)
  }

  // ---- The search for a free suffix ----

  function Tagged(name: string, suffix: nat): string {
    name + "_" + Print(suffix)
  }

  function Tags(name: string, end: nat): set<string> {
    set k: nat | 2 <= k < end :: Tagged(name, k)
  }

  lemma TagIsInjective(name: string, j: nat, k: nat)
    requires Tagged(name, j) == Tagged(name, k)
    ensures j == k
  {
    var n := |name| + 1;
    assert Tagged(name, j)[n..] == Print(j) && Tagged(name, k)[n..] == Print(k);
    PrintIsInjective(j, k);
  }

  lemma {:induction false} TagsAreMany(name: string, end: nat)
    requires end >= 2
    ensures |Tags(name, end)| == end - 2
  {
    if end == 2 {
      assert Tags(name, end) == {};
    } else {
      TagsAreMany(name, end - 1);
      assert Tags(name, end) == Tags(name, end - 1) + {Tagged(name, end - 1)};
      forall k: nat | 2 <= k < end - 1
        ensures Tagged(name, k) != Tagged(name, end - 1)
      {
        if Tagged(name, k) == Tagged(name, end - 1) {
          TagIsInjective(name, k, end - 1);
        }
      }
    }
  }

  /** A name cannot be taken under more suffixes than there are used names. */
  lemma TakenSuffixesAreBounded(name: string, used: set<string>, end: nat)
    requires end >= 2 && Tags(name, end) <= used
    ensures end - 2 <= |used|
  {
    TagsAreMany(name, end);
    SubsetSize(Tags(name, end), used);
  }

  lemma TagsGrow(name: string, used: set<string>, suffix: nat)
    requires suffix >= 2 && Tags(name, suffix) <= used && Tagged(name, suffix) in used
    ensures Tags(name, suffix + 1) <= used && suffix - 1 <= |used|
  {
    assert Tags(name, suffix + 1) == Tags(name, suffix) + {Tagged(name, suffix)};
    TakenSuffixesAreBounded(name, used, suffix + 1);
  }

  /** The least suffix that is free, at or after one below which all are taken. */
  function FreeSuffix(name: string, used: set<string>, suffix: nat): (k: nat)
    requires suffix >= 2 && Tags(name, suffix) <= used
    ensures k >= suffix && Tagged(name, k) !in used && Tags(name, k) <= used
    decreases |used| + 2 - suffix
  {
    if Tagged(name, suffix) in used then
      TagsGrow(name, used, suffix);
      FreeSuffix(name, used, suffix + 1)
    else
      suffix
  }

  function Unique(candidate: string, used: set<string>): string {
    if candidate !in used then candidate
    else
      assert Tags(candidate, 2) == {};
      Tagged(candidate, FreeSuffix(candidate, used, 2))
  }

  /** A unique name is new, and it is the candidate or the candidate with the least free suffix. */
  lemma UniqueIsLeastFree(candidate: string, used: set<string>)
    ensures Unique(candidate, used) !in used
    ensures Unique(candidate, used) == candidate ||
            (candidate in used &&
             exists k: nat :: 2 <= k && Unique(candidate, used) == Tagged(candidate, k)
                              && forall j: nat | 2 <= j < k :: Tagged(candidate, j) in used)
  {
    if candidate in used {
      assert Tags(candidate, 2) == {};
      var k := FreeSuffix(candidate, used, 2);
      forall j: nat | 2 <= j < k
        ensures Tagged(candidate, j) in used
      {
        assert Tagged(candidate, j) in Tags(candidate, k);
      }
    }
  }

  class Namer {
    var used: set<string>

    constructor ()
      ensures used == {}
    {
      used := {};
    }

    /** Picks an unused name; the search for a suffix ends because the used names are finitely many. */
    method SafeComponentName(raw: string, index: nat) returns (name: string)
      modifies this
      ensures name == Unique(Candidate(raw, index), old(used))
      ensures used == old(used) + {name} && name !in old(used)
    {
      var candidate := Strip(raw);
      if !IsSafeName(candidate) {
        candidate := "component_" + Print(index);
      }
      if candidate !in used {
        used := used + {candidate};
        return candidate;
      }
      var suffix: nat := 2;
      assert Tags(candidate, 2) == {};
      while Tagged(candidate, suffix) in used
        invariant suffix >= 2 && Tags(candidate, suffix) <= used == old(used)
        invariant FreeSuffix(candidate, used, 2) == FreeSuffix(candidate, used, suffix)
        decreases |used| + 2 - suffix
      {
        TagsGrow(candidate, used, suffix);
        suffix := suffix + 1;
      }
      name := Tagged(candidate, suffix);
      used := used + {name};
    }
  }

  // ---- The manifest ----

  function NamesOf(components: seq<Component>): set<string> {
    set c | c in components :: c.name
  }

  /** The component of every pair of a raw name and a value, in order; names are numbered from one. */
  function Assign(pairs: seq<(string, string)>, hash: string -> string): seq<Component> {
    if pairs == [] then
      []
    else
      var before, (raw, value) := Assign(pairs[..|pairs| - 1], hash), pairs[|pairs| - 1];
      before + [Component(Unique(Candidate(raw, |pairs|), NamesOf(before)), hash(value))]
  }

  function ByName(): Component -> string {
    (c: Component) => c.name
  }

  method BuildComponentManifest(
    pairs: seq<(string, string)>, side: string, overall: string, overallIsDigest: bool, hash: string -> string)
    returns (r: Result<Manifest, DiagnosticsError>)
    ensures r == if side != "source" && side != "target" then Failure(BadSide)
                 else if !overallIsDigest then Failure(BadDigest)
                 else Success(Manifest(side, overall, Sort(Assign(pairs, hash), ByName())))
  {
    if side != "source" && side != "target" {
      return Failure(BadSide);
    }
    if !overallIsDigest {
      return Failure(BadDigest);
    }
    var namer := new Namer();
    var components: seq<Component> := [];
    for i := 0 to |pairs|
      invariant components == Assign(pairs[..i], hash) && namer.used == NamesOf(components)
    {
      assert pairs[..i + 1][..i] == pairs[..i];
      var (raw, value) := pairs[i];
      var name := namer.SafeComponentName(raw, i + 1);
      assert NamesOf(components + [Component(name, hash(value))]) == NamesOf(components) + {name};
      components := components + [Component(name, hash(value))];
    }
    assert pairs[..|pairs|] == pairs;
    return Success(Manifest(side, overall, Sort(components, ByName())));
  }

  predicate HaveDistinctNames(components: seq<Component>) {
    forall i, j | 0 <= i < j < |components| :: components[i].name != components[j].name
  }

  lemma NoNamesAreDistinct()
    ensures HaveDistinctNames([])
  {
  }

  lemma NewNameStaysDistinct(before: seq<Component>, c: Component)
    requires HaveDistinctNames(before) && c.name !in NamesOf(before)
    ensures HaveDistinctNames(before + [c])
  {
    forall i | 0 <= i < |before|
      ensures before[i].name != c.name
    {
      assert before[i] in before;
    }
  }

  lemma {:induction false} AssignedNamesAreDistinct(pairs: seq<(string, string)>, hash: string -> string)
    ensures var cs := Assign(pairs, hash);
            && |cs| == |pairs| && HaveDistinctNames(cs)
            && forall i | 0 <= i < |cs| :: cs[i].digest == hash(pairs[i].1)
  {
    hide Unique, Candidate, HaveDistinctNames;
    if pairs == [] {
      NoNamesAreDistinct();
    } else {
      var init, last := pairs[..|pairs| - 1], pairs[|pairs| - 1];
      AssignedNamesAreDistinct(init, hash);
      var before := Assign(init, hash);
      var name := Unique(Candidate(last.0, |pairs|), NamesOf(before));
      UniqueIsLeastFree(Candidate(last.0, |pairs|), NamesOf(before));
      NewNameStaysDistinct(before, Component(name, hash(last.1)));
    }
  }

  /** The names of some components, in order. */
  function Names(components: seq<Component>): seq<string> {
    seq(|components|, i requires 0 <= i < |components| => components[i].name)
  }

  lemma DifferentHaveDifferentNames(components: seq<Component>, x: Component, y: Component)
    requires HaveDistinctNames(components) && x in components && y in components && x != y
    ensures x.name != y.name
  {
  }

  /** Components with distinct names strictly ascend once they are sorted. */
  lemma SortedNamesAscend(cs: seq<Component>)
    requires HaveDistinctNames(cs)
    ensures Ascending(Names(Sort(cs, ByName())))
  {
    var s := Sort(cs, ByName());
    SortOrders(cs, ByName());
    DistinctIffMultiplicityOne(cs);
    DistinctIffMultiplicityOne(s);
    forall i, j | 0 <= i < j < |s|
      ensures TextLess(s[i].name, s[j].name)
    {
      assert s[i] in multiset(cs) && s[j] in multiset(cs);
      DifferentHaveDifferentNames(cs, s[i], s[j]);
      TextTotal(s[i].name, s[j].name);
      assert !TextLess(ByName()(s[j]), ByName()(s[i]));
    }
  }

  /**
   For any raw names the manifest has one component for each, with the hash of
   its value, under names that are distinct and strictly ascending.
   */
  lemma ManifestIsOrdered(pairs: seq<(string, string)>, hash: string -> string)
    ensures var s := Sort(Assign(pairs, hash), ByName());
            && Ascending(Names(s)) && multiset(s) == multiset(Assign(pairs, hash))
            && |Assign(pairs, hash)| == |pairs|
            && forall i | 0 <= i < |pairs| :: Assign(pairs, hash)[i].digest == hash(pairs[i].1)
  {
    AssignedNamesAreDistinct(pairs, hash);
    SortedNamesAscend(Assign(pairs, hash));
    SortOrders(Assign(pairs, hash), ByName());
  }

  // ---- What a name may contain ----

  lemma CandidateIsSafeText(raw: string, index: nat)
    ensures IsSafeText(Candidate(raw, index))
  {
    var name := "component_" + Print(index);
    PrintedDigits(index);
    assert name[0] == 'c';
    assert forall c | c in "component_" :: IsSafeChar(c);
  }

  /** Whether a candidate, with the suffix that it needs among these names, is short enough. */
  predicate Fits(candidate: string, used: set<string>) {
    assert Tags(candidate, 2) == {};
    if candidate in used then |candidate| + 1 + |Print(FreeSuffix(candidate, used, 2))| <= MAX_LENGTH
    else |candidate| <= MAX_LENGTH
  }

  /**
   Every name that is picked consists of safe characters only, and it satisfies
   the pattern of safe names exactly when the candidate and the least free
   suffix that it needs fit together.
   */
  lemma PickedNameIsSafeIff(raw: string, index: nat, used: set<string>)
    ensures IsSafeText(Unique(Candidate(raw, index), used))
    ensures IsSafeName(Unique(Candidate(raw, index), used)) <==> Fits(Candidate(raw, index), used)
  {
    var candidate := Candidate(raw, index);
    CandidateIsSafeText(raw, index);
    if candidate in used {
      assert Tags(candidate, 2) == {};
      TagKeepsSafeText(candidate, FreeSuffix(candidate, used, 2));
    }
  }

  lemma TagKeepsSafeText(name: string, suffix: nat)
    requires IsSafeText(name)
    ensures IsSafeText(Tagged(name, suffix)) && |Tagged(name, suffix)| == |name| + 1 + |Print(suffix)|
  {
    PrintedDigits(suffix);
    assert Tagged(name, suffix)[0] == name[0];
  }

  /** All names of a manifest are safe exactly when every input fits among the names picked before it. */
  lemma {:induction false} AllNamesAreSafeIff(pairs: seq<(string, string)>, hash: string -> string)
    ensures (forall c | c in Assign(pairs, hash) :: IsSafeName(c.name)) <==>
            forall i: nat | i < |pairs| :: FitsAt(pairs, hash, i)
  {
    hide Fits, Unique, Candidate, IsSafeName, IsSafeText;
    if pairs != [] {
      var n := |pairs| - 1;
      var init := pairs[..n];
      AllNamesAreSafeIff(init, hash);
      var before := Assign(init, hash);
      PickedNameIsSafeIff(pairs[n].0, |pairs|, NamesOf(before));
      forall i: nat | i < n
        ensures FitsAt(pairs, hash, i) <==> FitsAt(init, hash, i)
      {
        assert pairs[..i] == init[..i];
      }
      var last := Component(Unique(Candidate(pairs[n].0, |pairs|), NamesOf(before)), hash(pairs[n].1));
      assert Assign(pairs, hash) == before + [last];
      assert last in before + [last];
      assert FitsAt(pairs, hash, n) <==> IsSafeName(last.name);
    }
  }

  predicate FitsAt(pairs: seq<(string, string)>, hash: string -> string, i: nat)
    requires i < |pairs|
  {
    Fits(Candidate(pairs[i].0, i + 1), NamesOf(Assign(pairs[..i], hash)))
  }

  lemma SuffixIsBounded(name: string, used: set<string>)
    ensures Tags(name, 2) <= used && FreeSuffix(name, used, 2) <= |used| + 2
  {
    assert Tags(name, 2) == {};
    TakenSuffixesAreBounded(name, used, FreeSuffix(name, used, 2));
  }

  lemma {:induction false} NamesAreFew(components: seq<Component>)
    ensures |NamesOf(components)| <= |components|
  {
    if components != [] {
      var init, last := components[..|components| - 1], components[|components| - 1];
      NamesAreFew(init);
      assert components == init + [last];
      assert NamesOf(components) == NamesOf(init) + {last.name};
    }
  }

  /** Names that leave room for the largest suffix that so many inputs can need are all safe. */
  lemma ShortNamesStaySafe(pairs: seq<(string, string)>, hash: string -> string)
    requires var room := 1 + |Print(|pairs| + 1)|;
             && 10 + 2 * room <= MAX_LENGTH
             && forall p | p in pairs && IsSafeName(Strip(p.0)) :: |Strip(p.0)| + room <= MAX_LENGTH
    ensures forall c | c in Assign(pairs, hash) :: IsSafeName(c.name)
  {
    forall i: nat | i < |pairs|
      ensures FitsAt(pairs, hash, i)
    {
      var used := NamesOf(Assign(pairs[..i], hash));
      var candidate := Candidate(pairs[i].0, i + 1);
      assert pairs[i] in pairs;
      AssignedNamesAreDistinct(pairs[..i], hash);
      NamesAreFew(Assign(pairs[..i], hash));
      SuffixIsBounded(candidate, used);
      PrintGrows(FreeSuffix(candidate, used, 2), |pairs| + 1);
      PrintGrows(i + 1, |pairs| + 1);
    }
    AllNamesAreSafeIff(pairs, hash);
  }

  function Repeated(c: char, n: nat): string {
    seq(n, _ => c)
  }

  /** Two components with one name of the greatest length: the second name is too long. */
  lemma RepeatedLongNameIsUnsafe(hash: string -> string)
    ensures var long := Repeated('a', MAX_LENGTH);
            var pairs := [(long, "x"), (long, "y")];
            && IsSafeName(long) && |Assign(pairs, hash)| == 2
            && Assign(pairs, hash)[1].name == long + "_2" && !IsSafeName(long + "_2")
  {
    hide Strip;
    var long := Repeated('a', MAX_LENGTH);
    var pairs := [(long, "x"), (long, "y")];
    StripKeepsSafe(long);
    assert pairs[..1] == [(long, "x")] && pairs[..1][..0] == [];
    var first := Component(long, hash("x"));
    assert Assign(pairs[..1], hash) == [first];
    assert first in [first] && NamesOf([first]) == {long};
    assert Tags(long, 2) == {};
    assert |Tagged(long, 2)| > |long|;
    assert FreeSuffix(long, {long}, 2) == 2;
    assert Print(2) == "2";
  }

  lemma StripKeepsSafe(s: string)
    requires IsSafeText(s)
    ensures Strip(s) == s
  {
    assert s[0] in s && s[|s| - 1] in s;
  }
}
